/**
 The transport-error tally of update (library/scrollphat/IS31FL3730.py): a
 failed draw write is counted, and the operator notice is printed on the
 write that brings the count to exactly ten.
 */
module ErrorCounter {

  const NoticeThreshold: nat := 10

  /** One draw write: the new count and whether the notice is printed. */
  function Record(count: nat, busOk: bool): (r: (nat, bool))
    ensures busOk ==> r.0 == count
    ensures !busOk ==> r.0 == count + 1
    ensures r.1 <==> !busOk && r.0 == NoticeThreshold
  {
    if busOk then (count, false)
    else
      var next := count + 1;
      (next, next == NoticeThreshold)
  }

  /** The number of failed writes in a run. */
  function Failures(oks: seq<bool>): nat
  {
    if oks == [] then 0 else (if oks[0] then 0 else 1) + Failures(oks[1..])
  }

  /** A run of draw writes: the final count and, write by write, whether the notice fired. */
  function Run(count: nat, oks: seq<bool>): (r: (nat, seq<bool>))
    ensures |r.1| == |oks|
    ensures r.0 == count + Failures(oks)
    decreases |oks|
  {
    if oks == [] then (count, [])
    else
      var (next, notice) := Record(count, oks[0]);
      var (final, notices) := Run(next, oks[1..]);
      (final, [notice] + notices)
  }

  /** Once the count has reached ten, no later write prints the notice. */
  lemma {:induction false} NoNoticeAfterThreshold(count: nat, oks: seq<bool>)
    requires count >= NoticeThreshold
    ensures forall i :: 0 <= i < |oks| ==> !Run(count, oks).1[i]
    decreases |oks|
  {
    if oks != [] {
      var next := Record(count, oks[0]).0;
      NoNoticeAfterThreshold(next, oks[1..]);
      var notices := Run(count, oks).1;
      assert notices == [Record(count, oks[0]).1] + Run(next, oks[1..]).1;
      forall i | 0 <= i < |oks|
        ensures !notices[i]
      {
        if i > 0 {
          assert notices[i] == Run(next, oks[1..]).1[i - 1];
        }
      }
    }
  }

  /** The notice is printed at most once in any run of writes. */
  lemma {:induction false} NoticeAtMostOnce(count: nat, oks: seq<bool>)
    ensures forall i, j :: 0 <= i < j < |oks| && Run(count, oks).1[i] ==> !Run(count, oks).1[j]
    decreases |oks|
  {
    if oks != [] {
      var (next, first) := Record(count, oks[0]);
      var rest := Run(next, oks[1..]).1;
      var notices := Run(count, oks).1;
      assert notices == [first] + rest;
      NoticeAtMostOnce(next, oks[1..]);
      if first {
        NoNoticeAfterThreshold(next, oks[1..]);
      }
      forall i, j | 0 <= i < j < |oks| && notices[i]
        ensures !notices[j]
      {
        assert notices[j] == rest[j - 1];
        if i > 0 {
          assert notices[i] == rest[i - 1];
        }
      }
    }
  }

  /** Some write of the run prints the notice exactly when the run carries the count from below ten to ten or more. */
  lemma {:induction false} NoticeIffCrossing(count: nat, oks: seq<bool>)
    ensures (exists i :: 0 <= i < |oks| && Run(count, oks).1[i])
            <==> count < NoticeThreshold <= Run(count, oks).0
    decreases |oks|
  {
    if oks != [] {
      var (next, first) := Record(count, oks[0]);
      var rest := Run(next, oks[1..]).1;
      var notices := Run(count, oks).1;
      assert notices == [first] + rest;
      assert Run(count, oks).0 == Run(next, oks[1..]).0;
      NoticeIffCrossing(next, oks[1..]);
      if exists i :: 0 <= i < |oks| - 1 && rest[i] {
        var i :| 0 <= i < |oks| - 1 && rest[i];
        assert notices[i + 1];
      }
      if exists i :: 0 <= i < |oks| && notices[i] {
        var i :| 0 <= i < |oks| && notices[i];
        if i > 0 {
          assert rest[i - 1];
        }
      }
      if first {
        assert notices[0];
      }
    }
  }

  /** n failed writes in a row: each one counts, and the i-th prints iff it brings the count to ten. */
  lemma {:induction false} ConsecutiveFailures(count: nat, n: nat)
    ensures Run(count, seq(n, _ => false)).0 == count + n
    ensures Run(count, seq(n, _ => false)).1 == seq(n, i => count + i + 1 == NoticeThreshold)
    decreases n
  {
    var oks := seq(n, _ => false);
    if n > 0 {
      assert oks[1..] == seq(n - 1, _ => false);
      ConsecutiveFailures(count + 1, n - 1);
      var r := Run(count, oks);
      assert r.1 == [count + 1 == NoticeThreshold] + seq(n - 1, i => count + 1 + i + 1 == NoticeThreshold);
      assert r.1 == seq(n, i => count + i + 1 == NoticeThreshold);
    }
  }

  /** Ten failed writes from a fresh count: the count is ten and only the tenth write prints. */
  lemma TenFailures()
    ensures Run(0, seq(10, _ => false)) == (10, seq(9, _ => false) + [true])
  {
    ConsecutiveFailures(0, 10);
    assert seq(10, i => 0 + i + 1 == NoticeThreshold) == seq(9, _ => false) + [true];
  }
}
