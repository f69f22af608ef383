/**
 The IS31FL3730 display driver (library/scrollphat/IS31FL3730.py): the state
 the class keeps, and every public operation as a step from one state to the
 next together with the bus writes it makes. The bus itself is not modelled:
 each write takes its outcome as a `busOk` input.
 */
module Driver {
  import opened Wrappers
  import opened Rotation
  import opened FrameBuffer
  import opened Window
  import opened FontRenderer
  import opened GraphRenderer
  import opened ErrorCounter
  import opened Arith

  const I2CAddress: nat := 0x60
  const ModeRegister: nat := 0x00
  const DrawRegister: nat := 0x01
  const Mode5x11: nat := 0x03

  /** The driver's fields after initialize. */
  datatype Driver = Driver(
    buffer: seq<Column>,
    offset: int,
    rotate: bool,
    errorCount: nat,
    font: Font)

  /** One block write: device address, register, payload bytes. */
  datatype BusWrite = BusWrite(addr: nat, register: nat, payload: seq<nat>)

  /** The outcome of an operation that returned normally. */
  datatype Step = Step(driver: Driver, writes: seq<BusWrite>, notice: bool)

  /** A Python exception leaving the operation, with the state as it was when it was raised. */
  datatype Raised = Raised(fault: Fault, driver: Driver)

  /** The state invariant: at least a full window of columns, and the offset inside the buffer. */
  predicate Valid(d: Driver)
  {
    |d.buffer| >= Width && 0 <= d.offset < |d.buffer|
  }

  function ModeWrite(): BusWrite
  {
    BusWrite(I2CAddress, ModeRegister, [Mode5x11])
  }

  /** initialize: eleven blank columns, offset 0, no errors, no rotation, then the mode command. */
  function Initialize(font: Font, busOk: bool): (r: Result<Step, Raised>)
    ensures r.Success? <==> busOk
    ensures r.Success? ==>
              && r.value.driver == Driver(Zeros(Width), 0, false, 0, font)
              && Valid(r.value.driver)
              && r.value.writes == [BusWrite(I2CAddress, ModeRegister, [Mode5x11])]
              && !r.value.notice
    ensures r.Failure? ==> r.error == Raised(IOError, Driver(Zeros(Width), 0, false, 0, font))
  {
    var d := Driver(Zeros(Width), 0, false, 0, font);
    SetMode(d, Mode5x11, busOk)
  }

  /** set_mode: sends the 5x11 mode whatever mode is asked for; a failed write propagates. */
  function SetMode(d: Driver, mode: int, busOk: bool): (r: Result<Step, Raised>)
    ensures r.Success? <==> busOk
    ensures r.Success? ==> r.value == Step(d, [BusWrite(I2CAddress, ModeRegister, [Mode5x11])], false)
    ensures r.Failure? ==> r.error == Raised(IOError, d)
  {
    if busOk then Success(Step(d, [ModeWrite()], false)) else Failure(Raised(IOError, d))
  }

  /**
   update: send the current frame to the draw register. A failed write is
   counted, never raised; the notice is printed when the count becomes ten.
   */
  function Update(d: Driver, busOk: bool): (s: Step)
    ensures |s.writes| == 1
    ensures s.writes[0].addr == I2CAddress && s.writes[0].register == DrawRegister
    ensures s.writes[0].payload == Frame(d.buffer, d.offset, d.rotate)
    ensures s.driver.errorCount == if busOk then d.errorCount else d.errorCount + 1
    ensures s.driver == d.(errorCount := s.driver.errorCount)
    ensures s.notice <==> !busOk && s.driver.errorCount == 10
  {
    var (count, notice) := Record(d.errorCount, busOk);
    Step(d.(errorCount := count), [BusWrite(I2CAddress, DrawRegister, Frame(d.buffer, d.offset, d.rotate))], notice)
  }

  /**
   In a valid state the pushed frame is twelve bytes ending in 0xFF, column i
   showing buffer[(offset + i) mod length], or with rotation the mirrored
   buffer[(offset + 10 - i) mod length].
   */
  lemma UpdateFrame(d: Driver, busOk: bool)
    requires Valid(d)
    ensures var frame := Update(d, busOk).writes[0].payload;
            && |frame| == Width + 1
            && frame[Width] == Terminator
            && forall i :: 0 <= i < Width ==>
                 frame[i] == if d.rotate then Rotate5(d.buffer[(d.offset + Width - 1 - i) % |d.buffer|])
                             else d.buffer[(d.offset + i) % |d.buffer|]
  {
    var frame := Frame(d.buffer, d.offset, d.rotate);
    FrameLayout(d.buffer, d.offset, d.rotate);
    assert Update(d, busOk).writes[0].payload == frame;
  }

  /** A run of updates, one bus outcome per push: the final state and the notice flags. */
  function Updates(d: Driver, oks: seq<bool>): (r: (Driver, seq<bool>))
    ensures |r.1| == |oks|
    ensures r.0 == d.(errorCount := r.0.errorCount)
    ensures d.errorCount <= r.0.errorCount <= d.errorCount + |oks|
    decreases |oks|
  {
    if oks == [] then (d, [])
    else
      var s := Update(d, oks[0]);
      var (last, notices) := Updates(s.driver, oks[1..]);
      (last, [s.notice] + notices)
  }

  /**
   The driver's error count and notices over a run of updates are the error
   counter's: so the count only grows, and the notice appears at most once.
   */
  lemma {:induction false} UpdatesCount(d: Driver, oks: seq<bool>)
    ensures Updates(d, oks).0 == d.(errorCount := Run(d.errorCount, oks).0)
    ensures Updates(d, oks).1 == Run(d.errorCount, oks).1
    ensures forall i, j :: 0 <= i < j < |oks| && Updates(d, oks).1[i] ==> !Updates(d, oks).1[j]
    decreases |oks|
  {
    if oks != [] {
      UpdatesCount(Update(d, oks[0]).driver, oks[1..]);
    }
    NoticeAtMostOnce(d.errorCount, oks);
  }

  /** Ten failed pushes after initialize: io_errors reports ten, and only the tenth push printed. */
  lemma TenFailedPushes(font: Font)
    ensures var d := Initialize(font, true).value.driver;
            var (last, notices) := Updates(d, seq(10, _ => false));
            IoErrors(last) == 10 && notices == seq(9, _ => false) + [true]
  {
    var d := Initialize(font, true).value.driver;
    UpdatesCount(d, seq(10, _ => false));
    TenFailures();
  }

  /** set_col on the driver: no push; the buffer only grows. */
  function SetCol(d: Driver, x: nat, value: Column): (r: Driver)
    ensures r.buffer == FrameBuffer.SetCol(d.buffer, x, value)
    ensures r == d.(buffer := r.buffer)
    ensures Valid(d) ==> Valid(r)
  {
    d.(buffer := FrameBuffer.SetCol(d.buffer, x, value))
  }

  /** set_pixel on the driver: no push; an index past the buffer raises IndexError. */
  function SetPixel(d: Driver, x: nat, y: nat, value: bool): (r: Result<Driver, Raised>)
    ensures r.Failure? <==> x >= |d.buffer|
    ensures r.Failure? ==> r.error == Raised(IndexError, d)
    ensures r.Success? ==>
              && r.value.buffer == FrameBuffer.SetPixel(d.buffer, x, y, value).value
              && r.value == d.(buffer := r.value.buffer)
              && |r.value.buffer| == |d.buffer|
              && (Valid(d) ==> Valid(r.value))
  {
    match FrameBuffer.SetPixel(d.buffer, x, y, value)
    case Success(b) => Success(d.(buffer := b))
    case Failure(e) => Failure(Raised(e, d))
  }

  /** set_buffer: the replacement is kept as is; the invariant survives only if it is long enough. */
  function SetBuffer(d: Driver, replacement: seq<Column>): (r: Driver)
    ensures r.buffer == replacement
    ensures r == d.(buffer := replacement)
    ensures Valid(r) <==> |replacement| >= Width && 0 <= d.offset < |replacement|
  {
    d.(buffer := replacement)
  }

  /** buffer_len: in a valid state at least a full window, and past the offset. */
  function BufferLen(d: Driver): (n: nat)
    ensures n == |d.buffer|
    ensures Valid(d) ==> Width <= n && d.offset < n
    ensures n == 0 <==> d.buffer == []
  {
    |d.buffer|
  }

  /** load_font: the new font is used from the next write_string on; nothing shown changes. */
  function LoadFont(d: Driver, font: Font): (r: Driver)
    ensures r.font == font
    ensures r.buffer == d.buffer && r.offset == d.offset && r.rotate == d.rotate
    ensures r.errorCount == d.errorCount
    ensures Valid(r) <==> Valid(d)
  {
    d.(font := font)
  }

  /** io_errors. */
  function IoErrors(d: Driver): nat
  {
    d.errorCount
  }

  /** io_errors after a run of pushes reports the count before it plus every failed push. */
  lemma IoErrorsCountsFailures(d: Driver, oks: seq<bool>)
    ensures IoErrors(Updates(d, oks).0) == IoErrors(d) + Failures(oks)
  {
    UpdatesCount(d, oks);
  }

  /** Python's `x % n` for a positive length n: the representative of x in [0, n). */
  function Reduce(x: int, n: nat): (r: int)
    requires n > 0
    ensures 0 <= r < n
    ensures (r - x) % n == 0
  {
    ModUnique(x - x % n, n, x / n, 0);
    ModUnique(x % n - x, n, -(x / n), 0);
    x % n
  }

  /** scroll: move the offset by delta, reduced modulo the buffer length, then push. */
  function Scroll(d: Driver, delta: int, busOk: bool): (r: Result<Step, Raised>)
    ensures r.Failure? <==> |d.buffer| == 0
    ensures r.Failure? ==> r.error == Raised(ZeroDivisionError, d.(offset := d.offset + delta))
    ensures r.Success? ==>
              var after := r.value.driver;
              && 0 <= after.offset < |d.buffer|
              && (after.offset - (d.offset + delta)) % |d.buffer| == 0
              && after.buffer == d.buffer && after.rotate == d.rotate && after.font == d.font
              && |r.value.writes| == 1
              && (Valid(d) ==> Valid(after))
    ensures r.Success? ==>
              && r.value.writes == [BusWrite(I2CAddress, DrawRegister, Frame(d.buffer, r.value.driver.offset, d.rotate))]
              && r.value.driver.errorCount == Record(d.errorCount, busOk).0
              && (r.value.notice <==> Record(d.errorCount, busOk).1)
  {
    var moved := d.offset + delta;
    if |d.buffer| == 0 then Failure(Raised(ZeroDivisionError, d.(offset := moved)))
    else Success(Update(d.(offset := Reduce(moved, |d.buffer|)), busOk))
  }

  /** scroll_to: set the offset to pos, reduced modulo the buffer length, then push. */
  function ScrollTo(d: Driver, pos: int, busOk: bool): (r: Result<Step, Raised>)
    ensures r.Failure? <==> |d.buffer| == 0
    ensures r.Failure? ==> r.error == Raised(ZeroDivisionError, d.(offset := pos))
    ensures r.Success? ==>
              var after := r.value.driver;
              && 0 <= after.offset < |d.buffer|
              && (after.offset - pos) % |d.buffer| == 0
              && after.buffer == d.buffer && after.rotate == d.rotate && after.font == d.font
              && |r.value.writes| == 1
              && (Valid(d) ==> Valid(after))
    ensures r.Success? ==>
              && r.value.writes == [BusWrite(I2CAddress, DrawRegister, Frame(d.buffer, r.value.driver.offset, d.rotate))]
              && r.value.driver.errorCount == Record(d.errorCount, busOk).0
              && (r.value.notice <==> Record(d.errorCount, busOk).1)
  {
    if |d.buffer| == 0 then Failure(Raised(ZeroDivisionError, d.(offset := pos)))
    else Success(Update(d.(offset := Reduce(pos, |d.buffer|)), busOk))
  }

  /** The offset and buffer after one successful scroll, for a buffer of length n and a moved offset target. */
  lemma ScrollLands(d: Driver, delta: int, busOk: bool, n: nat, target: int)
    requires n == |d.buffer| && n > 0 && target == d.offset + delta
    ensures var after := Scroll(d, delta, busOk).value.driver;
            after.buffer == d.buffer && after.offset == Reduce(target, n)
  {
  }

  /** The offset and buffer after one successful scroll by -delta, for a buffer of length n. */
  lemma ScrollBackLands(d: Driver, delta: int, busOk: bool, n: nat, target: int)
    requires n == |d.buffer| && n > 0 && target == d.offset - delta
    ensures var after := Scroll(d, -delta, busOk).value.driver;
            after.buffer == d.buffer && after.offset == Reduce(target, n)
  {
  }

  /** Reducing after a move by delta and again after a move back gives x's own representative. */
  lemma ReduceRoundTrip(x: int, delta: int, n: nat, moved: int, there: int, target: int)
    requires n > 0 && moved == x + delta && there == Reduce(moved, n) && target == there - delta
    ensures Reduce(target, n) == Reduce(x, n)
  {
    ResidueRoundTrip(x, delta, n, there, Reduce(target, n));
  }

  /**
   scroll(delta) then scroll(-delta) puts the offset back where it was, reduced
   modulo the buffer length.
   */
  lemma ScrollBack(d: Driver, delta: int, ok1: bool, ok2: bool)
    requires |d.buffer| > 0
    ensures var there := Scroll(d, delta, ok1).value.driver;
            var back := Scroll(there, -delta, ok2).value.driver;
            back.offset == d.offset % |d.buffer| && back.buffer == d.buffer
  {
    var moved := d.offset + delta;
    var there := Scroll(d, delta, ok1).value.driver;
    ScrollLands(d, delta, ok1, |d.buffer|, moved);
    var target := there.offset - delta;
    ScrollBackLands(there, delta, ok2, |d.buffer|, target);
    ReduceRoundTrip(d.offset, delta, |d.buffer|, moved, there.offset, target);
  }

  /** From an offset inside the buffer, scroll(delta) then scroll(-delta) comes back exactly. */
  lemma ScrollBackInRange(d: Driver, delta: int, ok1: bool, ok2: bool)
    requires 0 <= d.offset < |d.buffer|
    ensures Scroll(Scroll(d, delta, ok1).value.driver, -delta, ok2).value.driver.offset == d.offset
  {
    ScrollBack(d, delta, ok1, ok2);
    ModSmall(d.offset, |d.buffer|);
  }

  /** A successful scroll is the push of the state with the reduced offset. */
  lemma ScrollIs(d: Driver, delta: int, busOk: bool, n: nat)
    requires n == |d.buffer| && n > 0
    ensures Scroll(d, delta, busOk) == Success(Update(d.(offset := Reduce(d.offset + delta, n)), busOk))
  {
  }

  /** A successful scroll_to is the push of the state with the reduced position. */
  lemma ScrollToIs(d: Driver, pos: int, busOk: bool, n: nat)
    requires n == |d.buffer| && n > 0
    ensures ScrollTo(d, pos, busOk) == Success(Update(d.(offset := Reduce(pos, n)), busOk))
  {
  }

  /** scroll_to(offset + delta) lands where scroll(delta) does. */
  lemma ScrollToAgreesWithScroll(d: Driver, delta: int, busOk: bool)
    ensures ScrollTo(d, d.offset + delta, busOk) == Scroll(d, delta, busOk)
  {
    if |d.buffer| > 0 {
      ScrollIs(d, delta, busOk, |d.buffer|);
      ScrollToIs(d, d.offset + delta, busOk, |d.buffer|);
    }
  }

  /**
   What buffer_len reports across the operations that touch the buffer:
   set_col grows it to cover x, set_pixel and a scroll keep it, and clear
   makes it eleven.
   */
  lemma BufferLenAcrossOperations(d: Driver, x: nat, y: nat, value: Column, on: bool, delta: int, busOk: bool)
    ensures BufferLen(SetCol(d, x, value)) == MaxInt(BufferLen(d), x + 1)
    ensures SetPixel(d, x, y, on).Success? ==> BufferLen(SetPixel(d, x, y, on).value) == BufferLen(d)
    ensures Scroll(d, delta, busOk).Success? ==> BufferLen(Scroll(d, delta, busOk).value.driver) == BufferLen(d)
    ensures BufferLen(Clear(d, busOk).driver) == Width
  {
  }

  /** clear: eleven blank columns at offset 0, then a push of an all-dark frame. */
  function Clear(d: Driver, busOk: bool): (s: Step)
    ensures s.driver.buffer == Zeros(Width) && s.driver.offset == 0
    ensures s.driver.rotate == d.rotate && s.driver.font == d.font
    ensures Valid(s.driver)
    ensures |s.writes| == 1 && s.writes[0].payload == Zeros(Width) + [Terminator]
    ensures s.writes[0].addr == I2CAddress && s.writes[0].register == DrawRegister
    ensures (s.driver.errorCount, s.notice) == Record(d.errorCount, busOk)
  {
    var blank := d.(offset := 0, buffer := Zeros(Width));
    var s := Update(blank, busOk);
    FrameLayout(blank.buffer, 0, blank.rotate);
    assert Rotate5(0) == 0;
    assert s.writes[0].payload == Zeros(Width) + [Terminator];
    s
  }

  /** write_string: lay the text out from column x0, then push once. */
  method WriteString(d: Driver, text: string, x0: nat, busOk: bool) returns (s: Step)
    ensures s.driver.buffer == WriteColumns(d.buffer, x0, Layout(d.font, text))
    ensures text == [] ==> s.driver.buffer == d.buffer
    ensures forall i :: 0 <= i < |d.buffer| && i < x0 ==> s.driver.buffer[i] == d.buffer[i]
    ensures forall k :: 0 <= k < |Layout(d.font, text)| ==>
              x0 + k < |s.driver.buffer| && s.driver.buffer[x0 + k] == Layout(d.font, text)[k]
    ensures s.driver.offset == d.offset && s.driver.rotate == d.rotate && s.driver.font == d.font
    ensures |s.writes| == 1 && s.writes[0].register == DrawRegister
    ensures Valid(d) ==> Valid(s.driver)
    ensures s == Update(d.(buffer := s.driver.buffer), busOk)
    ensures (s.driver.errorCount, s.notice) == Record(d.errorCount, busOk)
  {
    var cols, _ := FontRenderer.WriteString(d.buffer, d.font, text, x0);
    WriteColumnsSpec(d.buffer, x0, Layout(d.font, text));
    s := Update(d.(buffer := cols), busOk);
  }

  /** graph: draw one bar per sample in columns 0 .., then push once; a raise happens before any write. */
  method Graph(d: Driver, values: seq<real>, low: Option<real>, high: Option<real>, busOk: bool)
    returns (r: Result<Step, Raised>)
    ensures r.Failure? ==> r.error.driver == d
    ensures r.Failure? ==> r.error.fault == if Bounds(values, low, high).Failure? then ValueError else ZeroDivisionError
    ensures r.Failure? <==>
              Bounds(values, low, high).Failure?
              || (|values| > 0 && Bounds(values, low, high).value.0 == Bounds(values, low, high).value.1)
    ensures r.Success? ==>
              && |r.value.writes| == 1
              && |r.value.driver.buffer| == MaxInt(|d.buffer|, |values|)
              && (forall i :: |values| <= i < |d.buffer| ==> r.value.driver.buffer[i] == d.buffer[i])
              && r.value.driver.offset == d.offset
              && (Valid(d) ==> Valid(r.value.driver))
    ensures r.Success? ==> r.value == Update(d.(buffer := r.value.driver.buffer), busOk)
    ensures r.Success? ==> (r.value.driver.errorCount, r.value.notice) == Record(d.errorCount, busOk)
    ensures r.Success? && |values| > 0 ==>
              var (lo, hi) := Bounds(values, low, high).value;
              hi != lo && forall i :: 0 <= i < |values| ==>
                r.value.driver.buffer[i] == Tier(Level(values[i], lo, hi))
  {
    var cols := GraphRenderer.Graph(d.buffer, values, low, high);
    match cols
    case Failure(e) =>
      r := Failure(Raised(e, d));
    case Success(b) =>
      r := Success(Update(d.(buffer := b), busOk));
  }
}
