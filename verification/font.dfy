/**
 The text renderer (library/scrollphat/IS31FL3730.py, write_string): glyphs
 of varying width laid out left to right, each followed by a one-column gap;
 a space or a character the font lacks is a three-column blank.
 */
module FontRenderer {
  import opened FrameBuffer

  /** Character code to glyph columns. */
  type Font = map<int, seq<Column>>

  const SpaceCode: int := 0x20

  /** True iff the character is drawn as the three-column blank. */
  predicate IsBlank(font: Font, c: char)
  {
    c as int == SpaceCode || c as int !in font
  }

  /** The columns one character contributes to the layout. */
  function GlyphColumns(font: Font, c: char): seq<Column>
  {
    if IsBlank(font, c) then [0, 0, 0] else font[c as int] + [0]
  }

  /** The columns a whole string contributes, character by character. */
  function Layout(font: Font, text: string): seq<Column>
  {
    if text == [] then [] else Layout(font, text[..|text| - 1]) + GlyphColumns(font, text[|text| - 1])
  }

  /** Total width of a string's layout. */
  function TextWidth(font: Font, text: string): nat
  {
    if text == [] then 0
    else
      var c := text[|text| - 1];
      TextWidth(font, text[..|text| - 1]) + (if IsBlank(font, c) then 3 else |font[c as int]| + 1)
  }

  /** Adding one character at the end adds that character's columns at the end. */
  lemma LayoutSnoc(font: Font, s: string, c: char)
    ensures Layout(font, s + [c]) == Layout(font, s) + GlyphColumns(font, c)
  {
    assert (s + [c])[..|s|] == s;
  }

  /** The layout of a concatenation is the concatenation of the layouts. */
  lemma {:induction false} LayoutAppend(font: Font, s: string, t: string)
    ensures Layout(font, s + t) == Layout(font, s) + Layout(font, t)
    decreases |t|
  {
    if t == [] {
      assert s + t == s;
    } else {
      var t0, c := t[..|t| - 1], t[|t| - 1];
      assert t == t0 + [c];
      LayoutAppend(font, s, t0);
      LayoutAppendStep(font, s, t0, c);
    }
  }

  lemma LayoutAppendStep(font: Font, s: string, t0: string, c: char)
    requires Layout(font, s + t0) == Layout(font, s) + Layout(font, t0)
    ensures Layout(font, s + (t0 + [c])) == Layout(font, s) + Layout(font, t0 + [c])
  {
    var u := s + t0;
    assert s + (t0 + [c]) == u + [c];
    LayoutSnoc(font, u, c);
    LayoutSnoc(font, t0, c);
    SeqAssoc(Layout(font, s), Layout(font, t0), GlyphColumns(font, c));
  }

  lemma SeqAssoc<T>(a: seq<T>, b: seq<T>, c: seq<T>)
    ensures a + b + c == a + (b + c)
  {
  }

  /**
   The cursor advance: a blank moves it by three, a glyph by its width plus
   the one-column gap.
   */
  lemma {:induction false} LayoutWidth(font: Font, text: string)
    ensures |Layout(font, text)| == TextWidth(font, text)
    decreases |text|
  {
    if text != [] {
      LayoutWidth(font, text[..|text| - 1]);
    }
  }

  /** A single character: three zero columns if blank, else its glyph then a zero column. */
  lemma LayoutOfChar(font: Font, c: char)
    ensures IsBlank(font, c) ==> Layout(font, [c]) == [0, 0, 0]
    ensures !IsBlank(font, c) ==> Layout(font, [c]) == font[c as int] + [0]
  {
    assert [c][..0] == [];
  }

  /** Appending one column to a run of set_col calls is one more set_col. */
  lemma WriteColumnsSnoc(buffer: seq<Column>, x: nat, cols: seq<Column>, c: Column)
    ensures WriteColumns(buffer, x, cols + [c]) == SetCol(WriteColumns(buffer, x, cols), x + |cols|, c)
  {
    assert (cols + [c])[..|cols|] == cols;
  }

  /** The three set_col calls for a blank write the three zero columns of its layout. */
  method WriteBlank(r: seq<Column>, cursor: nat,
                    ghost buffer: seq<Column>, ghost x0: nat, ghost done: seq<Column>)
    returns (r': seq<Column>, cursor': nat)
    requires r == WriteColumns(buffer, x0, done)
    requires cursor == x0 + |done|
    ensures r' == WriteColumns(buffer, x0, done + [0, 0, 0])
    ensures cursor' == cursor + 3
  {
    WriteColumnsSnoc(buffer, x0, done, 0);
    WriteColumnsSnoc(buffer, x0, done + [0], 0);
    WriteColumnsSnoc(buffer, x0, done + [0] + [0], 0);
    assert done + [0] + [0] + [0] == done + [0, 0, 0];
    r' := SetCol(r, cursor, 0);
    cursor' := cursor + 1;
    r' := SetCol(r', cursor', 0);
    cursor' := cursor' + 1;
    r' := SetCol(r', cursor', 0);
    cursor' := cursor' + 1;
  }

  /** One more glyph column is one more set_col. */
  lemma GlyphColumnStep(buffer: seq<Column>, x0: nat, done: seq<Column>, glyph: seq<Column>, j: nat)
    requires j < |glyph|
    ensures WriteColumns(buffer, x0, done + glyph[..j + 1])
            == SetCol(WriteColumns(buffer, x0, done + glyph[..j]), x0 + |done| + j, glyph[j])
  {
    assert done + glyph[..j + 1] == done + glyph[..j] + [glyph[j]];
    WriteColumnsSnoc(buffer, x0, done + glyph[..j], glyph[j]);
  }

  /** After the whole glyph, the gap column completes its layout. */
  lemma GlyphGapStep(buffer: seq<Column>, x0: nat, done: seq<Column>, glyph: seq<Column>)
    ensures WriteColumns(buffer, x0, done + (glyph + [0]))
            == SetCol(WriteColumns(buffer, x0, done + glyph[..|glyph|]), x0 + |done| + |glyph|, 0)
  {
    assert glyph[..|glyph|] == glyph;
    assert done + (glyph + [0]) == done + glyph + [0];
    WriteColumnsSnoc(buffer, x0, done + glyph, 0);
  }

  /** The inner loop of write_string: one glyph's columns, then the one-column gap. */
  method WriteGlyph(r: seq<Column>, cursor: nat, glyph: seq<Column>,
                    ghost buffer: seq<Column>, ghost x0: nat, ghost done: seq<Column>)
    returns (r': seq<Column>, cursor': nat)
    requires r == WriteColumns(buffer, x0, done)
    requires cursor == x0 + |done|
    ensures r' == WriteColumns(buffer, x0, done + (glyph + [0]))
    ensures cursor' == cursor + |glyph| + 1
  {
    r', cursor' := r, cursor;
    assert done + glyph[..0] == done;
    for j := 0 to |glyph|
      invariant r' == WriteColumns(buffer, x0, done + glyph[..j])
      invariant cursor' == cursor + j
    {
      GlyphColumnStep(buffer, x0, done, glyph, j);
      r' := SetCol(r', cursor', glyph[j]);
      cursor' := cursor' + 1;
    }
    GlyphGapStep(buffer, x0, done, glyph);
    r' := SetCol(r', cursor', 0);
    cursor' := cursor' + 1;
  }

  /** One more character of text is its columns appended to the layout so far. */
  lemma TextStep(font: Font, text: string, n: nat)
    requires n < |text|
    ensures Layout(font, text[..n + 1]) == Layout(font, text[..n]) + GlyphColumns(font, text[n])
  {
    assert text[..n + 1] == text[..n] + [text[n]];
    LayoutSnoc(font, text[..n], text[n]);
  }

  /** The character loop of write_string: the set_col calls for each character in turn. */
  method WriteChars(buffer: seq<Column>, font: Font, text: string, x0: nat)
    returns (r: seq<Column>, cursor: nat)
    ensures r == WriteColumns(buffer, x0, Layout(font, text))
    ensures cursor == x0 + |Layout(font, text)|
  {
    r, cursor := buffer, x0;
    for n := 0 to |text|
      invariant r == WriteColumns(buffer, x0, Layout(font, text[..n]))
      invariant cursor == x0 + |Layout(font, text[..n])|
    {
      var c := text[n];
      ghost var done := Layout(font, text[..n]);
      TextStep(font, text, n);
      if c as int == SpaceCode || c as int !in font {
        r, cursor := WriteBlank(r, cursor, buffer, x0, done);
      } else {
        r, cursor := WriteGlyph(r, cursor, font[c as int], buffer, x0, done);
      }
    }
    assert text[..|text|] == text;
  }

  /**
   write_string without its final update: returns the buffer after the
   set_col calls and the cursor after the last column written.
   */
  method WriteString(buffer: seq<Column>, font: Font, text: string, x0: nat)
    returns (r: seq<Column>, cursor: nat)
    ensures r == WriteColumns(buffer, x0, Layout(font, text))
    ensures cursor == x0 + TextWidth(font, text)
    ensures text == [] ==> r == buffer
    ensures forall i :: 0 <= i < |buffer| && i < x0 ==> r[i] == buffer[i]
    ensures forall k :: 0 <= k < |Layout(font, text)| ==>
              x0 + k < |r| && r[x0 + k] == Layout(font, text)[k]
  {
    r, cursor := WriteChars(buffer, font, text, x0);
    LayoutWidth(font, text);
    WriteColumnsSpec(buffer, x0, Layout(font, text));
  }
}
