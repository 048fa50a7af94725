/** The pure screen-position helpers of the editor in
    src/app/util/text-writer.ts: where a text offset appears on the
    terminal, in wrapped and unwrapped mode, and which positions are on
    screen. Only the last screen row is not text: it is the status line. */
module Screen {
  import opened Strings
  import opened CursorEngine
  import opened Editing

  /** isPositionVisible: a position inside the screen, above the status
      line. The status line itself is never a text position, and nothing is
      visible unless the screen has a column and a row above that line. */
  function IsPositionVisible(p: Vec2, size: Vec2): (visible: bool)
    ensures visible ==> p.y != size.y - 1
    ensures visible ==> size.x >= 1 && size.y >= 2
  {
    0 <= p.y < size.y - 1 && 0 <= p.x < size.x
  }

  /** The horizontal scroll after the own cursor at column `x` is shown in
      a window `width` columns wide: scroll right until it is in the last
      column, or left until it is in the first. */
  function ScrolledTo(x: int, scroll: int, width: int): (r: int)
    ensures width >= 1 ==> 0 <= x - r < width
  {
    if x - scroll >= width then x - width + 1
    else if x < scroll then x
    else scroll
  }

  /** JavaScript's `%` on integers: the remainder has the sign of the
      dividend. */
  function JsRemainder(a: int, b: int): (r: int)
    requires b >= 1
    ensures -b < r < b
    ensures a >= 0 ==> r == a % b
    ensures a < 0 ==> r <= 0 && -r == (-a) % b
  {
    if a >= 0 then a % b else -((-a) % b)
  }

  /** `lines.splice(start, count)` as a value: the run it removes. A
      negative start counts from the end; both bounds are clamped. */
  function SpliceRemoved(lines: seq<string>, start: int, count: int): (r: seq<string>)
    ensures 0 <= start && 0 <= count && start + count <= |lines| ==> r == lines[start..start + count]
    ensures forall l :: l in r ==> l in lines
    ensures count <= 0 ==> r == []
  {
    var a := SliceBound(|lines|, start);
    var k := if count < 0 then 0 else if count > |lines| - a then |lines| - a else count;
    lines[a..a + k]
  }

  /** The screen rows that wrapping adds to these lines at this width: the
      sum of `floor(length / width)` that previousLineCumulative reduces. */
  function ExtraRows(lines: seq<string>, width: int): (rows: nat)
    requires width >= 1
    ensures rows * width <= TotalLength(lines)
  {
    if lines == [] then 0
    else
      var rest, last := ExtraRows(lines[..|lines| - 1], width), |lines[|lines| - 1]|;
      assert (last / width) * width <= last;
      assert (rest + last / width) * width == rest * width + (last / width) * width;
      rest + last / width
  }

  /** The characters of the lines together. */
  function TotalLength(lines: seq<string>): nat {
    if lines == [] then 0 else TotalLength(lines[..|lines| - 1]) + |lines[|lines| - 1]|
  }

  /** The extra rows of two runs of lines add up. */
  lemma {:induction false} ExtraRowsConcat(a: seq<string>, b: seq<string>, width: int)
    requires width >= 1
    ensures ExtraRows(a + b, width) == ExtraRows(a, width) + ExtraRows(b, width)
    decreases |b|
  {
    if b == [] {
      assert a + b == a;
    } else {
      assert (a + b)[..|a + b| - 1] == a + b[..|b| - 1];
      ExtraRowsConcat(a, b[..|b| - 1], width);
    }
  }

  /** Lines shorter than the screen is wide add no rows. */
  lemma {:induction false} ShortLinesAddNoRows(lines: seq<string>, width: int)
    requires width >= 1
    requires forall l :: l in lines ==> |l| < width
    ensures ExtraRows(lines, width) == 0
    decreases |lines|
  {
    if lines != [] {
      var init, last := lines[..|lines| - 1], lines[|lines| - 1];
      assert last in lines;
      SmallDivision(|last|, width);
      forall l | l in init
        ensures |l| < width
      {
        var k :| 0 <= k < |init| && init[k] == l;
        assert lines[k] == l;
      }
      ShortLinesAddNoRows(init, width);
    }
  }

  /** A line of at least `width` characters adds at least one row. */
  lemma {:induction false} LongLineAddsRows(lines: seq<string>, width: int, i: nat)
    requires width >= 1 && i < |lines| && |lines[i]| >= width
    ensures ExtraRows(lines, width) >= 1
    decreases |lines|
  {
    if i < |lines| - 1 {
      LongLineAddsRows(lines[..|lines| - 1], width, i);
    } else {
      WideDivision(|lines[i]|, width);
    }
  }

  /** A number at least as large as the divisor divides at least once. */
  lemma WideDivision(a: int, b: int)
    requires 1 <= b <= a
    ensures a / b >= 1
  {
  }

  /** previousLineCumulative: the rows wrapping adds to the shown lines
      above line `fromY`. There are none when the text is not wrapped, and
      none above the first shown line or any line before it. */
  function PreviousLineCumulative(st: EditorState, fromY: int): (rows: nat)
    requires st.terminalSize.x >= 1
    ensures !st.isWrapped ==> rows == 0
    ensures fromY <= st.skippedRenderingLines ==> rows == 0
  {
    if !st.isWrapped then 0
    else
      var shown := SpliceRemoved(Split(st.text), st.skippedRenderingLines, fromY - st.skippedRenderingLines);
      ExtraRows(shown, st.terminalSize.x)
  }

  /** When no line is as long as the screen is wide, wrapping adds no rows. */
  lemma NoWrappedRows(st: EditorState, fromY: int)
    requires st.terminalSize.x >= 1
    requires forall l :: l in Split(st.text) ==> |l| < st.terminalSize.x
    ensures PreviousLineCumulative(st, fromY) == 0
  {
    if st.isWrapped {
      var shown := SpliceRemoved(Split(st.text), st.skippedRenderingLines, fromY - st.skippedRenderingLines);
      ShortLinesAddNoRows(shown, st.terminalSize.x);
    }
  }

  /** Where an offset is drawn, and the horizontal scroll after drawing it. */
  datatype Placement = Placement(pos: Vec2, horizontalScroll: int)

  /** getActualXYFromIndex. Wrapped: the column modulo the width, and the
      row moved down by the rows the column and the shown lines above wrap
      into. Unwrapped: the own cursor first scrolls the window to show its
      column; every position is then shifted by the scroll. */
  function ActualXY(st: EditorState, index: int): (r: Placement)
    requires st.terminalSize.x >= 1
    ensures st.isWrapped || index != st.cursor ==> r.horizontalScroll == st.horizontalScroll
    ensures !st.isWrapped && index == st.cursor ==> 0 <= r.pos.x < st.terminalSize.x
    ensures st.isWrapped && index >= 0 ==> 0 <= r.pos.x < st.terminalSize.x
  {
    var p := PositionOf(st.text, index);
    var w := st.terminalSize.x;
    if st.isWrapped then
      var y := p.y + p.x / w + PreviousLineCumulative(st, p.y) - st.skippedRenderingLines;
      Placement(Vec2(JsRemainder(p.x, w), y), st.horizontalScroll)
    else
      var hs := if index == st.cursor then ScrolledTo(p.x, st.horizontalScroll, w) else st.horizontalScroll;
      Placement(Vec2(p.x - hs, p.y - st.skippedRenderingLines), hs)
  }

  /** Unwrapped, with the own cursor's column already in the window, the
      window does not move. */
  lemma ScrollStaysWhenShown(st: EditorState)
    requires st.terminalSize.x >= 1 && !st.isWrapped
    requires 0 <= PositionOf(st.text, st.cursor).x - st.horizontalScroll < st.terminalSize.x
    ensures ActualXY(st, st.cursor).horizontalScroll == st.horizontalScroll
  {
  }

  /** When no line is as long as the screen is wide, wrapped mode draws an
      offset where unwrapped mode without horizontal scroll does. */
  lemma WrappedMatchesUnwrapped(st: EditorState, index: int)
    requires st.terminalSize.x >= 1 && st.isWrapped && 0 <= index <= |st.text|
    requires forall l :: l in Split(st.text) ==> |l| < st.terminalSize.x
    ensures var p := PositionOf(st.text, index);
            ActualXY(st, index).pos == Vec2(p.x, p.y - st.skippedRenderingLines)
  {
    var p := PositionOf(st.text, index);
    PositionDecompose(st.text, index);
    assert Split(st.text)[p.y] in Split(st.text);
    NoWrappedRows(st, p.y);
    var w := st.terminalSize.x;
    assert p.x / w == 0 && p.x % w == p.x by {
      SmallDivision(p.x, w);
    }
  }

  /** A non-negative number below the divisor is its own remainder. */
  lemma SmallDivision(a: int, b: int)
    requires 0 <= a < b
    ensures a / b == 0 && a % b == a
  {
  }

  /** Unwrapped, after checkCursorValid on a screen at least two rows high,
      the own cursor is drawn on screen. */
  lemma OwnCursorVisible(st: EditorState)
    requires st.terminalSize.x >= 1 && st.terminalSize.y >= 2 && !st.isWrapped
    ensures var v := CursorValidated(st);
            IsPositionVisible(ActualXY(v, v.cursor).pos, v.terminalSize)
  {
    var v := CursorValidated(st);
    assert Prefix(st.text, st.cursor) == Prefix(v.text, v.cursor);
  }
}
