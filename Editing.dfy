/** The editor of src/app/util/text-writer.ts as a state machine on values:
    the state of one `TextEditor` (less its foreign cursors and renderer
    caches) and, for every operation of the class, the state it leaves
    behind. The class in TextWriter.dfy runs the operations in place and is
    proved to agree with these functions. */
module Editing {
  import opened Strings
  import opened CursorEngine
  import opened Keys

  datatype Mode = Normal | Insert | Replace | Visual | VisualLine | Delete | Scroll | Nav

  /** The fields of a `TextEditor` that the key handlers read and write. */
  datatype EditorState = EditorState(
    text: string,
    cursor: int,
    mode: Mode,
    copyBuffer: string,
    rememberedColumn: int,
    skippedRenderingLines: int,
    horizontalScroll: int,
    isWrapped: bool,
    terminalSize: Vec2)

  /** A new editor: cursor at 0, normal mode, empty register, nothing
      scrolled, not wrapped. It is valid whatever the character classes. */
  function InitialState(text: string, terminalSize: Vec2): (st: EditorState)
    ensures st.text == text && st.cursor == 0 && st.mode == Normal && st.terminalSize == terminalSize
    ensures forall cls :: Valid(st, cls)
  {
    EditorState(text, 0, Normal, "", -1, 0, 0, false, terminalSize)
  }

  // ---------------------------------------------------------------------
  // Text edits
  // ---------------------------------------------------------------------

  /** `text.slice(0, at) + s + text.slice(at)`. */
  function InsertText(text: string, at: int, s: string): (r: string)
    ensures |r| == |text| + |s|
    ensures 0 <= at <= |text| ==> r[..at] == text[..at] && r[at..at + |s|] == s && r[at + |s|..] == text[at..]
  {
    var b := SliceBound(|text|, at);
    assert Slice(text, 0, at) == text[..b];
    Slice(text, 0, at) + s + SliceFrom(text, at)
  }

  /** `text.slice(0, at) + text.slice(at + 1)`: the character at `at` is
      removed; past the end nothing is. A negative `at` counts from the end,
      as `slice` does. */
  function DeleteOffset(text: string, at: int): (r: string)
    ensures 0 <= at < |text| ==> |r| == |text| - 1 && r[..at] == text[..at] && r[at..] == text[at + 1..]
    ensures at >= |text| ==> r == text
  {
    Slice(text, 0, at) + SliceFrom(text, at + 1)
  }

  /** `text.split("").toSpliced(start, count).join("")`. */
  function Spliced(text: string, start: int, count: int): (r: string)
    ensures 0 <= start && 0 <= count && start + count <= |text| ==>
              r == text[..start] + text[start + count..]
  {
    var a := SliceBound(|text|, start);
    var k := if count < 0 then 0 else if count > |text| - a then |text| - a else count;
    text[..a] + text[a + k..]
  }

  /** `txt[at] = key` on the character array, then `join("")`: an index past
      the end leaves holes that join as "", so the key is appended; a negative
      index names a property, not an element, and changes nothing. */
  function ReplaceChar(text: string, at: int, key: string): (r: string)
    ensures 0 <= at < |text| && |key| == 1 ==> r == text[at := key[0]]
    ensures at >= |text| ==> r == text + key
  {
    if at < 0 then text
    else if at < |text| then text[..at] + key + text[at + 1..]
    else text + key
  }

  /** `text.split("\n").toSpliced(y, 1).join("\n")`. */
  function RemoveLine(text: string, y: nat): (r: string)
    requires y < LineCount(text)
    ensures LineCount(text) == 1 ==> r == []
    ensures LineCount(text) >= 2 ==> |r| == |text| - |Split(text)[y]| - 1
  {
    var S := Split(text);
    JoinSplit(text);
    JoinWithout(S, y);
    Join(S[..y] + S[y + 1..])
  }

  /** `lines.splice(at, 0, line)` on `text.split("\n")`, then `join("\n")`. */
  function InsertLine(text: string, at: nat, line: string): (r: string)
    requires at <= LineCount(text)
    ensures |r| == |text| + |line| + 1
  {
    var S := Split(text);
    JoinSplit(text);
    JoinWith(S, at, line);
    Join(S[..at] + [line] + S[at..])
  }

  // ---------------------------------------------------------------------
  // Cursor operations
  // ---------------------------------------------------------------------

  /** adjustCursorPosition: forget the remembered column, move, clamp into
      the text. */
  function CursorAdjusted(st: EditorState, delta: int): (r: EditorState)
    ensures 0 <= r.cursor <= |r.text|
    ensures r.rememberedColumn == -1
    ensures r.text == st.text && r.mode == st.mode && r.copyBuffer == st.copyBuffer
    ensures 0 <= st.cursor + delta <= |st.text| ==> r.cursor == st.cursor + delta
  {
    var c := st.cursor + delta;
    var c1 := if c < 0 then 0 else c;
    var c2 := if c1 > |st.text| then |st.text| else c1;
    st.(rememberedColumn := -1, cursor := c2)
  }

  /** adjustCursorLine: move `offset` lines up or down, keeping the column
      when the target line is long enough. Moving onto a shorter line
      remembers the column and lands at the line's end; a later move onto a
      line longer than the remembered column goes back to it. */
  function LineAdjusted(st: EditorState, offset: int): (r: EditorState)
    ensures r.text == st.text && r.mode == st.mode && r.copyBuffer == st.copyBuffer
    ensures r == st || 0 <= r.cursor <= |r.text|
    ensures st.rememberedColumn >= -1 ==> r.rememberedColumn >= -1
  {
    if offset == 0 then st
    else
      var p := PositionOf(st.text, st.cursor);
      var t := p.y + offset;
      if t < 0 || t >= LineCount(st.text) then st
      else LandedOnLine(st, t, p.x)
  }

  /** The landing of a vertical move on row `t`, coming from column `x`:
      the row's start plus the column `Landing` picks; the source's final
      clamp to the text never fires. */
  function LandedOnLine(st: EditorState, t: nat, x: int): (r: EditorState)
    requires t < LineCount(st.text)
    ensures r == st.(cursor := r.cursor, rememberedColumn := r.rememberedColumn)
    ensures var land := Landing(|Split(st.text)[t]|, x, st.rememberedColumn);
            r.cursor == LineStart(st.text, t) + land.column <= |r.text|
            && r.rememberedColumn == land.remembered
  {
    var land := Landing(|Split(st.text)[t]|, x, st.rememberedColumn);
    var x4 := if t == 0 then land.column - 1 else land.column;
    var c := JoinedLength(st.text, t) + 1 + x4;
    PositionAt(st.text, t, land.column);
    assert t == 0 ==> JoinedLength(st.text, t) == 0 by {
      if t == 0 { assert Split(st.text)[..0] == []; }
    }
    st.(cursor := if c > |st.text| then |st.text| - 1 else c, rememberedColumn := land.remembered)
  }

  /** Where a vertical move lands on a row of length `len`: the column, and
      the remembered column afterwards. */
  datatype Land = Land(column: nat, remembered: int)

  /** The column rules of adjustCursorLine, coming from column `x` with
      remembered column `rc`: the landing column never passes the row's end,
      and the remembered column stays a column or -1. */
  function Landing(len: nat, x: int, rc: int): (r: Land)
    ensures r.column <= len
    ensures rc >= -1 ==> r.remembered >= -1
  {
    var rc1 := if len < x && rc == -1 then x else rc;
    var x1 := if len < x then len - 1 else x;
    var x2 := if rc1 > len then len else if rc1 != -1 && len > rc1 then rc1 else x1;
    var rc2 := if rc1 > len then rc1 else if rc1 != -1 && len > rc1 then -1 else rc1;
    Land(if x2 < 0 then 0 else x2, rc2)
  }

  /** checkCursorValid's scrolling rule: scroll up to the cursor's line, or
      down so that it sits on the last text row (the screen's last row is
      the status line), never above the first line. */
  function ScrollWindow(y: int, skipped: int, height: int): (s: int)
    ensures s >= 0
    ensures height >= 2 && y >= 0 ==> s <= y <= s + height - 2
  {
    var s1 := if y < skipped then y else skipped;
    var s2 := if y >= s1 + height - 2 then y - height + 2 else s1;
    if s2 < 0 then 0 else s2
  }

  /** checkCursorValid. The source's clamp of `skippedRenderingLines` against
      the line count is an expression statement with no effect, so it is not
      here. */
  function CursorValidated(st: EditorState): (r: EditorState)
    ensures 0 <= r.cursor <= |r.text| && r.skippedRenderingLines >= 0
    ensures r.text == st.text && r.mode == st.mode && r.copyBuffer == st.copyBuffer
    ensures r.rememberedColumn == st.rememberedColumn
  {
    var y := PositionOf(st.text, st.cursor).y;
    var s := ScrollWindow(y, st.skippedRenderingLines, st.terminalSize.y);
    var c1 := if st.cursor > |st.text| then |st.text| else st.cursor;
    var c2 := if c1 < 0 then 0 else c1;
    st.(skippedRenderingLines := s, cursor := c2)
  }

  /** jumpToLine: for `line` past the last line nothing happens; otherwise
      the cursor goes to the length of the first `line` lines joined, which
      for `line > 0` is the '\n' ending line `line - 1`; then checkCursorValid. */
  function JumpedToLine(st: EditorState, line: int): (r: EditorState)
    ensures r.text == st.text && r.mode == st.mode && r.copyBuffer == st.copyBuffer
    ensures r.rememberedColumn == st.rememberedColumn
    ensures st.cursor >= 0 ==> r.cursor >= 0
  {
    if line >= LineCount(st.text) then st
    else
      var target := if line <= 0 then 0 else JoinedLength(st.text, line);
      CursorValidated(st.(cursor := target))
  }

  // ---------------------------------------------------------------------
  // Edit operations
  // ---------------------------------------------------------------------

  /** insert: the string goes in at the cursor, which moves past it. */
  function Inserted(st: EditorState, s: string): (r: EditorState)
    ensures |r.text| == |st.text| + |s| && 0 <= r.cursor <= |r.text|
    ensures r.mode == st.mode && r.copyBuffer == st.copyBuffer && r.rememberedColumn == -1
  {
    CursorAdjusted(st.(text := InsertText(st.text, st.cursor, s)), |s|)
  }

  /** deleteAt: remove the character at `cursor + position`, then move the
      cursor by `adjust`. */
  function DeletedAt(st: EditorState, position: int, adjust: int): (r: EditorState)
    ensures 0 <= r.cursor <= |r.text|
    ensures r.mode == st.mode && r.copyBuffer == st.copyBuffer && r.rememberedColumn == -1
  {
    CursorAdjusted(st.(text := DeleteOffset(st.text, st.cursor + position)), adjust)
  }

  /** The `isLastOnLine` test of deleteUnderCursor: inside the text, the
      cursor is at most one character from the end of its line; at or past
      the end of the text the test always holds. */
  function IsLastOnLine(text: string, c: int): (last: bool)
    ensures 0 <= c < |text| ==> (last <==> ForwardLineLength(text, c) <= 1)
    ensures c >= |text| ==> last
  {
    if 0 <= c < |text| then LineEndWithin(text, c); IsLastOnLineTest(text, c)
    else IsLastOnLineTest(text, c)
  }

  /** The three comparisons of `isLastOnLine`, as written. */
  predicate IsLastOnLineTest(text: string, c: int) {
    (0 <= c < |text| && text[c] == '\n') || c >= |text| - 1 || (0 <= c + 1 < |text| && text[c + 1] == '\n')
  }

  /** deleteUnderCursor: delete the character under the cursor, and step back
      when it was the last one of its line. */
  function DeletedUnderCursor(st: EditorState): (r: EditorState)
    ensures 0 <= r.cursor <= |r.text|
    ensures r.mode == st.mode && r.copyBuffer == st.copyBuffer && r.rememberedColumn == -1
  {
    DeletedAt(st, 0, if IsLastOnLine(st.text, st.cursor) then -1 else 0)
  }

  /** What a register may hold for paste to work line-wise: when it holds a
      line break, right-trimming it leaves none, so it pastes as one line. */
  predicate PastesAsOneLine(buffer: string, cls: Classifier) {
    '\n' in buffer ==> '\n' !in TrimEnd(buffer, cls)
  }

  /** What holds between any two steps of a key handler: the cursor is not
      negative, the remembered column is a column or -1 (none), and the
      register pastes line-wise as one line. */
  predicate Consistent(st: EditorState, cls: Classifier) {
    st.cursor >= 0 && st.rememberedColumn >= -1 && PastesAsOneLine(st.copyBuffer, cls)
  }

  /** What holds after every completed key: checkCursorValid has put the
      cursor into the text and the first shown line at or after line 0. */
  predicate Valid(st: EditorState, cls: Classifier) {
    Consistent(st, cls) && st.cursor <= |st.text| && st.skippedRenderingLines >= 0
  }

  /** deleteWord: cut the word run at the cursor into the register; the
      cursor stays. */
  function WordDeleted(st: EditorState, cls: Classifier): (r: EditorState)
    ensures cls('\n') == Whitespace && st.cursor >= 0 && PastesAsOneLine(st.copyBuffer, cls) ==>
              PastesAsOneLine(r.copyBuffer, cls)
  {
    var n := ForwardWordLength(st.text, st.cursor, cls);
    if n == 0 then st
    else
      var cut := Slice(st.text, st.cursor, st.cursor + n);
      WordRegister(st.text, st.cursor, cls);
      st.(copyBuffer := cut, text := Spliced(st.text, st.cursor, n))
  }

  /** deleteLine: the register gets the cursor's line trimmed, plus "\n";
      the line is removed; the cursor stays. */
  function LineDeleted(st: EditorState, cls: Classifier): (r: EditorState)
    ensures cls('\n') == Whitespace ==> PastesAsOneLine(r.copyBuffer, cls)
  {
    var S := Split(st.text);
    var y := PositionOf(st.text, st.cursor).y;
    var line := Trim(S[y], cls);
    TrimKeepsOut(S[y], cls, '\n');
    LineRegister(line, cls);
    st.(copyBuffer := line + "\n", text := RemoveLine(st.text, y))
  }

  /** What deleteLine leaves, field by field: the register gets the
      trimmed line and a "\n", the text loses the line, nothing else
      changes. */
  lemma LineDeletedFields(st: EditorState, cls: Classifier)
    ensures var y := PositionOf(st.text, st.cursor).y;
            LineDeleted(st, cls) ==
              st.(copyBuffer := Trim(Split(st.text)[y], cls) + "\n", text := RemoveLine(st.text, y))
  {
  }

  /** paste: nothing with an empty register; a register with a line break is
      right-trimmed and inserted as the line after the cursor's, then the
      cursor jumps there (landing on the '\n' before it); otherwise the
      register goes in after the cursor, which moves by its length. */
  function Pasted(st: EditorState, cls: Classifier): (r: EditorState)
    ensures r.mode == st.mode && r.copyBuffer == st.copyBuffer
    ensures r.rememberedColumn == st.rememberedColumn
    ensures st.cursor >= 0 ==> r.cursor >= 0
  {
    if st.copyBuffer == [] then st
    else if '\n' in st.copyBuffer then
      var y := PositionOf(st.text, st.cursor).y;
      JumpedToLine(st.(text := InsertLine(st.text, y + 1, TrimEnd(st.copyBuffer, cls))), y + 1)
    else
      st.(text := InsertText(st.text, st.cursor + 1, st.copyBuffer),
          cursor := st.cursor + |st.copyBuffer|)
  }

  /** toggleWrapping. */
  function WrappingToggled(st: EditorState): (r: EditorState)
    ensures r.isWrapped != st.isWrapped && r.horizontalScroll == 0
    ensures r == st.(isWrapped := r.isWrapped, horizontalScroll := 0)
  {
    st.(isWrapped := !st.isWrapped, horizontalScroll := 0)
  }

  /** setText: a different text moves the cursor by respondToTextMovement.
      Only the text and the cursor change, and a cursor inside the old text
      ends up inside the new one. */
  function TextReplaced(st: EditorState, newText: string): (r: EditorState)
    ensures r == st.(text := newText, cursor := r.cursor)
    ensures 0 <= st.cursor <= |st.text| ==> 0 <= r.cursor <= |newText|
  {
    if st.text != newText then st.(cursor := FollowCursor(st.text, newText, st.cursor), text := newText)
    else st
  }

  /** Length of the longest common prefix. */
  function CommonPrefixLength(a: string, b: string): (i: nat)
    ensures i <= |a| && i <= |b| && a[..i] == b[..i]
    ensures i < |a| && i < |b| ==> a[i] != b[i]
  {
    if a == [] || b == [] || a[0] != b[0] then 0
    else
      var i := 1 + CommonPrefixLength(a[1..], b[1..]);
      assert a[..i] == [a[0]] + a[1..][..i - 1];
      assert b[..i] == [b[0]] + b[1..][..i - 1];
      i
  }

  /** respondToTextMovement: an empty old or new text sends the cursor to 0;
      otherwise, when the texts first differ before the cursor, the cursor
      moves by the change in length, clamped into the new text. A cursor
      that is not negative always lands inside the new text. */
  function FollowCursor(oldText: string, newText: string, cursor: int): (r: int)
    ensures cursor >= 0 ==> 0 <= r <= |newText|
  {
    if oldText == [] || newText == [] then 0
    else
      var i := CommonPrefixLength(oldText, newText);
      if i < cursor then
        var moved := cursor + (|newText| - |oldText|);
        var m := if |newText| < moved then |newText| else moved;
        if 0 < m then m else 0
      else cursor
  }

  // ---------------------------------------------------------------------
  // Key handlers
  // ---------------------------------------------------------------------

  /** processCommonMove: arrows (by word with ctrl), up/down, home and end. */
  function AfterCommonMove(st: EditorState, ev: KeyStroke, cls: Classifier): (r: EditorState)
    ensures cls('\n') == Whitespace && Consistent(st, cls) ==> Consistent(r, cls)
  {
    var s1 :=
      if ev.isCtrl then
        var a := if ev.key == "left" then CursorAdjusted(st, -(BackwardWordLength(st.text, st.cursor, cls) as int)) else st;
        if ev.key == "right" then CursorAdjusted(a, ForwardWordLength(a.text, a.cursor, cls)) else a
      else
        var a := if ev.key == "left" then CursorAdjusted(st, -1) else st;
        if ev.key == "right" then CursorAdjusted(a, 1) else a;
    var s2 := if ev.key == "down" then LineAdjusted(s1, 1) else s1;
    var s3 := if ev.key == "up" then LineAdjusted(s2, -1) else s2;
    var s4 := if ev.key == "home" then CursorAdjusted(s3, -BackwardLineLength(s3.text, s3.cursor)) else s3;
    if ev.key == "end" then CursorAdjusted(s4, ForwardLineLength(s4.text, s4.cursor)) else s4
  }

  /** onNormalKey: a run of independent tests on the key (split in three
      groups below, in source order), then the common moves. */
  function AfterNormalKey(st: EditorState, ev: KeyStroke, cls: Classifier): (r: EditorState)
    ensures cls('\n') == Whitespace && Consistent(st, cls) ==> Consistent(r, cls)
  {
    AfterCommonMove(NormalKeyRest(NormalKeyJumps(NormalKeyBasics(st, ev), ev, cls), ev, cls), ev, cls)
  }

  /** The tests for `i`, `r`, `h`, `l`, `j`, `k`, `d`, `x` and `backspace`. */
  function NormalKeyBasics(st: EditorState, ev: KeyStroke): (r: EditorState)
    ensures r.copyBuffer == st.copyBuffer
    ensures st.cursor >= 0 ==> r.cursor >= 0
    ensures st.rememberedColumn >= -1 ==> r.rememberedColumn >= -1
  {
    var k := ev.key;
    var s1 := if k == "i" then st.(mode := Insert) else st;
    var s2 := if k == "r" then s1.(mode := Replace) else s1;
    var s3 := if k == "h" then CursorAdjusted(s2, -1) else s2;
    var s4 := if k == "l" then CursorAdjusted(s3, 1) else s3;
    var s5 := if k == "j" then LineAdjusted(s4, 1) else s4;
    var s6 := if k == "k" then LineAdjusted(s5, -1) else s5;
    var s7 := if k == "d" then s6.(mode := Delete) else s6;
    var s8 := if k == "x" then DeletedUnderCursor(s7) else s7;
    if k == "backspace" then CursorAdjusted(s8, -1) else s8
  }

  /** The tests for `w`, `b`, `g`, `G`, `$` and `^`. */
  function NormalKeyJumps(st: EditorState, ev: KeyStroke, cls: Classifier): (r: EditorState)
    ensures r.copyBuffer == st.copyBuffer
    ensures st.cursor >= 0 ==> r.cursor >= 0
    ensures st.rememberedColumn >= -1 ==> r.rememberedColumn >= -1
  {
    var k := ev.key;
    var s1 := if k == "w" then CursorAdjusted(st, ForwardWordLength(st.text, st.cursor, cls)) else st;
    var s2 := if k == "b" then CursorAdjusted(s1, -(BackwardWordLength(s1.text, s1.cursor, cls) as int)) else s1;
    var s3 := if k == "g" then s2.(mode := Nav) else s2;
    var s4 := if k == "G" then JumpedToLine(s3, LineCount(s3.text) - 1) else s3;
    var s5 := if k == "$" then CursorAdjusted(s4, ForwardLineLength(s4.text, s4.cursor)).(rememberedColumn := 999) else s4;
    if k == "^" then CursorAdjusted(s5, -BackwardLineLength(s5.text, s5.cursor)) else s5
  }

  /** The tests for `p`, `z` and alt+`w`. */
  function NormalKeyRest(st: EditorState, ev: KeyStroke, cls: Classifier): (r: EditorState)
    ensures r.copyBuffer == st.copyBuffer
    ensures st.cursor >= 0 ==> r.cursor >= 0
    ensures r.rememberedColumn == st.rememberedColumn
  {
    var k := ev.key;
    var s1 := if k == "p" then Pasted(st, cls) else st;
    var s2 := if k == "z" then s1.(mode := Scroll) else s1;
    if ev.isAlt && k == "w" then WrappingToggled(s2) else s2
  }

  /** The insert-mode key whose handler throws: a key named "paste" (which a
      chunk of the five bytes "paste" decodes to) inserts the text of
      `undefined` and then fails reading its length, so the key handling
      stops there. */
  function InsertKeyThrows(ev: KeyStroke): (throws: bool)
    ensures throws <==> ev.key == "paste"
  {
    |ev.ToString()| != 1 && ev.key == "paste"
  }

  /** onInsertKey. A printable key is typed; for a throwing key, the state is
      the one the handler leaves when it throws. */
  function AfterInsertKey(st: EditorState, ev: KeyStroke, cls: Classifier): (r: EditorState)
    ensures cls('\n') == Whitespace && Consistent(st, cls) ==> Consistent(r, cls)
  {
    if |ev.ToString()| == 1 then Inserted(st, ev.key)
    else if ev.key == "paste" then st.(text := InsertText(st.text, st.cursor, "undefined"))
    else
      var k := ev.key;
      var s1 := if k == "escape" then st.(mode := Normal) else st;
      var s2 := if k == "backspace" || (k == "h" && ev.isCtrl) then DeletedAt(s1, -1, -1) else s1;
      var s3 := if k == "delete" then DeletedAt(s2, 0, 0) else s2;
      var s4 := if k == "return" then Inserted(s3, "\n") else s3;
      AfterCommonMove(s4, ev, cls)
  }

  /** onDeleteKey: `w` cuts a word, `d` a line; back to normal mode. */
  function AfterDeleteKey(st: EditorState, ev: KeyStroke, cls: Classifier): (r: EditorState)
    ensures cls('\n') == Whitespace && Consistent(st, cls) ==> Consistent(r, cls)
  {
    var s1 := if ev.key == "w" then WordDeleted(st, cls) else st;
    var s2 := if ev.key == "d" then LineDeleted(s1, cls) else s1;
    s2.(mode := Normal)
  }

  /** onReplaceKey: a printable key overwrites the character under the
      cursor; back to normal mode. */
  function AfterReplaceKey(st: EditorState, ev: KeyStroke): (r: EditorState)
    ensures r.mode == Normal
    ensures r.copyBuffer == st.copyBuffer && r.cursor == st.cursor
    ensures r.rememberedColumn == st.rememberedColumn
  {
    var s1 := if |ev.ToString()| == 1 then st.(text := ReplaceChar(st.text, st.cursor, ev.key)) else st;
    s1.(mode := Normal)
  }

  /** onScrollKey: `t`, `z` and `b` put the cursor's line at the top, the
      middle or the bottom of the screen; back to normal mode. */
  function AfterScrollKey(st: EditorState, ev: KeyStroke): (r: EditorState)
    ensures r.mode == Normal
    ensures r.copyBuffer == st.copyBuffer && r.text == st.text
    ensures st.cursor >= 0 ==> r.cursor >= 0
    ensures st.rememberedColumn >= -1 ==> r.rememberedColumn >= -1
  {
    var y := PositionOf(st.text, st.cursor).y;
    var h := st.terminalSize.y;
    var s1 := if ev.key == "t" then st.(skippedRenderingLines := y) else st;
    var s2 := if ev.key == "z" then s1.(skippedRenderingLines := y - h / 2) else s1;
    var s3 := if ev.key == "b" then s2.(skippedRenderingLines := y - h + 1) else s2;
    s3.(mode := Normal)
  }

  /** onNavKey: `g` jumps to the first line; back to normal mode. */
  function AfterNavKey(st: EditorState, ev: KeyStroke): (r: EditorState)
    ensures r.mode == Normal
    ensures r.copyBuffer == st.copyBuffer && r.text == st.text
    ensures st.cursor >= 0 ==> r.cursor >= 0
    ensures st.rememberedColumn >= -1 ==> r.rememberedColumn >= -1
  {
    var s1 := if ev.key == "g" then JumpedToLine(st, 0) else st;
    s1.(mode := Normal)
  }

  /** Whether onKey runs to its end (and so to checkCursorValid). */
  function KeyCompletes(st: EditorState, ev: KeyStroke): (completes: bool)
    ensures completes <==> !(st.mode == Insert && ev.key == "paste")
  {
    !(st.mode == Insert && InsertKeyThrows(ev))
  }

  /** The switch of onKey: the handler of the current mode runs. The visual
      modes have no handler. */
  function Dispatched(st: EditorState, ev: KeyStroke, cls: Classifier): (r: EditorState)
    ensures cls('\n') == Whitespace && Consistent(st, cls) ==> Consistent(r, cls)
  {
    match st.mode
    case Normal => AfterNormalKey(st, ev, cls)
    case Insert => AfterInsertKey(st, ev, cls)
    case Delete => AfterDeleteKey(st, ev, cls)
    case Replace => AfterReplaceKey(st, ev)
    case Scroll => AfterScrollKey(st, ev)
    case Nav => AfterNavKey(st, ev)
    case Visual => st
    case VisualLine => st
  }

  /** onKey: dispatch on the mode, then checkCursorValid, unless the handler
      threw. */
  function AfterKey(st: EditorState, ev: KeyStroke, cls: Classifier): (r: EditorState)
    ensures cls('\n') == Whitespace && Valid(st, cls) ==> Valid(r, cls)
  {
    var r := Dispatched(st, ev, cls);
    if KeyCompletes(st, ev) then CursorValidated(r) else r
  }

  // ---------------------------------------------------------------------
  // Register lemmas used by the definitions above
  // ---------------------------------------------------------------------

  /** A text of whitespace right-trims to nothing. */
  lemma {:induction false} TrimEndAllWhitespace(s: string, cls: Classifier)
    requires forall i :: 0 <= i < |s| ==> cls(s[i]) == Whitespace
    ensures TrimEnd(s, cls) == []
    decreases |s|
  {
    if s != [] {
      TrimEndAllWhitespace(s[..|s| - 1], cls);
    }
  }

  /** A cut word run with a line break in it is whitespace, so it pastes as
      an empty line. */
  lemma WordRegister(text: string, c: int, cls: Classifier)
    ensures var n := ForwardWordLength(text, c, cls);
            cls('\n') == Whitespace && 0 <= c && n > 0 ==> PastesAsOneLine(Slice(text, c, c + n), cls)
  {
    var n := ForwardWordLength(text, c, cls);
    if cls('\n') != Whitespace {
    } else if n > 0 && 0 <= c <= |text| {
      var cut := Slice(text, c, c + n);
      assert cut == text[c..c + n];
      if '\n' in cut {
        var j :| 0 <= j < |cut| && cut[j] == '\n';
        assert cls(text[c + j]) == cls(text[c]);
        TrimEndAllWhitespace(cut, cls);
      }
    }
  }

  /** A trimmed line plus "\n" right-trims back to a text without a line
      break. */
  lemma LineRegister(line: string, cls: Classifier)
    requires '\n' !in line
    ensures cls('\n') == Whitespace ==> PastesAsOneLine(line + "\n", cls)
  {
    var s := line + "\n";
    assert s[..|s| - 1] == line;
    if cls('\n') == Whitespace {
      assert TrimEnd(s, cls) == TrimEnd(line, cls);
    }
  }
}
