/** The `TextEditor` class of src/app/util/text-writer.ts: the editor's
    fields updated in place, method by method as the source does. Every
    method is proved to leave the state that the matching function of the
    Editing (or Screen) module describes, so the properties proved about
    those functions hold of the class. */
module TextWriter {
  import opened Strings
  import opened CursorEngine
  import opened Keys
  import opened Editing
  import opened Screen

  datatype Color = Color(r: int, g: int, b: int)

  /** Another session's cursor shown in this editor. */
  class ForeignCursor {
    const color: Color
    const name: string
    var position: int

    constructor (color: Color, name: string, position: int)
      ensures this.color == color && this.name == name && this.position == position
    {
      this.color := color;
      this.name := name;
      this.position := position;
    }
  }

  class TextEditor {
    var text: string
    var cursor: int
    var terminalSize: Vec2
    var isWrapped: bool
    var horizontalScroll: int
    var foreignCursors: seq<ForeignCursor>
    const ownForeignCursor: ForeignCursor
    var mode: Mode
    var copyBuffer: string
    var skippedRenderingLines: int
    var rememberedColumn: int
    /** The character classes the word patterns use (letters, digits and
        `_`; whitespace; the rest). */
    const classOf: Classifier

    /** The fields the key handlers read and write. */
    function State(): EditorState
      reads this
    {
      EditorState(text, cursor, mode, copyBuffer, rememberedColumn, skippedRenderingLines,
                  horizontalScroll, isWrapped, terminalSize)
    }

    /** The foreign cursor list never holds this editor's own cursor, nor
        the same cursor twice. */
    predicate CursorsDistinct()
      reads this
    {
      ownForeignCursor !in foreignCursors
      && forall i, j :: 0 <= i < j < |foreignCursors| ==> foreignCursors[i] != foreignCursors[j]
    }

    /** A new editor over `text`. The colour of the own cursor (random in
        the source) and the terminal size are given. */
    constructor (text: string, name: string, color: Color, terminalSize: Vec2, classOf: Classifier)
      ensures State() == InitialState(text, terminalSize)
      ensures foreignCursors == [] && CursorsDistinct() && this.classOf == classOf
      ensures fresh(ownForeignCursor) && ownForeignCursor.name == name
      ensures ownForeignCursor.color == color && ownForeignCursor.position == 0
    {
      this.text := text;
      this.cursor := 0;
      this.terminalSize := terminalSize;
      this.isWrapped := false;
      this.horizontalScroll := 0;
      this.foreignCursors := [];
      this.ownForeignCursor := new ForeignCursor(color, name, 0);
      this.mode := Normal;
      this.copyBuffer := "";
      this.skippedRenderingLines := 0;
      this.rememberedColumn := -1;
      this.classOf := classOf;
    }

    // -------------------------------------------------------------------
    // Text and cursors from outside
    // -------------------------------------------------------------------

    method SetText(newText: string)
      modifies this
      ensures State() == TextReplaced(old(State()), newText)
      ensures foreignCursors == old(foreignCursors)
    {
      if text != newText {
        RespondToTextMovement(newText);
      }
      text := newText;
    }

    /** respondToTextMovement: scan the common prefix, then the common
        suffix of what is left; when the prefix ends before the cursor, the
        cursor moves by the difference in length, clamped into the new
        text. */
    method RespondToTextMovement(newText: string)
      modifies this
      ensures State() == old(State()).(cursor := FollowCursor(old(text), newText, old(cursor)))
      ensures foreignCursors == old(foreignCursors)
    {
      var current := text;
      if current == [] || newText == [] {
        cursor := 0;
        return;
      }
      var i := 0;
      while i < |current| && i < |newText| && current[i] == newText[i]
        invariant 0 <= i <= |current| && i <= |newText|
        invariant current[..i] == newText[..i]
      {
        i := i + 1;
      }
      CommonPrefixIsLongest(current, newText, i);
      var oldEnd := |current| - 1;
      var newEnd := |newText| - 1;
      while oldEnd >= i && newEnd >= i && current[oldEnd] == newText[newEnd]
        invariant i - 1 <= oldEnd < |current| && i - 1 <= newEnd < |newText|
        invariant |newText| - |current| == newEnd - oldEnd
      {
        oldEnd := oldEnd - 1;
        newEnd := newEnd - 1;
      }
      if i < cursor {
        var lengthDiff := newEnd - i + 1 - (oldEnd - i + 1);
        var moved := cursor + lengthDiff;
        var m := if |newText| < moved then |newText| else moved;
        cursor := if 0 < m then m else 0;
      }
    }

    method SetTerminalSize(size: Vec2)
      modifies this
      ensures State() == old(State()).(terminalSize := size)
      ensures foreignCursors == old(foreignCursors)
    {
      terminalSize := size;
    }

    /** addForeignCursor: the own cursor and a cursor already present are
        not added again. */
    method AddForeignCursor(fc: ForeignCursor)
      modifies this
      ensures foreignCursors ==
                if fc == ownForeignCursor || fc in old(foreignCursors) then old(foreignCursors)
                else old(foreignCursors) + [fc]
      ensures old(CursorsDistinct()) ==> CursorsDistinct()
      ensures State() == old(State())
    {
      if fc == ownForeignCursor {
        return;
      }
      if fc in foreignCursors {
        return;
      }
      foreignCursors := foreignCursors + [fc];
    }

    method ClearForeignCursors()
      modifies this
      ensures foreignCursors == [] && CursorsDistinct()
      ensures State() == old(State())
    {
      foreignCursors := [];
    }

    method SetMode(m: Mode)
      modifies this
      ensures State() == old(State()).(mode := m)
      ensures foreignCursors == old(foreignCursors)
    {
      mode := m;
    }

    method ToggleWrapping()
      modifies this
      ensures State() == WrappingToggled(old(State()))
      ensures foreignCursors == old(foreignCursors)
    {
      isWrapped := !isWrapped;
      horizontalScroll := 0;
    }

    // -------------------------------------------------------------------
    // Cursor operations
    // -------------------------------------------------------------------

    method AdjustCursorPosition(delta: int)
      modifies this
      ensures State() == CursorAdjusted(old(State()), delta)
      ensures foreignCursors == old(foreignCursors)
    {
      rememberedColumn := -1;
      cursor := cursor + delta;
      if cursor < 0 {
        cursor := 0;
      }
      if cursor > |text| {
        cursor := |text|;
      }
    }

    /** adjustCursorLine. The remembered column is worked on in a local and
        stored with the cursor at the end; nothing reads it in between. */
    method AdjustCursorLine(offset: int)
      modifies this
      ensures State() == LineAdjusted(old(State()), offset)
      ensures foreignCursors == old(foreignCursors)
    {
      ghost var expected := LineAdjusted(State(), offset);
      if offset == 0 {
        assert expected == State();
        return;
      }
      var p := PositionOf(text, cursor);
      var row, col := p.y, p.x;
      if row + offset < 0 || row + offset >= LineCount(text) {
        assert expected == State();
        return;
      }
      ghost var t := row + offset;
      ghost var land := Landing(|Split(text)[t]|, col, rememberedColumn);
      assert expected == State().(cursor := LineStart(text, t) + land.column,
                                  rememberedColumn := land.remembered) by {
        assert expected == LandedOnLine(State(), t, col);
      }
      var nextLineText := Split(text)[row + offset];
      var newX, remembered := LandingColumn(|nextLineText|, col, rememberedColumn);
      ghost var landing := LineStart(text, t) + newX;
      assert landing <= |text|;
      if row + offset == 0 {
        assert Split(text)[..0] == [];
        newX := newX - 1;
      }
      var c := JoinedLength(text, row + offset) + 1 + newX;
      assert c == landing;
      if c > |text| {
        c := |text| - 1;
      }
      cursor, rememberedColumn := c, remembered;
      assert State() == expected;
    }

    /** The column rules of adjustCursorLine, on the target line's length
        `len`, the column `x` the cursor comes from and the remembered
        column `rc`. */
    static method LandingColumn(len: nat, x: int, rc: int) returns (newX: int, remembered: int)
      ensures newX >= 0 && Land(newX, remembered) == Landing(len, x, rc)
    {
      remembered := rc;
      var col := x;
      if len < col {
        if remembered == -1 {
          remembered := col;
        }
        col := len - 1;
      }
      if remembered > len {
        col := len;
      } else if remembered != -1 && len > remembered {
        col := remembered;
        remembered := -1;
      }
      if col < 0 {
        col := 0;
      }
      newX := col;
    }

    method JumpToLine(line: int)
      modifies this
      ensures State() == JumpedToLine(old(State()), line)
      ensures foreignCursors == old(foreignCursors)
    {
      if line >= LineCount(text) {
        return;
      }
      var indexOfLineStart := if line <= 0 then 0 else JoinedLength(text, line);
      cursor := indexOfLineStart;
      CheckCursorValid();
    }

    /** checkCursorValid. The source's comparison of
        `skippedRenderingLines` with the line count is an expression
        statement with no effect. */
    method CheckCursorValid()
      modifies this
      ensures State() == CursorValidated(old(State()))
      ensures foreignCursors == old(foreignCursors)
    {
      var y := PositionOf(text, cursor).y;
      if y < skippedRenderingLines {
        skippedRenderingLines := y;
      }
      if y >= skippedRenderingLines + terminalSize.y - 2 {
        skippedRenderingLines := y - terminalSize.y + 2;
      }
      if skippedRenderingLines < 0 {
        skippedRenderingLines := 0;
      }
      if cursor > |text| {
        cursor := |text|;
      }
      if cursor < 0 {
        cursor := 0;
      }
    }

    // -------------------------------------------------------------------
    // Edit operations
    // -------------------------------------------------------------------

    method Insert(s: string)
      modifies this
      ensures State() == Inserted(old(State()), s)
      ensures foreignCursors == old(foreignCursors)
    {
      text := Slice(text, 0, cursor) + s + SliceFrom(text, cursor);
      AdjustCursorPosition(|s|);
    }

    method DeleteAt(position: int, adjust: int)
      modifies this
      ensures State() == DeletedAt(old(State()), position, adjust)
      ensures foreignCursors == old(foreignCursors)
    {
      var remaining := Slice(text, 0, cursor + position) + SliceFrom(text, cursor + position + 1);
      assert remaining == DeleteOffset(text, cursor + position);
      text := remaining;
      AdjustCursorPosition(adjust);
    }

    method DeleteUnderCursor()
      modifies this
      ensures State() == DeletedUnderCursor(old(State()))
      ensures foreignCursors == old(foreignCursors)
    {
      var isLastOnLine := IsLastOnLine(text, cursor);
      DeleteAt(0, if isLastOnLine then -1 else 0);
    }

    method DeleteWord()
      modifies this
      ensures State() == WordDeleted(old(State()), classOf)
      ensures foreignCursors == old(foreignCursors)
    {
      var wordLength := ForwardWordLength(text, cursor, classOf);
      if wordLength != 0 {
        copyBuffer := Slice(text, cursor, cursor + wordLength);
        text := Spliced(text, cursor, wordLength);
      }
    }

    method DeleteLine()
      modifies this
      ensures State() == LineDeleted(old(State()), classOf)
      ensures foreignCursors == old(foreignCursors)
    {
      ghost var before := State();
      var cursorLine := PositionOf(text, cursor).y;
      copyBuffer := Trim(Split(text)[cursorLine], classOf) + "\n";
      text := RemoveLine(text, cursorLine);
      assert State() == LineDeleted(before, classOf) by {
        LineDeletedFields(before, classOf);
      }
    }

    method Paste()
      modifies this
      ensures State() == Pasted(old(State()), classOf)
      ensures foreignCursors == old(foreignCursors)
    {
      if copyBuffer == [] {
        return;
      }
      ghost var before := State();
      if '\n' in copyBuffer {
        var cursorLine := PositionOf(text, cursor).y;
        text := InsertLine(text, cursorLine + 1, TrimEnd(copyBuffer, classOf));
        ghost var inserted := State();
        assert inserted == before.(text := text);
        JumpToLine(cursorLine + 1);
        assert State() == JumpedToLine(inserted, cursorLine + 1);
      } else {
        text := InsertText(text, cursor + 1, copyBuffer);
        cursor := cursor + |copyBuffer|;
        assert State() == before.(text := text, cursor := cursor);
      }
    }

    // -------------------------------------------------------------------
    // Key handling
    // -------------------------------------------------------------------

    /** onKey: the handler of the mode, then checkCursorValid. `completed`
        is false when the handler throws (see InsertKeyThrows); the state
        is then the one it left. */
    method OnKey(ev: KeyStroke) returns (completed: bool)
      modifies this
      ensures State() == AfterKey(old(State()), ev, classOf)
      ensures completed == KeyCompletes(old(State()), ev)
      ensures foreignCursors == old(foreignCursors)
    {
      ghost var before := State();
      match mode {
        case Normal =>
          OnNormalKey(ev);
        case Insert =>
          var threw := OnInsertKey(ev);
          if threw {
            return false;
          }
        case Delete =>
          OnDeleteKey(ev);
        case Replace =>
          OnReplaceKey(ev);
        case Scroll =>
          OnScrollKey(ev);
        case Nav =>
          OnNavKey(ev);
        case Visual =>
        case VisualLine =>
      }
      assert State() == Dispatched(before, ev, classOf) && KeyCompletes(before, ev);
      CheckCursorValid();
      return true;
    }

    method OnNormalKey(ev: KeyStroke)
      modifies this
      ensures State() == AfterNormalKey(old(State()), ev, classOf)
      ensures foreignCursors == old(foreignCursors)
    {
      NormalKeyBasicTests(ev);
      NormalKeyJumpTests(ev);
      NormalKeyOtherTests(ev);
      ProcessCommonMove(ev);
    }

    /** The tests of onNormalKey for `i`, `r`, `h`, `l`, `j`, `k`, `d`, `x`
        and `backspace`. */
    method NormalKeyBasicTests(ev: KeyStroke)
      modifies this
      ensures State() == NormalKeyBasics(old(State()), ev)
      ensures foreignCursors == old(foreignCursors)
    {
      if ev.key == "i" {
        SetMode(Mode.Insert);
      }
      if ev.key == "r" {
        SetMode(Replace);
      }
      if ev.key == "h" {
        AdjustCursorPosition(-1);
      }
      if ev.key == "l" {
        AdjustCursorPosition(1);
      }
      if ev.key == "j" {
        AdjustCursorLine(1);
      }
      if ev.key == "k" {
        AdjustCursorLine(-1);
      }
      if ev.key == "d" {
        SetMode(Delete);
      }
      if ev.key == "x" {
        DeleteUnderCursor();
      }
      if ev.key == "backspace" {
        AdjustCursorPosition(-1);
      }
    }

    /** The tests of onNormalKey for `w`, `b`, `g`, `G`, `$` and `^`. */
    method NormalKeyJumpTests(ev: KeyStroke)
      modifies this
      ensures State() == NormalKeyJumps(old(State()), ev, classOf)
      ensures foreignCursors == old(foreignCursors)
    {
      if ev.key == "w" {
        AdjustCursorPosition(ForwardWordLength(text, cursor, classOf));
      }
      if ev.key == "b" {
        AdjustCursorPosition(-(BackwardWordLength(text, cursor, classOf) as int));
      }
      if ev.key == "g" {
        SetMode(Nav);
      }
      if ev.key == "G" {
        JumpToLine(LineCount(text) - 1);
      }
      if ev.key == "$" {
        AdjustCursorPosition(ForwardLineLength(text, cursor));
        rememberedColumn := 999;
      }
      if ev.key == "^" {
        AdjustCursorPosition(-BackwardLineLength(text, cursor));
      }
    }

    /** The tests of onNormalKey for `p`, `z` and alt+`w`. */
    method NormalKeyOtherTests(ev: KeyStroke)
      modifies this
      ensures State() == NormalKeyRest(old(State()), ev, classOf)
      ensures foreignCursors == old(foreignCursors)
    {
      if ev.key == "p" {
        Paste();
      }
      if ev.key == "z" {
        SetMode(Scroll);
      }
      if ev.isAlt && ev.key == "w" {
        ToggleWrapping();
      }
    }

    /** onInsertKey; `threw` says the handler failed (the "paste" key). */
    method OnInsertKey(ev: KeyStroke) returns (threw: bool)
      modifies this
      ensures State() == AfterInsertKey(old(State()), ev, classOf)
      ensures threw == InsertKeyThrows(ev)
      ensures foreignCursors == old(foreignCursors)
    {
      assert (|ev.ToString()| == 1) == (!ev.isCtrl && !ev.isAlt && |ev.key| == 1) by {
        ToStringSingle(ev);
      }
      if |ev.ToString()| == 1 {
        Insert(ev.key);
        return false;
      }
      if ev.key == "paste" {
        text := Slice(text, 0, cursor) + "undefined" + SliceFrom(text, cursor);
        return true;
      }
      if ev.key == "escape" {
        SetMode(Normal);
      }
      if ev.key == "backspace" || (ev.key == "h" && ev.isCtrl) {
        DeleteAt(-1, -1);
      }
      if ev.key == "delete" {
        DeleteAt(0, 0);
      }
      if ev.key == "return" {
        Insert("\n");
      }
      ProcessCommonMove(ev);
      return false;
    }

    method OnDeleteKey(ev: KeyStroke)
      modifies this
      ensures State() == AfterDeleteKey(old(State()), ev, classOf)
      ensures foreignCursors == old(foreignCursors)
    {
      if ev.key == "w" {
        DeleteWord();
      }
      if ev.key == "d" {
        DeleteLine();
      }
      SetMode(Normal);
    }

    method OnReplaceKey(ev: KeyStroke)
      modifies this
      ensures State() == AfterReplaceKey(old(State()), ev)
      ensures foreignCursors == old(foreignCursors)
    {
      var single := |ev.ToString()| == 1;
      assert single == (!ev.isCtrl && !ev.isAlt && |ev.key| == 1) by {
        ToStringSingle(ev);
      }
      if single {
        text := ReplaceChar(text, cursor, ev.key);
      }
      SetMode(Normal);
    }

    method OnScrollKey(ev: KeyStroke)
      modifies this
      ensures State() == AfterScrollKey(old(State()), ev)
      ensures foreignCursors == old(foreignCursors)
    {
      if ev.key == "t" {
        skippedRenderingLines := PositionOf(text, cursor).y;
      }
      if ev.key == "z" {
        skippedRenderingLines := PositionOf(text, cursor).y - terminalSize.y / 2;
      }
      if ev.key == "b" {
        skippedRenderingLines := PositionOf(text, cursor).y - terminalSize.y + 1;
      }
      SetMode(Normal);
    }

    method OnNavKey(ev: KeyStroke)
      modifies this
      ensures State() == AfterNavKey(old(State()), ev)
      ensures foreignCursors == old(foreignCursors)
    {
      if ev.key == "g" {
        JumpToLine(0);
      }
      SetMode(Normal);
    }

    method ProcessCommonMove(ev: KeyStroke)
      modifies this
      ensures State() == AfterCommonMove(old(State()), ev, classOf)
      ensures foreignCursors == old(foreignCursors)
    {
      if ev.isCtrl {
        if ev.key == "left" {
          AdjustCursorPosition(-(BackwardWordLength(text, cursor, classOf) as int));
        }
        if ev.key == "right" {
          AdjustCursorPosition(ForwardWordLength(text, cursor, classOf));
        }
      } else {
        if ev.key == "left" {
          AdjustCursorPosition(-1);
        }
        if ev.key == "right" {
          AdjustCursorPosition(1);
        }
      }
      if ev.key == "down" {
        AdjustCursorLine(1);
      }
      if ev.key == "up" {
        AdjustCursorLine(-1);
      }
      if ev.key == "home" {
        AdjustCursorPosition(-BackwardLineLength(text, cursor));
      }
      if ev.key == "end" {
        AdjustCursorPosition(ForwardLineLength(text, cursor));
      }
    }

    // -------------------------------------------------------------------
    // Screen positions
    // -------------------------------------------------------------------

    /** getActualXYFromIndex: where offset `index` is drawn; for the own
        cursor in unwrapped mode this also scrolls the window sideways. */
    method GetActualXYFromIndex(index: int) returns (p: Vec2)
      requires terminalSize.x >= 1
      modifies this
      ensures p == ActualXY(old(State()), index).pos
      ensures State() == old(State()).(horizontalScroll := ActualXY(old(State()), index).horizontalScroll)
      ensures foreignCursors == old(foreignCursors)
    {
      var c := PositionOf(text, index);
      if isWrapped {
        var x := JsRemainder(c.x, terminalSize.x);
        var y := c.y + c.x / terminalSize.x + PreviousLineCumulative(State(), c.y) - skippedRenderingLines;
        return Vec2(x, y);
      } else {
        if index == cursor {
          if c.x - horizontalScroll >= terminalSize.x {
            horizontalScroll := c.x - terminalSize.x + 1;
          } else if c.x < horizontalScroll {
            horizontalScroll := c.x;
          }
        }
        return Vec2(c.x - horizontalScroll, c.y - skippedRenderingLines);
      }
    }
  }

  /** The loop's prefix is the longest common prefix. */
  lemma CommonPrefixIsLongest(a: string, b: string, i: nat)
    requires i <= |a| && i <= |b| && a[..i] == b[..i]
    requires i < |a| && i < |b| ==> a[i] != b[i]
    ensures i == CommonPrefixLength(a, b)
  {
  }
}
