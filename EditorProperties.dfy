/** What the editor operations of src/app/util/text-writer.ts guarantee,
    stated over the state functions of the Editing module. */
module EditorProperties {
  import opened Strings
  import opened CursorEngine
  import opened Keys
  import opened Editing

  // ---------------------------------------------------------------------
  // insert / deleteAt
  // ---------------------------------------------------------------------

  /** insert(s) puts `s` at the cursor and moves the cursor past it. */
  lemma InsertPutsTextAtCursor(st: EditorState, s: string)
    requires 0 <= st.cursor <= |st.text|
    ensures var r := Inserted(st, s);
            r.text == st.text[..st.cursor] + s + st.text[st.cursor..]
            && r.cursor == st.cursor + |s| && r.rememberedColumn == -1
  {
    var c := st.cursor;
    var t := InsertText(st.text, c, s);
    assert t == t[..c] + t[c..c + |s|] + t[c + |s|..];
  }

  /** Backspace in insert mode (deleteAt(-1, -1)) removes the character
      before the cursor and steps back onto its place. */
  lemma BackspaceRemovesPrevious(st: EditorState)
    requires 0 < st.cursor <= |st.text|
    ensures var r := DeletedAt(st, -1, -1);
            r.text == st.text[..st.cursor - 1] + st.text[st.cursor..] && r.cursor == st.cursor - 1
  {
    var c := st.cursor;
    var t := DeleteOffset(st.text, c - 1);
    assert t == t[..c - 1] + t[c - 1..];
  }

  /** At the start of the text the same backspace slices from -1, which
      counts from the end: the text becomes all but its last character
      followed by the whole text, and the cursor stays at 0. */
  lemma BackspaceAtStartDuplicates(st: EditorState)
    requires st.cursor == 0 && |st.text| >= 1
    ensures var r := DeletedAt(st, -1, -1);
            r.text == st.text[..|st.text| - 1] + st.text && r.cursor == 0
  {
  }

  /** For example, backspace at the start of "abc" gives "ababc". */
  lemma BackspaceAtStartExample(st: EditorState)
    requires st.cursor == 0 && st.text == "abc"
    ensures DeletedAt(st, -1, -1).text == "ababc"
  {
    BackspaceAtStartDuplicates(st);
  }

  /** `x` deletes the character under the cursor; the cursor steps back
      when that character ended its line, and stays otherwise. With the
      cursor at the end of the text there is no character to delete: the
      text is kept, and the cursor still steps back (the end counts as the
      last position of its line). */
  lemma DeleteUnderCursorSpec(st: EditorState)
    requires 0 <= st.cursor <= |st.text|
    ensures var r := DeletedUnderCursor(st); var c := st.cursor;
            r.text == (if c < |st.text| then st.text[..c] + st.text[c + 1..] else st.text)
            && r.cursor == (if IsLastOnLine(st.text, c) && c > 0 then c - 1 else c)
    ensures st.cursor == |st.text| ==> IsLastOnLine(st.text, st.cursor)
  {
    var c := st.cursor;
    var t := DeleteOffset(st.text, c);
    if c < |st.text| {
      assert t == t[..c] + t[c..];
    }
  }

  // ---------------------------------------------------------------------
  // deleteWord / deleteLine / paste
  // ---------------------------------------------------------------------

  /** deleteWord cuts exactly the word run at the cursor into the register
      and leaves the cursor; with no run (at the end of the text) nothing
      changes. Putting the register back at the cursor restores the text. */
  lemma DeleteWordSpec(st: EditorState, cls: Classifier)
    requires 0 <= st.cursor <= |st.text|
    ensures var r := WordDeleted(st, cls); var c := st.cursor;
            var n := ForwardWordLength(st.text, c, cls);
            (n == 0 ==> r == st)
            && (n > 0 ==> r.copyBuffer == st.text[c..c + n]
                          && r.text == st.text[..c] + st.text[c + n..]
                          && r.cursor == c && r.mode == st.mode
                          && InsertText(r.text, c, r.copyBuffer) == st.text)
  {
    var c := st.cursor;
    var n := ForwardWordLength(st.text, c, cls);
    if n > 0 {
      var r := WordDeleted(st, cls);
      assert Slice(st.text, c, c + n) == st.text[c..c + n];
      var back := InsertText(r.text, c, r.copyBuffer);
      assert back == back[..c] + back[c..c + n] + back[c + n..];
      assert st.text == st.text[..c] + st.text[c..c + n] + st.text[c + n..];
    }
  }

  /** Removing line `y` of a text with more than one line leaves the other
      lines, in order. */
  lemma RemoveLineLines(text: string, y: nat)
    requires y < LineCount(text) && LineCount(text) >= 2
    ensures Split(RemoveLine(text, y)) == Split(text)[..y] + Split(text)[y + 1..]
  {
    var S := Split(text);
    var rest := S[..y] + S[y + 1..];
    assert NoNewline(rest) by {
      forall i | 0 <= i < |rest| ensures '\n' !in rest[i] {
        if i < y { assert rest[i] == S[i]; } else { assert rest[i] == S[i + 1]; }
      }
    }
    SplitJoin(rest);
  }

  /** deleteLine puts the trimmed line and a "\n" in the register and removes
      the cursor's line: the other lines stay, in order, so the line count
      drops by one; the only line of a one-line text leaves "". */
  lemma DeleteLineSpec(st: EditorState, cls: Classifier)
    ensures var r := LineDeleted(st, cls); var S := Split(st.text);
            var y := PositionOf(st.text, st.cursor).y;
            r.copyBuffer == Trim(S[y], cls) + "\n" && r.cursor == st.cursor
            && (|S| == 1 ==> r.text == "")
            && (|S| >= 2 ==> Split(r.text) == S[..y] + S[y + 1..] && LineCount(r.text) == LineCount(st.text) - 1)
  {
    var S := Split(st.text);
    var y := PositionOf(st.text, st.cursor).y;
    if |S| >= 2 {
      RemoveLineLines(st.text, y);
    } else {
      assert RemoveLine(st.text, y) == "" by {
        assert |S| == 1 && y == 0;
        assert |S[..y] + S[y + 1..]| == 0;
      }
    }
  }

  /** Paste with an empty register changes nothing. */
  lemma PasteEmpty(st: EditorState, cls: Classifier)
    requires st.copyBuffer == []
    ensures Pasted(st, cls) == st
  {
  }

  /** A register without a line break goes in after the cursor (at the end
      when the cursor is at the end), and the cursor moves by its length. */
  lemma PasteCharacters(st: EditorState, cls: Classifier)
    requires st.copyBuffer != [] && '\n' !in st.copyBuffer
    requires 0 <= st.cursor <= |st.text|
    ensures var r := Pasted(st, cls); var b := st.copyBuffer;
            var at := if st.cursor < |st.text| then st.cursor + 1 else |st.text|;
            r.text == st.text[..at] + b + st.text[at..] && r.cursor == st.cursor + |b|
            && r.rememberedColumn == st.rememberedColumn
  {
    var b := st.copyBuffer;
    var at := if st.cursor < |st.text| then st.cursor + 1 else |st.text|;
    var t := InsertText(st.text, st.cursor + 1, b);
    assert SliceBound(|st.text|, st.cursor + 1) == at;
    assert t == st.text[..at] + b + st.text[at..];
  }

  /** Inserting a line without a line break at index `at` adds it to the
      lines there. */
  lemma InsertLineLines(text: string, at: nat, line: string)
    requires at <= LineCount(text) && '\n' !in line
    ensures Split(InsertLine(text, at, line)) == Split(text)[..at] + [line] + Split(text)[at..]
  {
    var S := Split(text);
    var lines := S[..at] + [line] + S[at..];
    assert NoNewline(lines) by {
      forall i | 0 <= i < |lines| ensures '\n' !in lines[i] {
        if i < at { assert lines[i] == S[i]; }
        else if i > at { assert lines[i] == S[i - 1]; }
      }
    }
    SplitJoin(lines);
  }

  /** A register with a line break becomes, right-trimmed, a new line right
      after the cursor's line; the other lines stay in order. The cursor
      then lands on the '\n' before the new line, at the end of the
      cursor's old line. */
  lemma PasteLine(st: EditorState, cls: Classifier)
    requires '\n' in st.copyBuffer && PastesAsOneLine(st.copyBuffer, cls)
    ensures var r := Pasted(st, cls); var S := Split(st.text);
            var y := PositionOf(st.text, st.cursor).y;
            Split(r.text) == S[..y + 1] + [TrimEnd(st.copyBuffer, cls)] + S[y + 1..]
            && 0 <= r.cursor < |r.text| && r.text[r.cursor] == '\n'
            && PositionOf(r.text, r.cursor) == Vec2(|S[y]|, y)
  {
    var S := Split(st.text);
    var y := PositionOf(st.text, st.cursor).y;
    var line := TrimEnd(st.copyBuffer, cls);
    var t := InsertLine(st.text, y + 1, line);
    PastedLineWise(st, cls, y, line, t);
    InsertLineLines(st.text, y + 1, line);
    LandsOnInsertedLine(st.(text := t), S, y, line);
  }

  /** The line-wise branch of paste: insert the trimmed register below line
      `y`, then jump to it. */
  lemma PastedLineWise(st: EditorState, cls: Classifier, y: nat, line: string, t: string)
    requires '\n' in st.copyBuffer && y == PositionOf(st.text, st.cursor).y
    requires line == TrimEnd(st.copyBuffer, cls) && y + 1 <= LineCount(st.text)
    requires t == InsertLine(st.text, y + 1, line)
    ensures Pasted(st, cls) == JumpedToLine(st.(text := t), y + 1)
  {
  }

  /** After a line is inserted below line `y`, jumping to it lands on the
      '\n' that ends line `y`. */
  lemma LandsOnInsertedLine(st: EditorState, S: seq<string>, y: nat, line: string)
    requires y < |S| && Split(st.text) == S[..y + 1] + [line] + S[y + 1..]
    ensures var r := JumpedToLine(st, y + 1);
            0 <= r.cursor < |st.text| && st.text[r.cursor] == '\n'
            && PositionOf(st.text, r.cursor) == Vec2(|S[y]|, y)
  {
    var T := Split(st.text);
    assert T[y] == S[y];
    JumpLandsOnLineEnd(st, y + 1);
  }

  // ---------------------------------------------------------------------
  // jumpToLine
  // ---------------------------------------------------------------------

  /** The length of the first `n` lines joined, for 0 < n < line count, is
      the offset of the '\n' that ends line n - 1: the last column of that
      line. */
  lemma JoinedLengthIsLineEnd(text: string, n: nat)
    requires 0 < n < LineCount(text)
    ensures var k := JoinedLength(text, n); var S := Split(text);
            k == LineStart(text, n) - 1 && k < |text| && text[k] == '\n'
            && PositionOf(text, k) == Vec2(|S[n - 1]|, n - 1)
  {
    var S := Split(text);
    LineStartStep(text, n - 1);
    PositionAt(text, n - 1, |S[n - 1]|);
    LineBoundaries(text, n);
  }

  /** jumpToLine(n) for 0 < n < line count does not reach line n: it stops
      on the '\n' that ends line n - 1, at that line's last column. */
  lemma JumpLandsOnLineEnd(st: EditorState, n: int)
    requires 0 < n < LineCount(st.text)
    ensures var r := JumpedToLine(st, n); var S := Split(st.text);
            r.text == st.text && r.cursor == LineStart(st.text, n) - 1
            && 0 <= r.cursor < |st.text| && st.text[r.cursor] == '\n'
            && PositionOf(st.text, r.cursor) == Vec2(|S[n - 1]|, n - 1)
  {
    JoinedLengthIsLineEnd(st.text, n);
  }

  /** jumpToLine(0), the `g g` command, goes to the start of the text. */
  lemma JumpToFirstLine(st: EditorState)
    ensures JumpedToLine(st, 0).cursor == 0
  {
  }

  // ---------------------------------------------------------------------
  // adjustCursorLine
  // ---------------------------------------------------------------------

  /** The row a vertical move of `offset` aims at. */
  function TargetRow(st: EditorState, offset: int): int {
    PositionOf(st.text, st.cursor).y + offset
  }

  /** A vertical move by 0, or to a row outside the text, changes nothing. */
  lemma LineMoveOutOfRange(st: EditorState, offset: int)
    requires offset == 0 || TargetRow(st, offset) < 0 || TargetRow(st, offset) >= LineCount(st.text)
    ensures LineAdjusted(st, offset) == st
  {
  }

  /** Any other vertical move lands on the target row, at a column within
      that row, and leaves the text alone; the final clamp of the source
      never fires. */
  lemma LineMoveLands(st: EditorState, offset: int)
    requires offset != 0 && 0 <= st.cursor <= |st.text|
    requires 0 <= TargetRow(st, offset) < LineCount(st.text)
    ensures var r := LineAdjusted(st, offset); var t := TargetRow(st, offset);
            var x := r.cursor - LineStart(st.text, t);
            r.text == st.text && 0 <= x <= |Split(st.text)[t]|
            && PositionOf(st.text, r.cursor) == Vec2(x, t)
            && r.mode == st.mode && r.copyBuffer == st.copyBuffer
  {
    var p := PositionOf(st.text, st.cursor);
    var t := TargetRow(st, offset);
    assert LineAdjusted(st, offset) == LandedOnLine(st, t, p.x);
    LandedOnLineAt(st, t, p.x);
  }

  /** Landing on row `t` puts the cursor on that row, at a column within it. */
  lemma LandedOnLineAt(st: EditorState, t: nat, x: int)
    requires t < LineCount(st.text)
    ensures var r := LandedOnLine(st, t, x); var col := r.cursor - LineStart(st.text, t);
            0 <= col <= |Split(st.text)[t]| && PositionOf(st.text, r.cursor) == Vec2(col, t)
  {
    PositionAt(st.text, t, Landing(|Split(st.text)[t]|, x, st.rememberedColumn).column);
  }

  /** With no remembered column, moving onto a line at least as long as the
      cursor's column keeps the column. */
  lemma LineMoveKeepsColumn(st: EditorState, offset: int)
    requires offset != 0 && 0 <= st.cursor <= |st.text| && st.rememberedColumn == -1
    requires 0 <= TargetRow(st, offset) < LineCount(st.text)
    requires PositionOf(st.text, st.cursor).x <= |Split(st.text)[TargetRow(st, offset)]|
    ensures var r := LineAdjusted(st, offset); var t := TargetRow(st, offset);
            r.cursor == LineStart(st.text, t) + PositionOf(st.text, st.cursor).x
            && r.rememberedColumn == -1
  {
  }

  /** With no remembered column, moving onto a shorter line lands at its end
      and remembers the column the cursor came from. */
  lemma LineMoveToShorterLine(st: EditorState, offset: int)
    requires offset != 0 && 0 <= st.cursor <= |st.text| && st.rememberedColumn == -1
    requires 0 <= TargetRow(st, offset) < LineCount(st.text)
    requires PositionOf(st.text, st.cursor).x > |Split(st.text)[TargetRow(st, offset)]|
    ensures var r := LineAdjusted(st, offset); var t := TargetRow(st, offset);
            r.cursor == LineStart(st.text, t) + |Split(st.text)[t]|
            && r.rememberedColumn == PositionOf(st.text, st.cursor).x
  {
  }

  /** A remembered column longer than the target line keeps the cursor at
      the line's end and stays remembered; this is how `$` (which remembers
      column 999) sticks to line ends. */
  lemma LineMoveStaysAtEnd(st: EditorState, offset: int)
    requires offset != 0 && 0 <= st.cursor <= |st.text|
    requires 0 <= TargetRow(st, offset) < LineCount(st.text)
    requires st.rememberedColumn > |Split(st.text)[TargetRow(st, offset)]|
    ensures var r := LineAdjusted(st, offset); var t := TargetRow(st, offset);
            r.cursor == LineStart(st.text, t) + |Split(st.text)[t]|
            && r.rememberedColumn == st.rememberedColumn
  {
  }

  /** Moving onto a line longer than the remembered column goes back to that
      column and forgets it. */
  lemma LineMoveRestoresColumn(st: EditorState, offset: int)
    requires offset != 0 && 0 <= st.cursor <= |st.text| && st.rememberedColumn >= 0
    requires 0 <= TargetRow(st, offset) < LineCount(st.text)
    requires |Split(st.text)[TargetRow(st, offset)]| > st.rememberedColumn
    ensures var r := LineAdjusted(st, offset); var t := TargetRow(st, offset);
            r.cursor == LineStart(st.text, t) + st.rememberedColumn
            && r.rememberedColumn == -1
  {
  }

  /** A remembered column equal to the target line's length restores
      nothing: coming from a longer column the cursor lands one before the
      end of that line, and the column stays remembered. */
  lemma LineMoveRememberedEqualsLength(st: EditorState, offset: int)
    requires offset != 0 && 0 <= st.cursor <= |st.text|
    requires 0 <= TargetRow(st, offset) < LineCount(st.text)
    requires st.rememberedColumn == |Split(st.text)[TargetRow(st, offset)]| > 0
    requires PositionOf(st.text, st.cursor).x > st.rememberedColumn
    ensures var r := LineAdjusted(st, offset); var t := TargetRow(st, offset);
            r.cursor == LineStart(st.text, t) + st.rememberedColumn - 1
            && r.rememberedColumn == st.rememberedColumn
  {
  }

  /** Down then up, through a shorter line, comes back to the column the
      cursor started at. */
  lemma DownThroughShortLineAndBack(st: EditorState)
    requires 0 <= st.cursor <= |st.text| && st.rememberedColumn == -1
    requires TargetRow(st, 1) < LineCount(st.text)
    requires var p := PositionOf(st.text, st.cursor);
             |Split(st.text)[p.y]| > p.x > |Split(st.text)[TargetRow(st, 1)]|
    ensures var back := LineAdjusted(LineAdjusted(st, 1), -1);
            back.cursor == st.cursor && back.rememberedColumn == -1
  {
    var p := PositionOf(st.text, st.cursor);
    var down := LineAdjusted(st, 1);
    LineMoveToShorterLine(st, 1);
    LineMoveLands(st, 1);
    assert TargetRow(down, -1) == p.y;
    PositionDecompose(st.text, st.cursor);
    LineMoveRestoresColumn(down, -1);
  }

  // ---------------------------------------------------------------------
  // checkCursorValid
  // ---------------------------------------------------------------------

  /** A first shown line that already shows the cursor's line stays. */
  lemma ScrollWindowKeepsVisible(y: int, s: int, h: int)
    requires 0 <= s <= y <= s + h - 2
    ensures ScrollWindow(y, s, h) == s
  {
  }

  /** Otherwise the window moves as little as it can: up to put the cursor's
      line first, or down to put it last. */
  lemma ScrollWindowMovesLeast(y: int, s: int, h: int)
    requires h >= 2 && 0 <= s && 0 <= y
    ensures y < s ==> ScrollWindow(y, s, h) == y
    ensures y > s + h - 2 ==> ScrollWindow(y, s, h) == y - h + 2
  {
  }

  /** Scrolling twice for the same line is scrolling once. */
  lemma ScrollWindowIdempotent(y: int, s: int, h: int)
    requires h >= 2 && 0 <= y
    ensures ScrollWindow(y, ScrollWindow(y, s, h), h) == ScrollWindow(y, s, h)
  {
    ScrollWindowKeepsVisible(y, ScrollWindow(y, s, h), h);
  }

  /** After checkCursorValid, on a screen of at least two rows, the cursor's
      line is among the shown text rows. */
  lemma ValidatedCursorIsShown(st: EditorState)
    requires st.terminalSize.y >= 2
    ensures var r := CursorValidated(st); var y := PositionOf(r.text, r.cursor).y;
            r.terminalSize == st.terminalSize
            && r.skippedRenderingLines <= y <= r.skippedRenderingLines + r.terminalSize.y - 2
  {
    var r := CursorValidated(st);
    assert Prefix(st.text, st.cursor) == Prefix(r.text, r.cursor);
  }

  // ---------------------------------------------------------------------
  // setText / respondToTextMovement
  // ---------------------------------------------------------------------

  /** setText with the same text changes nothing. */
  lemma SetSameText(st: EditorState)
    ensures TextReplaced(st, st.text) == st
  {
  }

  /** An empty old or new text sends the cursor to 0. */
  lemma FollowCursorEmpty(oldText: string, newText: string, c: int)
    requires oldText == [] || newText == []
    ensures FollowCursor(oldText, newText, c) == 0
  {
  }

  /** A change that leaves everything before the cursor alone leaves the
      cursor alone. */
  lemma FollowCursorEditAfter(oldText: string, newText: string, c: int)
    requires oldText != [] && newText != []
    requires 0 <= c <= |oldText| && c <= |newText| && oldText[..c] == newText[..c]
    ensures FollowCursor(oldText, newText, c) == c
  {
    var i := CommonPrefixLength(oldText, newText);
  }

  /** Text inserted before the cursor (whose first character differs from
      the one it is put before) moves the cursor by its length, so the
      cursor stays on the character it was on. */
  lemma FollowCursorInsertBefore(oldText: string, newText: string, p: nat, ins: string, c: int)
    requires p < c <= |oldText| && ins != [] && ins[0] != oldText[p]
    requires newText == oldText[..p] + ins + oldText[p..]
    ensures var r := FollowCursor(oldText, newText, c);
            r == c + |ins| && (c < |oldText| ==> newText[r] == oldText[c])
  {
    assert CommonPrefixLength(oldText, newText) == p by {
      assert newText[..p] == oldText[..p];
      assert newText[p] == ins[0];
      PrefixStopsAt(oldText, newText, p);
    }
    assert c < |oldText| ==> newText[c + |ins|] == oldText[c] by {
      if c < |oldText| {
        assert newText[c + |ins|] == oldText[p..][c - p];
      }
    }
  }

  /** Text deleted before the cursor (when the character after the gap
      differs from the first one removed) moves the cursor back by the
      amount removed, so it stays on its character. */
  lemma FollowCursorDeleteBefore(oldText: string, newText: string, p: nat, k: nat, c: int)
    requires 0 < k && p + k <= c <= |oldText| && p + k < |oldText|
    requires oldText[p + k] != oldText[p]
    requires newText == oldText[..p] + oldText[p + k..]
    ensures var r := FollowCursor(oldText, newText, c);
            r == c - k && (c < |oldText| ==> newText[r] == oldText[c])
  {
    assert |newText| == |oldText| - k;
    assert CommonPrefixLength(oldText, newText) == p by {
      assert newText[..p] == oldText[..p];
      assert newText[p] == oldText[p + k];
      PrefixStopsAt(oldText, newText, p);
    }
    assert c < |oldText| ==> newText[c - k] == oldText[c] by {
      if c < |oldText| {
        assert newText[c - k] == oldText[p + k..][c - k - p];
      }
    }
  }

  /** Two texts that agree before `p` and differ at `p` have a common prefix
      of exactly `p`. */
  lemma PrefixStopsAt(a: string, b: string, p: nat)
    requires p < |a| && p < |b| && a[..p] == b[..p] && a[p] != b[p]
    ensures CommonPrefixLength(a, b) == p
  {
    var i := CommonPrefixLength(a, b);
    forall j | 0 <= j < p
      ensures a[j] == b[j]
    {
      assert a[j] == a[..p][j];
    }
  }

  /** Replacing "hello world" by "hello, world" with the cursor on the `w`
      (offset 6) inserts one character before it: the cursor goes to 7, the
      same `w`. */
  lemma FollowCursorExample()
    ensures FollowCursor("hello world", "hello, world", 6) == 7
  {
    FollowCursorInsertBefore("hello world", "hello, world", 5, ",", 6);
  }
}
