/** What one key press does in each mode of the editor of
    src/app/util/text-writer.ts (onKey and its per-mode handlers). */
module KeyProperties {
  import opened Strings
  import opened CursorEngine
  import opened Keys
  import opened Editing
  import opened EditorProperties

  /** A key with no modifiers. */
  predicate Plain(ev: KeyStroke) {
    !ev.isCtrl && !ev.isAlt
  }

  // ---------------------------------------------------------------------
  // onKey and checkCursorValid
  // ---------------------------------------------------------------------

  /** Every key handling that runs to its end leaves the cursor inside the
      text, the first shown line at or after line 0, and (on a screen of at
      least two rows) the cursor's line on screen. */
  lemma CompletedKeyValidates(st: EditorState, ev: KeyStroke, cls: Classifier)
    requires KeyCompletes(st, ev)
    ensures var r := AfterKey(st, ev, cls); var y := PositionOf(r.text, r.cursor).y;
            0 <= r.cursor <= |r.text| && r.skippedRenderingLines >= 0
            && (r.terminalSize.y >= 2 ==>
                  r.skippedRenderingLines <= y <= r.skippedRenderingLines + r.terminalSize.y - 2)
  {
    var before: EditorState :=
      match st.mode
      case Normal => AfterNormalKey(st, ev, cls)
      case Insert => AfterInsertKey(st, ev, cls)
      case Delete => AfterDeleteKey(st, ev, cls)
      case Replace => AfterReplaceKey(st, ev)
      case Scroll => AfterScrollKey(st, ev)
      case Nav => AfterNavKey(st, ev)
      case Visual => st
      case VisualLine => st;
    assert AfterKey(st, ev, cls) == CursorValidated(before);
    if before.terminalSize.y >= 2 {
      ValidatedCursorIsShown(before);
    }
  }

  /** The handlers of `delete`, `replace`, `scroll` and `nav` all end by
      going back to normal mode, whatever the key. */
  lemma OneShotModes(st: EditorState, ev: KeyStroke, cls: Classifier)
    requires st.mode == Delete || st.mode == Replace || st.mode == Scroll || st.mode == Nav
    ensures AfterKey(st, ev, cls).mode == Normal
  {
  }

  /** The visual modes have no handler: only checkCursorValid runs, so a
      valid state keeps its text, mode and cursor. */
  lemma VisualModesIgnoreKeys(st: EditorState, ev: KeyStroke, cls: Classifier)
    requires st.mode == Visual || st.mode == VisualLine
    requires 0 <= st.cursor <= |st.text|
    ensures var r := AfterKey(st, ev, cls);
            r.text == st.text && r.mode == st.mode && r.cursor == st.cursor
  {
  }

  // ---------------------------------------------------------------------
  // replace mode
  // ---------------------------------------------------------------------

  /** In replace mode a plain one-character key overwrites the character
      under the cursor; the cursor stays and the mode is normal again. */
  lemma ReplaceOverwrites(st: EditorState, ev: KeyStroke, cls: Classifier)
    requires st.mode == Replace && Plain(ev) && |ev.key| == 1
    requires 0 <= st.cursor < |st.text|
    ensures var r := AfterKey(st, ev, cls);
            r.text == st.text[st.cursor := ev.key[0]] && |r.text| == |st.text|
            && r.cursor == st.cursor && r.mode == Normal
  {
    ToStringSingle(ev);
  }

  /** With the cursor at the end of the text, the replaced "character" is
      appended (an array write one past the end grows the array). */
  lemma ReplaceAtEndAppends(st: EditorState, ev: KeyStroke, cls: Classifier)
    requires st.mode == Replace && Plain(ev) && |ev.key| == 1
    requires st.cursor == |st.text|
    ensures var r := AfterKey(st, ev, cls);
            r.text == st.text + ev.key && r.cursor == st.cursor && r.mode == Normal
  {
    ToStringSingle(ev);
  }

  /** A key with a modifier, or a named key, replaces nothing. */
  lemma ReplaceIgnoresOtherKeys(st: EditorState, ev: KeyStroke, cls: Classifier)
    requires st.mode == Replace && (!Plain(ev) || |ev.key| != 1)
    ensures var r := AfterKey(st, ev, cls);
            r.text == st.text && r.mode == Normal
  {
    ToStringSingle(ev);
  }

  // ---------------------------------------------------------------------
  // insert mode
  // ---------------------------------------------------------------------

  /** In insert mode a plain one-character key is typed at the cursor, and
      the cursor moves past it. */
  lemma InsertTypes(st: EditorState, ev: KeyStroke, cls: Classifier)
    requires st.mode == Insert && Plain(ev) && |ev.key| == 1
    requires 0 <= st.cursor <= |st.text|
    ensures var r := AfterKey(st, ev, cls);
            r.text == st.text[..st.cursor] + ev.key + st.text[st.cursor..]
            && r.cursor == st.cursor + 1 && r.mode == Insert
  {
    ToStringSingle(ev);
    var c := st.cursor;
    var t := InsertText(st.text, c, ev.key);
    assert t == t[..c] + t[c..c + 1] + t[c + 1..];
  }

  /** The key named "paste" inserts the text "undefined" at the cursor and
      then throws: the cursor does not move and checkCursorValid does not
      run. */
  lemma InsertPasteKeyThrows(st: EditorState, ev: KeyStroke, cls: Classifier)
    requires st.mode == Insert && ev.key == "paste"
    requires 0 <= st.cursor <= |st.text|
    ensures !KeyCompletes(st, ev)
    ensures var r := AfterKey(st, ev, cls);
            r.text == st.text[..st.cursor] + "undefined" + st.text[st.cursor..]
            && r.cursor == st.cursor && r.mode == Insert
  {
    var c := st.cursor;
    var t := InsertText(st.text, c, "undefined");
    assert t == t[..c] + t[c..c + 9] + t[c + 9..];
  }

  /** Escape leaves insert mode and changes nothing else that is visible. */
  lemma EscapeLeavesInsert(st: EditorState, ev: KeyStroke, cls: Classifier)
    requires st.mode == Insert && ev.key == "escape"
    requires 0 <= st.cursor <= |st.text|
    ensures var r := AfterKey(st, ev, cls);
            r.mode == Normal && r.text == st.text && r.cursor == st.cursor
  {
    EscapeStep(st, ev, cls);
    assert !InsertKeyThrows(ev);
    assert AfterKey(st, ev, cls) == CursorValidated(st.(mode := Normal));
  }

  /** The insert-mode handler itself, for escape: only the mode changes. */
  lemma EscapeStep(st: EditorState, ev: KeyStroke, cls: Classifier)
    requires ev.key == "escape"
    ensures AfterInsertKey(st, ev, cls) == st.(mode := Normal)
  {
    assert |ev.ToString()| != 1 by { ToStringSingle(ev); }
    var s1 := st.(mode := Normal);
    assert AfterCommonMove(s1, ev, cls) == s1 by { CommonMoveIgnores(s1, ev, cls); }
    assert ev.key != "delete" && ev.key != "return" by {
      assert ev.key[0] == 'e';
    }
  }

  /** Return types a line break at the cursor. */
  lemma ReturnBreaksLine(st: EditorState, ev: KeyStroke, cls: Classifier)
    requires st.mode == Insert && ev.key == "return"
    requires 0 <= st.cursor <= |st.text|
    ensures var r := AfterKey(st, ev, cls);
            r.text == st.text[..st.cursor] + "\n" + st.text[st.cursor..]
            && r.cursor == st.cursor + 1 && r.mode == Insert
            && LineCount(r.text) == LineCount(st.text) + 1
  {
    var s4 := Inserted(st, "\n");
    assert AfterInsertKey(st, ev, cls) == s4 by {
      ReturnStep(st, ev, cls);
    }
    assert !InsertKeyThrows(ev);
    var t := InsertText(st.text, st.cursor, "\n");
    assert t == st.text[..st.cursor] + "\n" + st.text[st.cursor..]
           && LineCount(t) == LineCount(st.text) + 1 by {
      LineBreakTyped(st.text, st.cursor);
    }
    assert s4.text == t && s4.cursor == st.cursor + 1;
  }

  /** The insert-mode handler itself, for return: a line break is typed. */
  lemma ReturnStep(st: EditorState, ev: KeyStroke, cls: Classifier)
    requires ev.key == "return"
    ensures AfterInsertKey(st, ev, cls) == Inserted(st, "\n")
  {
    assert |ev.ToString()| != 1 by { ToStringSingle(ev); }
    var s4 := Inserted(st, "\n");
    assert AfterCommonMove(s4, ev, cls) == s4 by { CommonMoveIgnores(s4, ev, cls); }
    assert ev.key != "escape" && ev.key != "backspace" && ev.key != "h" && ev.key != "delete"
           && ev.key != "paste" by {
      assert ev.key[0] == 'r';
    }
  }

  /** A line break put into a text adds one line. */
  lemma LineBreakTyped(text: string, c: int)
    requires 0 <= c <= |text|
    ensures var t := InsertText(text, c, "\n");
            t == text[..c] + "\n" + text[c..] && LineCount(t) == LineCount(text) + 1
  {
    var t := InsertText(text, c, "\n");
    assert t == t[..c] + t[c..c + 1] + t[c + 1..];
    assert text == text[..c] + text[c..];
    CountConcat(text[..c], text[c..], '\n');
    CountConcat(text[..c] + "\n", text[c..], '\n');
    CountConcat(text[..c], "\n", '\n');
  }

  // ---------------------------------------------------------------------
  // normal mode
  // ---------------------------------------------------------------------

  /** processCommonMove only reacts to the arrow, home and end keys. */
  lemma CommonMoveIgnores(st: EditorState, ev: KeyStroke, cls: Classifier)
    requires ev.key !in ["left", "right", "down", "up", "home", "end"]
    ensures AfterCommonMove(st, ev, cls) == st
  {
  }

  /** The first group of normal-mode tests only reacts to its own keys. */
  lemma BasicsIgnore(st: EditorState, ev: KeyStroke)
    requires ev.key !in ["i", "r", "h", "l", "j", "k", "d", "x", "backspace"]
    ensures NormalKeyBasics(st, ev) == st
  {
  }

  /** The second group of normal-mode tests only reacts to its own keys. */
  lemma JumpsIgnore(st: EditorState, ev: KeyStroke, cls: Classifier)
    requires ev.key !in ["w", "b", "g", "G", "$", "^"]
    ensures NormalKeyJumps(st, ev, cls) == st
  {
  }

  /** The third group of normal-mode tests only reacts to its own keys. */
  lemma RestIgnores(st: EditorState, ev: KeyStroke, cls: Classifier)
    requires ev.key !in ["p", "z", "w"]
    ensures NormalKeyRest(st, ev, cls) == st
  {
  }

  /** The mode keys of normal mode: `i`, `r`, `d`, `g` and `z` switch to
      insert, replace, delete, nav and scroll, touching neither text nor
      cursor. */
  lemma NormalModeSwitches(st: EditorState, ev: KeyStroke, cls: Classifier)
    requires st.mode == Normal && ev.key in ["i", "r", "d", "g", "z"]
    requires 0 <= st.cursor <= |st.text|
    ensures var r := AfterKey(st, ev, cls);
            r.text == st.text && r.cursor == st.cursor
            && r.mode == ModeOfKey(ev.key)
  {
    assert AfterNormalKey(st, ev, cls) == st.(mode := ModeOfKey(ev.key)) by {
      ModeKeyStep(st, ev, cls);
    }
  }

  /** The mode a normal-mode mode key switches to. */
  function ModeOfKey(k: string): Mode {
    match k
    case "i" => Insert
    case "r" => Replace
    case "d" => Delete
    case "g" => Nav
    case _ => Scroll
  }

  /** The normal-mode handler itself, for a mode key: only the mode changes. */
  lemma ModeKeyStep(st: EditorState, ev: KeyStroke, cls: Classifier)
    requires ev.key in ["i", "r", "d", "g", "z"]
    ensures AfterNormalKey(st, ev, cls) == st.(mode := ModeOfKey(ev.key))
  {
    var m := ModeOfKey(ev.key);
    assert |ev.key| == 1 && ev.key[0] in "irdgz";
    var s1 := NormalKeyBasics(st, ev);
    assert s1 == if ev.key in ["i", "r", "d"] then st.(mode := m) else st by {
      if ev.key !in ["i", "r", "d"] { BasicsIgnore(st, ev); }
    }
    var s2 := NormalKeyJumps(s1, ev, cls);
    assert s2 == if ev.key == "g" then s1.(mode := m) else s1 by {
      if ev.key != "g" { JumpsIgnore(s1, ev, cls); }
    }
    var s3 := NormalKeyRest(s2, ev, cls);
    assert s3 == if ev.key == "z" then s2.(mode := m) else s2 by {
      if ev.key != "z" { RestIgnores(s2, ev, cls); }
    }
    assert AfterCommonMove(s3, ev, cls) == s3 by {
      CommonMoveIgnores(s3, ev, cls);
    }
  }

  /** `$` goes to the end of the cursor's line and remembers column 999,
      so that later vertical moves stay at line ends. */
  lemma DollarGoesToLineEnd(st: EditorState, ev: KeyStroke, cls: Classifier)
    requires st.mode == Normal && ev.key == "$"
    requires 0 <= st.cursor <= |st.text|
    ensures var r := AfterKey(st, ev, cls); var y := PositionOf(st.text, st.cursor).y;
            r.text == st.text && r.rememberedColumn == 999
            && PositionOf(r.text, r.cursor) == Vec2(|Split(st.text)[y]|, y)
  {
    var e := st.cursor + ForwardLineLength(st.text, st.cursor);
    assert 0 <= e <= |st.text| && PositionOf(st.text, e) == Vec2(|Split(st.text)[PositionOf(st.text, st.cursor).y]|, PositionOf(st.text, st.cursor).y) by {
      LineEndMotion(st.text, st.cursor);
    }
    var s := st.(cursor := e, rememberedColumn := 999);
    assert AfterNormalKey(st, ev, cls) == s by {
      DollarStep(st, ev, cls);
    }
    NormalKeyValidated(st, ev, cls, s);
  }

  /** A completed normal-mode key whose handler leaves the cursor inside the
      text: checkCursorValid moves nothing but the screen. */
  lemma NormalKeyValidated(st: EditorState, ev: KeyStroke, cls: Classifier, s: EditorState)
    requires st.mode == Normal && AfterNormalKey(st, ev, cls) == s
    requires 0 <= s.cursor <= |s.text|
    ensures var r := AfterKey(st, ev, cls);
            r.text == s.text && r.cursor == s.cursor && r.rememberedColumn == s.rememberedColumn
            && r.mode == s.mode && r.copyBuffer == s.copyBuffer
  {
    assert AfterKey(st, ev, cls) == CursorValidated(s);
  }

  /** `^` goes to the start of the cursor's line. */
  lemma CaretGoesToLineStart(st: EditorState, ev: KeyStroke, cls: Classifier)
    requires st.mode == Normal && ev.key == "^"
    requires 0 <= st.cursor <= |st.text|
    ensures var r := AfterKey(st, ev, cls); var y := PositionOf(st.text, st.cursor).y;
            r.text == st.text && r.cursor == LineStart(st.text, y)
  {
    var s := st.cursor - BackwardLineLength(st.text, st.cursor);
    assert 0 <= s <= st.cursor && s == LineStart(st.text, PositionOf(st.text, st.cursor).y) by {
      LineStartMotion(st.text, st.cursor);
    }
    assert AfterNormalKey(st, ev, cls) == st.(cursor := s, rememberedColumn := -1) by {
      CaretStep(st, ev, cls);
    }
    NormalKeyValidated(st, ev, cls, st.(cursor := s, rememberedColumn := -1));
  }

  /** The normal-mode handler itself, for `$`: only the jump to the line's
      end happens, remembering column 999. */
  lemma DollarStep(st: EditorState, ev: KeyStroke, cls: Classifier)
    requires ev.key == "$"
    ensures AfterNormalKey(st, ev, cls) ==
              CursorAdjusted(st, ForwardLineLength(st.text, st.cursor)).(rememberedColumn := 999)
  {
    assert |ev.key| == 1 && ev.key[0] == '$';
    assert NormalKeyBasics(st, ev) == st by { BasicsIgnore(st, ev); }
    var s2 := CursorAdjusted(st, ForwardLineLength(st.text, st.cursor)).(rememberedColumn := 999);
    assert NormalKeyJumps(st, ev, cls) == s2;
    assert NormalKeyRest(s2, ev, cls) == s2 by { RestIgnores(s2, ev, cls); }
    assert AfterCommonMove(s2, ev, cls) == s2 by { CommonMoveIgnores(s2, ev, cls); }
  }

  /** The normal-mode handler itself, for `^`: only the jump to the line's
      start happens. */
  lemma CaretStep(st: EditorState, ev: KeyStroke, cls: Classifier)
    requires ev.key == "^"
    ensures AfterNormalKey(st, ev, cls) == CursorAdjusted(st, -BackwardLineLength(st.text, st.cursor))
  {
    assert |ev.key| == 1 && ev.key[0] == '^';
    assert NormalKeyBasics(st, ev) == st by { BasicsIgnore(st, ev); }
    var s2 := CursorAdjusted(st, -BackwardLineLength(st.text, st.cursor));
    assert NormalKeyJumps(st, ev, cls) == s2;
    assert NormalKeyRest(s2, ev, cls) == s2 by { RestIgnores(s2, ev, cls); }
    assert AfterCommonMove(s2, ev, cls) == s2 by { CommonMoveIgnores(s2, ev, cls); }
  }

  /** alt+w both moves by a word (the `w` test does not look at modifiers)
      and toggles wrapping, which resets the horizontal scroll. */
  lemma AltWMovesAndToggles(st: EditorState, ev: KeyStroke, cls: Classifier)
    requires st.mode == Normal && ev.key == "w" && ev.isAlt
    requires 0 <= st.cursor <= |st.text|
    ensures var r := AfterKey(st, ev, cls); var n := ForwardWordLength(st.text, st.cursor, cls);
            r.text == st.text && r.isWrapped == !st.isWrapped && r.horizontalScroll == 0
            && (st.cursor + n <= |st.text| ==> r.cursor == st.cursor + n)
  {
    var s1 := CursorAdjusted(st, ForwardWordLength(st.text, st.cursor, cls));
    assert AfterNormalKey(st, ev, cls) == WrappingToggled(s1) by {
      AltWStep(st, ev, cls);
    }
  }

  /** The normal-mode handler itself, for alt+w: a move by a word, then the
      wrapping toggle. */
  lemma AltWStep(st: EditorState, ev: KeyStroke, cls: Classifier)
    requires ev.key == "w" && ev.isAlt
    ensures AfterNormalKey(st, ev, cls) ==
              WrappingToggled(CursorAdjusted(st, ForwardWordLength(st.text, st.cursor, cls)))
  {
    assert |ev.key| == 1 && ev.key[0] == 'w';
    assert NormalKeyBasics(st, ev) == st by { BasicsIgnore(st, ev); }
    var s1 := CursorAdjusted(st, ForwardWordLength(st.text, st.cursor, cls));
    assert NormalKeyJumps(st, ev, cls) == s1;
    var s3 := WrappingToggled(s1);
    assert NormalKeyRest(s1, ev, cls) == s3;
    assert AfterCommonMove(s3, ev, cls) == s3 by { CommonMoveIgnores(s3, ev, cls); }
  }
}
