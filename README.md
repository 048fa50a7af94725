# A verified model of a shared terminal text editor

The repository is a multi-user, vi-like text editor that is served over
SSH. Every connected user gets an editor session over one shared text. This
project models four parts of it in Dafny and proves properties about them:

- **the editor** (`TextEditor` in `src/app/util/text-writer.ts`). It keeps
  the text, the cursor offset, the modal state (normal, insert, delete,
  replace, scroll, nav), the copy register, the remembered column used for
  vertical motion, the first shown line (`skippedRenderingLines`), the
  wrapping flag and horizontal scroll, and the cursors of the other
  sessions. The class `TextWriter.TextEditor` keeps these fields and
  updates them in place, method by method, as the source does. Each
  method is proved to leave exactly the state that a pure function of the
  `Editing` module describes:
  - `Editing` covers text edits and key handlers;
  - `CursorEngine` covers offsets, lines, columns, words and line motions;
  - `Screen` covers screen placement.

  The properties are proved about those functions in `EditorProperties`,
  `KeyProperties` and `Screen`.
- **the key decoder** (`getKeyStroke` and `KeyStroke` in
  `src/util/keys.ts`). It turns one chunk of terminal input bytes into a
  key name with ctrl/alt flags. `Keys` models the control-character,
  function-key and symbol tables, and every branch of the decoder, as pure
  functions.
- **the client registry** (`src/app/util/clients.ts`). This is the
  process-wide list of sessions, together with `broadcast`.
  `Clients.Registry` is a class whose `clients` sequence is reassigned the
  way the source reassigns its module variable.
- **the shell line-ending normalisation** (`src/util/shell-util.ts`). Before
  output is written to the SSH channel, it drops every `\r` and turns every
  `\n` into `\r\n`. `ShellUtil` models this transform.

JavaScript semantics are written out where they matter:
- `slice` counts a negative bound from the end, then clamps both bounds;
- `substring` treats a negative bound as 0;
- `%` has the sign of the dividend;
- writing one past the end of an array appends;
- numbers are unbounded integers.

Several behaviours of the code are modelled as written, not as one might
expect them to be:
- Backspace at offset 0 slices with a bound of -1, so it puts a copy of the
  text minus its last character in front of the text
  (`EditorProperties.BackspaceAtStartDuplicates`).
- `G` (jump to line n > 0) lands on the `\n` that ends line n - 1, not on
  the first character of line n.
- In insert mode, the `paste` key inserts the text `undefined`, then throws
  before the cursor moves or is validated.
- `$` sets the remembered column to 999.
- Alt+w both moves forward by a word and toggles wrapping.
- `broadcast` delivers to every registered client, the sender included
  (`Clients.Registry.Broadcast`).
- `setText("hello, world")` over `"hello world"` with the cursor at 6 puts
  the cursor at 7. The common prefix `"hello"` ends before the cursor and
  the text grew by one (`EditorProperties.FollowCursorExample`).

## Model

| member | source | states |
|---|---|---|
| `Strings.SliceBound` | src/app/util/text-writer.ts:126-127 | a `slice` bound resolves into `[0, len]`, and an in-range bound is itself |
| `Strings.Slice` | src/app/util/text-writer.ts:126-127 | `slice(start, end)` is the run of the text from the resolved start: exactly `s[start..end]` for in-range bounds, and empty when the resolved end is not after the resolved start |
| `Strings.SliceFrom` | src/app/util/text-writer.ts:132-134 | `slice(start)` is a suffix: an in-range start drops that many characters, a negative one keeps that many from the end, and out-of-range starts give the empty or the whole text |
| `Strings.Prefix` | src/app/util/text-writer.ts:268-271 | `substring(0, k)` is the first `k` characters, empty for `k <= 0` and the whole text for `k` past its end |
| `Strings.LastIndexOf` | src/app/util/text-writer.ts:270-273 | the result is -1 or an index holding the character, with no later occurrence |
| `Strings.CountConcat` | src/app/util/text-writer.ts:268-269 | the number of `\n` in a concatenation is the sum of the counts |
| `Strings.DecimalString` | src/util/keys.ts:140 | a number prints as at least one decimal digit |
| `CursorEngine.Split` | src/app/util/text-writer.ts:161 | `split("\n")` yields one more line than there are `\n`, and no line holds a `\n` |
| `CursorEngine.JoinSplit` | src/app/util/text-writer.ts:231 | joining the lines of a text with `\n` gives the text back |
| `CursorEngine.SplitJoin` | src/app/util/text-writer.ts:241-242 | splitting joined newline-free lines gives the lines back |
| `CursorEngine.SplitConcat` | src/app/util/text-writer.ts:126-127 | splitting a concatenation glues the last line of the first part to the first line of the second |
| `CursorEngine.LastLineLength` | src/app/util/text-writer.ts:270-274 | the column `index - lastIndexOf("\n") - 1` is the length of the last line before the index |
| `CursorEngine.LineCount` | src/app/util/text-writer.ts:161 | a text has at least one line |
| `CursorEngine.JoinConcat` | src/app/util/text-writer.ts:187-188 | joining two non-empty runs of lines is joining each and putting one `\n` between them |
| `CursorEngine.JoinedLength` | src/app/util/text-writer.ts:256-259 | the first n lines joined are no longer than the text, shorter when some line is left out, and the whole text when none is |
| `CursorEngine.PositionOf` | src/app/util/text-writer.ts:266-277 | the row of an offset is a line of the text, and the column of an offset is not negative |
| `CursorEngine.TextAroundLine` | src/app/util/text-writer.ts:256-259 | the text is the lines before row y, row y and the lines after, and the lines before row y are `LineStart(y)` long |
| `CursorEngine.LineStartStep` | src/app/util/text-writer.ts:184-190 | line y + 1 starts one past the end of line y |
| `CursorEngine.LineBoundaries` | src/app/util/text-writer.ts:207-211 | a line ends at a `\n` or at the end of the text, and every line after the first starts right after a `\n` |
| `CursorEngine.PositionDecompose` | src/app/util/text-writer.ts:266-277 | every offset is its line's start plus its column, and the column is at most the line's length |
| `CursorEngine.PositionAt` | src/app/util/text-writer.ts:266-277 | the offset `LineStart(y) + x` of an in-range column lies in the text and maps back to `(x, y)` (round trip) |
| `CursorEngine.ForwardLineLength` | src/app/util/text-writer.ts:207-211 | the characters from the cursor to the end of its line are never negative and never run past the end of the text |
| `CursorEngine.BackwardLineLength` | src/app/util/text-writer.ts:213-215 | the characters from the start of the cursor's line to the cursor (its column) are between 0 and the offset |
| `CursorEngine.LineEndMotion` | src/app/util/text-writer.ts:207-211 | moving forward by the forward line length lands on the end of the same line, on its `\n` or the end of the text |
| `CursorEngine.LineStartMotion` | src/app/util/text-writer.ts:213-215 | moving back by the backward line length lands on column 0 of the same line, right after a `\n` or at offset 0 |
| `CursorEngine.LeadingRun` | src/app/util/text-writer.ts:197 | the longest prefix of one character class |
| `CursorEngine.TrailingRun` | src/app/util/text-writer.ts:203 | the longest suffix of one character class |
| `CursorEngine.ForwardWordLength` | src/app/util/text-writer.ts:195-199 | the first match of the word pattern after the cursor is the maximal run of the cursor character's class, and is empty only at the end of the text |
| `CursorEngine.BackwardWordLength` | src/app/util/text-writer.ts:201-205 | the match anchored at the cursor is the maximal run of the class of the character before the cursor, and is empty only at offset 0 |
| `CursorEngine.TrailingRunAppend` | src/app/util/text-writer.ts:203 | appending characters of the run's class extends the trailing run by their number |
| `CursorEngine.WordMotionRoundTrip` | src/app/util/text-writer.ts:548-551 | `w` then `b` returns to the start of the word the cursor was in: never past the cursor, exactly to it when the cursor starts a run, and only over characters of the cursor's class |
| `CursorEngine.TrimEnd` | src/app/util/text-writer.ts:241 | `trimEnd` removes the longest all-whitespace suffix, and only that |
| `CursorEngine.TrimStart` | src/app/util/text-writer.ts:230 | the start half of `trim` removes the longest all-whitespace prefix, and only that |
| `CursorEngine.Trim` | src/app/util/text-writer.ts:230 | `trim` leaves no whitespace at either end |
| `CursorEngine.TrimKeepsOut` | src/app/util/text-writer.ts:230 | `trim` adds no character: one the line lacks, its trimmed form lacks too |
| `Keys.KeyStroke.ToString` | src/util/keys.ts:115-123 | the name is `ctrl+` when ctrl is held, then `alt+` when alt is held, then the key |
| `Keys.ToStringSingle` | src/util/keys.ts:115-123 | a key prints as one character exactly when it has no modifier and a one-character key (both directions) |
| `Keys.FunctionKey` | src/util/keys.ts:35-64 | a function-key name is found only for `O` plus one character, or for `[` followed by a digit 1 to 6 or `Z` |
| `Keys.CtrlChar` | src/util/keys.ts:2-32 | the control table names only 1 to 27, 32 and 127 |
| `Keys.Symbol` | src/util/keys.ts:67-100 | the symbol table maps a printable byte only to the character it encodes |
| `Keys.CharsOf` | src/util/keys.ts:157 | `String.fromCharCode(...bytes)` is one character per byte |
| `Keys.GetKeyStroke` | src/util/keys.ts:126-207 | the raw bytes are kept; a multi-byte chunk that is not an escape sequence is decoded as UTF-8 without modifiers |
| `Keys.CtrlLetter` | src/util/keys.ts:128-135 | bytes 1 to 26 other than tab and return decode as ctrl plus the letter |
| `Keys.OtherControlBytes` | src/util/keys.ts:128-141 | other control bytes decode to their table name or `char(n)`, with no modifier |
| `Keys.PrintableByte` | src/util/keys.ts:128-143 | any other single byte decodes to its own character |
| `Keys.AltKey` | src/util/keys.ts:146-154 | ESC followed by one byte decodes as alt plus that byte's character |
| `Keys.ArrowKeys` | src/util/keys.ts:171-186 | `ESC [ A/B/C/D/H/F` decodes as an arrow, home or end key whatever bytes follow, since no function-key sequence starts that way |
| `Keys.CtrlArrowKeys` | src/util/keys.ts:188-195 | `ESC [ 1 ; 5 A..D` decodes as ctrl plus an arrow |
| `Keys.FunctionKeySequences` | src/util/keys.ts:35-64 | `ESC O P`, `ESC [ 1 5 ~`, `ESC [ 3 ~` and `ESC [ Z` decode as f1, f5, delete and shift+tab |
| `Keys.FunctionKeyDecodes` | src/util/keys.ts:156-168 | `ESC O …`, or `ESC [ …` ending in `~` or `Z`, that names a function key decodes as that key, without modifiers |
| `Keys.EscapeFallThrough` | src/util/keys.ts:145-206 | an escape chunk of three or more bytes that is neither a function key nor `ESC [` plus an arrow letter falls through to UTF-8 decoding without modifiers |
| `Keys.UnknownEscapeDecoded` | src/util/keys.ts:145-206 | `ESC [ X Y` is not recognised and is decoded as UTF-8 |
| `Keys.SingleByteNames` | src/util/keys.ts:115-143 | bytes 3, 65 and 127 print as `ctrl+c`, `A` and `backspace` |
| `Keys.EscapeSequenceNames` | src/util/keys.ts:115-175 | `ESC x` prints as `alt+x` and `ESC [ A` as `up` |
| `Clients.Without` | src/app/util/clients.ts:10-14 | filtering out a client removes every occurrence of it and adds nothing |
| `Clients.WithoutConcat` | src/app/util/clients.ts:10-14 | filtering distributes over concatenation |
| `Clients.WithoutKeepsOthers` | src/app/util/clients.ts:10-14 | filtering removes exactly that client's occurrences and keeps every other client as often as before |
| `Clients.WithoutAbsent` | src/app/util/clients.ts:10-14 | unregistering a client that is not registered changes nothing |
| `Clients.RegisterThenUnregister` | src/app/util/clients.ts:6-14 | registering and then unregistering a client leaves the list as if only the unregistration had happened |
| `Clients.Registry.constructor` | src/app/util/clients.ts:4 | the registry starts empty |
| `Clients.Registry.Register` | src/app/util/clients.ts:6-8 | the client is appended |
| `Clients.Registry.Unregister` | src/app/util/clients.ts:10-14 | the list becomes the old list without the client |
| `Clients.Registry.Broadcast` | src/app/util/clients.ts:16-20 | the event goes to every registered client, the sender included, in registration order, one delivery each |
| `ShellUtil.StripCarriageReturns` | src/util/shell-util.ts:11 | no `\r` is left, and every other character is kept as often as before |
| `ShellUtil.ExpandLineFeeds` | src/util/shell-util.ts:11 | the output grows by one character per `\n` |
| `ShellUtil.Normalize` | src/util/shell-util.ts:11 | in what is written, every `\n` follows a `\r` and every `\r` precedes a `\n`; the length is the input's minus its `\r` plus its `\n` |
| `ShellUtil.StripUndoesExpand` | src/util/shell-util.ts:11 | dropping the `\r` again undoes the expansion (round trip) |
| `ShellUtil.StripConcat` | src/util/shell-util.ts:11 | dropping `\r` distributes over concatenation |
| `ShellUtil.StripAfterNormalize` | src/util/shell-util.ts:11 | the output carries the input's text: with `\r` removed they are equal |
| `ShellUtil.NormalizeIdempotent` | src/util/shell-util.ts:11 | writing already normalised text changes nothing |
| `ShellUtil.NormalizeLine` | src/util/shell-util.ts:14-16 | `writeLine` output ends with `\r\n` |
| `Editing.InitialState` | src/app/util/text-writer.ts:38-46 | a new editor holds the given text with the cursor at 0 in normal mode, and is valid whatever the character classes |
| `Editing.InsertText` | src/app/util/text-writer.ts:125-127 | the inserted text sits at the offset, with the text before and after it kept |
| `Editing.RemoveLine` | src/app/util/text-writer.ts:231 | removing a line drops that line and one separator; removing the only line leaves the empty text |
| `Editing.InsertLine` | src/app/util/text-writer.ts:240-242 | inserting a line adds that line and one separator |
| `Editing.DeleteOffset` | src/app/util/text-writer.ts:131-134 | one character goes at an in-range offset; nothing changes past the end |
| `Editing.Spliced` | src/app/util/text-writer.ts:221-224 | `toSpliced` removes exactly the run from `start` |
| `Editing.ReplaceChar` | src/app/util/text-writer.ts:602-604 | the character at the cursor is overwritten, or appended at the end |
| `Editing.CursorAdjusted` | src/app/util/text-writer.ts:146-152 | the cursor moves by the delta when that stays in the text and is clamped into it otherwise; the remembered column is cleared |
| `Editing.LineAdjusted` | src/app/util/text-writer.ts:156-193 | a vertical move keeps the text, mode and register; it changes nothing or lands inside the text; the remembered column stays a column or -1 |
| `Editing.LandedOnLine` | src/app/util/text-writer.ts:163-192 | landing on an existing row changes only the cursor and the remembered column; the cursor is the row's start plus the column `Landing` picks, inside the text, so the final clamp never fires |
| `Editing.Landing` | src/app/util/text-writer.ts:163-181 | the landing column never passes the target row's end; the remembered column stays a column or -1 |
| `Editing.ScrollWindow` | src/app/util/text-writer.ts:514-524 | the first shown line is not negative, and the cursor's row is on screen above the status line |
| `Editing.CursorValidated` | src/app/util/text-writer.ts:513-530 | the cursor is clamped into the text and the first shown line is not negative; text, mode, register and remembered column are kept |
| `Editing.JumpedToLine` | src/app/util/text-writer.ts:253-264 | a jump keeps the text, mode, register and remembered column |
| `Editing.Inserted` | src/app/util/text-writer.ts:125-129 | the text grows by the inserted length and the cursor stays inside it |
| `Editing.DeletedAt` | src/app/util/text-writer.ts:131-136 | the cursor stays inside the text; the remembered column is cleared |
| `Editing.IsLastOnLine` | src/app/util/text-writer.ts:139-142 | inside the text, the test holds exactly when the cursor is at most one character from the end of its line; at or past the end of the text it always holds |
| `Editing.DeletedUnderCursor` | src/app/util/text-writer.ts:138-144 | the cursor stays inside the text |
| `Editing.WordDeleted` | src/app/util/text-writer.ts:217-226 | a word put in the register never holds a line break outside trailing whitespace |
| `Editing.LineDeleted` | src/app/util/text-writer.ts:228-232 | a deleted line in the register pastes as exactly one line |
| `Editing.Pasted` | src/app/util/text-writer.ts:234-251 | pasting keeps the mode, register and remembered column |
| `Editing.WrappingToggled` | src/app/util/text-writer.ts:646-651 | only the wrapping flag flips, and the horizontal scroll resets to 0 |
| `Editing.TextReplaced` | src/app/util/text-writer.ts:52-59 | `setText` changes only the text and the cursor, and a cursor inside the old text ends inside the new one |
| `Editing.FollowCursor` | src/app/util/text-writer.ts:61-98 | after a remote edit a non-negative cursor lies in the new text |
| `Editing.CommonPrefixLength` | src/app/util/text-writer.ts:69-75 | the longest common prefix: equal up to it, different right after it |
| `Editing.AfterCommonMove` | src/app/util/text-writer.ts:626-644 | the common moves keep the editor consistent: cursor not negative, remembered column a column or -1, register pastes as one line |
| `Editing.AfterNormalKey` | src/app/util/text-writer.ts:532-570 | every normal-mode key keeps the editor consistent |
| `Editing.NormalKeyBasics` | src/app/util/text-writer.ts:533-546 | mode switches, h/l/j/k, d, x and backspace keep the register and keep the cursor and remembered column in range |
| `Editing.NormalKeyJumps` | src/app/util/text-writer.ts:548-561 | w, b, g, G, `$` and `^` keep the register and keep the cursor and remembered column in range |
| `Editing.NormalKeyRest` | src/app/util/text-writer.ts:563-567 | p, z and alt+w keep the register and remembered column |
| `Editing.AfterInsertKey` | src/app/util/text-writer.ts:572-592 | every insert-mode key keeps the editor consistent |
| `Editing.InsertKeyThrows` | src/app/util/text-writer.ts:579-581 | the insert-mode handler throws exactly on the `paste` key, whatever its modifiers |
| `Editing.AfterDeleteKey` | src/app/util/text-writer.ts:594-598 | `dw`/`dd` keep the editor consistent |
| `Editing.AfterReplaceKey` | src/app/util/text-writer.ts:600-607 | replace mode returns to normal mode and keeps the cursor, register and remembered column |
| `Editing.AfterScrollKey` | src/app/util/text-writer.ts:609-619 | scroll mode returns to normal mode and keeps the text and register |
| `Editing.AfterNavKey` | src/app/util/text-writer.ts:621-624 | nav mode returns to normal mode and keeps the text and register |
| `Editing.Dispatched` | src/app/util/text-writer.ts:489-509 | the mode switch of onKey keeps the cursor non-negative, the remembered column at least -1 and the register pasting as one line |
| `Editing.KeyCompletes` | src/app/util/text-writer.ts:488-511 | a key runs to its end in every mode except the `paste` key in insert mode |
| `Editing.AfterKey` | src/app/util/text-writer.ts:488-511 | every completed key keeps the editor valid: cursor inside the text, first shown line not negative, register pastes as one line |
| `Editing.TrimEndAllWhitespace` | src/app/util/text-writer.ts:241 | `trimEnd` of all-whitespace text is empty |
| `Editing.WordRegister` | src/app/util/text-writer.ts:217-226 | a cut word with a `\n` is all whitespace, so it pastes as one (empty) line |
| `Editing.LineRegister` | src/app/util/text-writer.ts:230 | a trimmed line plus `\n` pastes as one line |
| `EditorProperties.InsertPutsTextAtCursor` | src/app/util/text-writer.ts:125-129 | insert puts the text at the cursor and moves the cursor past it |
| `EditorProperties.BackspaceRemovesPrevious` | src/app/util/text-writer.ts:585-586 | backspace after offset 0 removes the character before the cursor and steps back |
| `EditorProperties.BackspaceAtStartDuplicates` | src/app/util/text-writer.ts:131-136 | backspace at offset 0 makes the text its copy minus the last character followed by the text |
| `EditorProperties.BackspaceAtStartExample` | src/app/util/text-writer.ts:131-136 | backspace at the start of `"abc"` gives `"ababc"` |
| `EditorProperties.DeleteUnderCursorSpec` | src/app/util/text-writer.ts:138-144 | `x` removes exactly the character under the cursor and steps back when it was the last of its line; at the end of the text it keeps the text and still steps back |
| `EditorProperties.DeleteWordSpec` | src/app/util/text-writer.ts:217-226 | `dw` cuts the word run at the cursor into the register, and putting it back restores the text; with no word nothing changes |
| `EditorProperties.RemoveLineLines` | src/app/util/text-writer.ts:231 | removing a line of a multi-line text leaves the other lines in order |
| `EditorProperties.DeleteLineSpec` | src/app/util/text-writer.ts:228-232 | `dd` puts the trimmed line plus `\n` in the register and removes that line, leaving one line fewer (or empty text) |
| `EditorProperties.PasteEmpty` | src/app/util/text-writer.ts:235 | pasting an empty register changes nothing |
| `EditorProperties.PasteCharacters` | src/app/util/text-writer.ts:244-250 | a register without `\n` goes in after the cursor, and the cursor advances by its length |
| `EditorProperties.InsertLineLines` | src/app/util/text-writer.ts:240-242 | inserting a line puts it between the other lines |
| `EditorProperties.PasteLine` | src/app/util/text-writer.ts:236-243 | a register with `\n` becomes a new line right below the cursor's line, and the cursor lands at the end of the cursor's line |
| `EditorProperties.JoinedLengthIsLineEnd` | src/app/util/text-writer.ts:256-259 | the length of the first n lines joined is the offset of the `\n` that ends line n - 1 |
| `EditorProperties.JumpLandsOnLineEnd` | src/app/util/text-writer.ts:253-264 | jumping to line n > 0 lands on the `\n` that ends line n - 1 |
| `EditorProperties.JumpToFirstLine` | src/app/util/text-writer.ts:621-622 | `gg` goes to offset 0 |
| `EditorProperties.LineMoveOutOfRange` | src/app/util/text-writer.ts:157-161 | a vertical move by 0, or to a row outside the text, changes nothing |
| `EditorProperties.LineMoveLands` | src/app/util/text-writer.ts:156-193 | a vertical move lands inside the target row, keeping the text, mode and register |
| `EditorProperties.LineMoveKeepsColumn` | src/app/util/text-writer.ts:163-190 | with no remembered column and a target row that is long enough, the column is kept |
| `EditorProperties.LineMoveToShorterLine` | src/app/util/text-writer.ts:165-172 | moving to a shorter row remembers the column and lands at the row's end |
| `EditorProperties.LineMoveStaysAtEnd` | src/app/util/text-writer.ts:171-172 | while the remembered column is past the target row's end, the cursor lands at the row's end |
| `EditorProperties.LineMoveRestoresColumn` | src/app/util/text-writer.ts:173-178 | a row longer than the remembered column restores that column and clears the memory |
| `EditorProperties.LineMoveRememberedEqualsLength` | src/app/util/text-writer.ts:163-179 | when the remembered column equals the target row's length and the cursor comes from further right, it lands one column before that row's end |
| `EditorProperties.DownThroughShortLineAndBack` | src/app/util/text-writer.ts:156-193 | down through a shorter line and back up returns to the starting offset |
| `EditorProperties.ScrollWindowKeepsVisible` | src/app/util/text-writer.ts:514-524 | a cursor row already on screen does not scroll the window |
| `EditorProperties.ScrollWindowMovesLeast` | src/app/util/text-writer.ts:514-522 | a row above the window becomes the first shown line; a row below becomes the last |
| `EditorProperties.ScrollWindowIdempotent` | src/app/util/text-writer.ts:513-530 | checking the window twice is the same as checking it once |
| `EditorProperties.ValidatedCursorIsShown` | src/app/util/text-writer.ts:513-530 | after checkCursorValid the cursor's row is on screen above the status line |
| `EditorProperties.SetSameText` | src/app/util/text-writer.ts:52-59 | setting the same text changes nothing |
| `EditorProperties.FollowCursorEmpty` | src/app/util/text-writer.ts:62-66 | an empty old or new text puts the cursor at 0 |
| `EditorProperties.FollowCursorEditAfter` | src/app/util/text-writer.ts:68-97 | an edit after the cursor leaves the cursor where it is |
| `EditorProperties.FollowCursorInsertBefore` | src/app/util/text-writer.ts:61-97 | an insertion before the cursor shifts it by the inserted length, onto the same character |
| `EditorProperties.FollowCursorDeleteBefore` | src/app/util/text-writer.ts:61-97 | a deletion before the cursor shifts it back by the deleted length, onto the same character |
| `EditorProperties.PrefixStopsAt` | src/app/util/text-writer.ts:69-75 | two texts equal before position p and different at p share a prefix of exactly p characters |
| `EditorProperties.FollowCursorExample` | src/app/util/text-writer.ts:61-97 | `"hello world"` → `"hello, world"` with the cursor at 6 puts the cursor at 7 |
| `KeyProperties.CompletedKeyValidates` | src/app/util/text-writer.ts:488-530 | after every completed key the cursor is in the text and its row is on screen |
| `KeyProperties.OneShotModes` | src/app/util/text-writer.ts:594-624 | delete, replace, scroll and nav mode return to normal mode after one key |
| `KeyProperties.VisualModesIgnoreKeys` | src/app/util/text-writer.ts:488-511 | the visual modes have no handler: text, mode and cursor are kept |
| `KeyProperties.ReplaceOverwrites` | src/app/util/text-writer.ts:600-607 | `r` plus a character overwrites the character under the cursor, keeping the length |
| `KeyProperties.ReplaceAtEndAppends` | src/app/util/text-writer.ts:600-607 | `r` at the end of the text appends the character |
| `KeyProperties.ReplaceIgnoresOtherKeys` | src/app/util/text-writer.ts:600-607 | `r` plus a named or modified key changes no text |
| `KeyProperties.InsertTypes` | src/app/util/text-writer.ts:572-576 | a printable key in insert mode is typed at the cursor, and the cursor moves past it |
| `KeyProperties.InsertPasteKeyThrows` | src/app/util/text-writer.ts:579-581 | the paste key inserts `undefined` and throws before the cursor moves |
| `KeyProperties.EscapeLeavesInsert` | src/app/util/text-writer.ts:584 | escape leaves insert mode without changing the text or cursor |
| `KeyProperties.EscapeStep` | src/app/util/text-writer.ts:584-591 | the insert-mode handler, on escape, changes only the mode, to normal |
| `KeyProperties.ReturnBreaksLine` | src/app/util/text-writer.ts:589 | return inserts a line break at the cursor, adding one line |
| `KeyProperties.ReturnStep` | src/app/util/text-writer.ts:590 | the insert-mode handler, on return, only types a line break |
| `KeyProperties.LineBreakTyped` | src/app/util/text-writer.ts:125-127 | typing `\n` adds exactly one line |
| `KeyProperties.NormalModeSwitches` | src/app/util/text-writer.ts:533-564 | i, r, d, g and z switch to insert, replace, delete, nav and scroll mode without moving |
| `KeyProperties.ModeKeyStep` | src/app/util/text-writer.ts:532-569 | the normal-mode handler, on a mode key, changes only the mode |
| `KeyProperties.DollarGoesToLineEnd` | src/app/util/text-writer.ts:556-559 | `$` goes to the end of the cursor's line and sets the remembered column to 999 |
| `KeyProperties.DollarStep` | src/app/util/text-writer.ts:532-569 | the normal-mode handler, on `$`, only moves to the line's end and remembers column 999 |
| `KeyProperties.CaretGoesToLineStart` | src/app/util/text-writer.ts:560-561 | `^` goes to the start of the cursor's line |
| `KeyProperties.CaretStep` | src/app/util/text-writer.ts:532-569 | the normal-mode handler, on `^`, only moves back to the line's start |
| `KeyProperties.AltWMovesAndToggles` | src/app/util/text-writer.ts:548-567 | alt+w moves forward by a word and also toggles wrapping |
| `KeyProperties.AltWStep` | src/app/util/text-writer.ts:532-569 | the normal-mode handler, on alt+w, moves by a word and then toggles wrapping, and does nothing else |
| `Screen.IsPositionVisible` | src/app/util/text-writer.ts:307-314 | the status line is never a visible text position, and nothing is visible without a column and a row above that line |
| `Screen.ScrolledTo` | src/app/util/text-writer.ts:292-298 | after scrolling, the own cursor's column is in the window |
| `Screen.JsRemainder` | src/app/util/text-writer.ts:283 | `%` agrees with the mathematical remainder on non-negative numbers and takes the dividend's sign otherwise |
| `Screen.SpliceRemoved` | src/app/util/text-writer.ts:337 | `splice` returns the in-range run of lines, only lines of the text, and nothing for a count of 0 or less |
| `Screen.ExtraRows` | src/app/util/text-writer.ts:338 | wrapping never adds more rows than the lines' characters fill at that width |
| `Screen.ExtraRowsConcat` | src/app/util/text-writer.ts:338 | the rows added by wrapping add up over runs of lines |
| `Screen.ShortLinesAddNoRows` | src/app/util/text-writer.ts:338 | lines shorter than the screen width add no rows |
| `Screen.LongLineAddsRows` | src/app/util/text-writer.ts:338 | a line as wide as the screen adds a row |
| `Screen.PreviousLineCumulative` | src/app/util/text-writer.ts:332-339 | wrapping adds no rows when the text is not wrapped, and none above the first shown line |
| `Screen.NoWrappedRows` | src/app/util/text-writer.ts:332-339 | with no line as wide as the screen, wrapping adds no rows above any line |
| `Screen.ActualXY` | src/app/util/text-writer.ts:279-305 | only the own cursor moves the horizontal scroll, after which its column is on screen; in wrapped mode every column is on screen |
| `Screen.ScrollStaysWhenShown` | src/app/util/text-writer.ts:292-298 | a cursor column already in the window does not scroll it |
| `Screen.WrappedMatchesUnwrapped` | src/app/util/text-writer.ts:279-305 | with no long lines, wrapped placement equals unscrolled placement |
| `Screen.OwnCursorVisible` | src/app/util/text-writer.ts:307-314 | in unwrapped mode, after checkCursorValid, the own cursor is drawn at a visible position |
| `TextWriter.CommonPrefixIsLongest` | src/app/util/text-writer.ts:69-75 | the prefix scan stops at the longest common prefix |
| `TextWriter.ForeignCursor.constructor` | src/app/util/text-writer.ts:41-45 | a cursor marker holds its colour, name and position |
| `TextWriter.TextEditor.constructor` | src/app/util/text-writer.ts:38-46 | a new editor is in normal mode at offset 0 with an empty register and no foreign cursors |
| `TextWriter.TextEditor.SetText` | src/app/util/text-writer.ts:52-59 | the new text is set and the cursor follows the edit |
| `TextWriter.TextEditor.RespondToTextMovement` | src/app/util/text-writer.ts:61-98 | the two scans leave the cursor where `FollowCursor` says |
| `TextWriter.TextEditor.SetTerminalSize` | src/app/util/text-writer.ts:100-105 | only the terminal size changes |
| `TextWriter.TextEditor.AddForeignCursor` | src/app/util/text-writer.ts:107-111 | a marker that is not the own one and not yet listed is appended; the list stays free of duplicates and of the own marker |
| `TextWriter.TextEditor.ClearForeignCursors` | src/app/util/text-writer.ts:113-115 | the list is emptied |
| `TextWriter.TextEditor.SetMode` | src/app/util/text-writer.ts:117-119 | only the mode changes |
| `TextWriter.TextEditor.ToggleWrapping` | src/app/util/text-writer.ts:646-651 | as `Editing.WrappingToggled` |
| `TextWriter.TextEditor.AdjustCursorPosition` | src/app/util/text-writer.ts:146-152 | as `Editing.CursorAdjusted` |
| `TextWriter.TextEditor.AdjustCursorLine` | src/app/util/text-writer.ts:156-193 | as `Editing.LineAdjusted` |
| `TextWriter.TextEditor.LandingColumn` | src/app/util/text-writer.ts:163-181 | the column rules run step by step give exactly `Editing.Landing` |
| `TextWriter.TextEditor.JumpToLine` | src/app/util/text-writer.ts:253-264 | as `Editing.JumpedToLine` |
| `TextWriter.TextEditor.CheckCursorValid` | src/app/util/text-writer.ts:513-530 | as `Editing.CursorValidated` |
| `TextWriter.TextEditor.Insert` | src/app/util/text-writer.ts:125-129 | as `Editing.Inserted` |
| `TextWriter.TextEditor.DeleteAt` | src/app/util/text-writer.ts:131-136 | as `Editing.DeletedAt` |
| `TextWriter.TextEditor.DeleteUnderCursor` | src/app/util/text-writer.ts:138-144 | as `Editing.DeletedUnderCursor` |
| `TextWriter.TextEditor.DeleteWord` | src/app/util/text-writer.ts:217-226 | as `Editing.WordDeleted` |
| `TextWriter.TextEditor.DeleteLine` | src/app/util/text-writer.ts:228-232 | as `Editing.LineDeleted` |
| `TextWriter.TextEditor.Paste` | src/app/util/text-writer.ts:234-251 | as `Editing.Pasted` |
| `TextWriter.TextEditor.OnKey` | src/app/util/text-writer.ts:488-511 | as `Editing.AfterKey`; it reports whether the handler ran to its end |
| `TextWriter.TextEditor.OnNormalKey` | src/app/util/text-writer.ts:532-570 | as `Editing.AfterNormalKey` |
| `TextWriter.TextEditor.OnInsertKey` | src/app/util/text-writer.ts:572-592 | as `Editing.AfterInsertKey`; it reports the throwing paste key |
| `TextWriter.TextEditor.OnDeleteKey` | src/app/util/text-writer.ts:594-598 | as `Editing.AfterDeleteKey` |
| `TextWriter.TextEditor.OnReplaceKey` | src/app/util/text-writer.ts:600-607 | as `Editing.AfterReplaceKey` |
| `TextWriter.TextEditor.OnScrollKey` | src/app/util/text-writer.ts:609-619 | as `Editing.AfterScrollKey` |
| `TextWriter.TextEditor.OnNavKey` | src/app/util/text-writer.ts:621-624 | as `Editing.AfterNavKey` |
| `TextWriter.TextEditor.ProcessCommonMove` | src/app/util/text-writer.ts:626-644 | as `Editing.AfterCommonMove` |
| `TextWriter.TextEditor.GetActualXYFromIndex` | src/app/util/text-writer.ts:279-305 | returns the `Screen.ActualXY` position and stores its horizontal scroll |

## Left out

- `commitToTerminal` and `renderForeignCursors` (src/app/util/text-writer.ts:341-486) are left out. They write terminal control codes to the SSH channel (output I/O). So are the render caches `_previousRenderedText` and `_previousSkippedLines`, which `setTerminalSize` and `toggleWrapping` also reset.
- The own cursor marker's position is updated only inside `commitToTerminal`, so the model never changes it after construction.
- `getText`, `getMode`, `getCursorLineAndOffset` and `getActualCursorXY` are plain reads or calls with the cursor. The model reads the fields and calls `PositionOf`/`ActualXY` in their place.
- Unicode character classes (`\p{L}`, `\p{N}`, `\s`) are an abstract `Classifier` parameter with three classes. The word patterns are modelled as the maximal run of one class. The proofs that the register pastes as one line assume that `\n` is whitespace, as it is for JavaScript's `\s`.
- `TextDecoder` is a function parameter of `Keys.GetKeyStroke`. Its `catch` branch is left out, because a non-fatal decoder does not throw.
- `createRandomColor` is left out (randomness). The colour of the own cursor is a constructor parameter.
- The terminal size is a constructor parameter. In the source it stays unset until the first `setTerminalSize`.
- `Screen.ActualXY`, `Screen.PreviousLineCumulative` and `TextWriter.TextEditor.GetActualXYFromIndex` require a terminal at least one column wide. With width 0, JavaScript computes `NaN`/`Infinity`, which integers cannot represent.
- `KeyProperties.CompletedKeyValidates` states the on-screen bound only for terminals at least two rows high. Below that, no text row fits above the status line.
- `Clients.Registry.Broadcast` returns the list of deliveries instead of calling `sendEvent` on each application. What the receiving applications do, and re-entrant registration during a broadcast, are outside this model (`src/app/application.ts` is not part of this model).
- The `ShellUtil` functions model the transform applied before `channel.write`. The SSH channel itself is output I/O.
- `TextWriter.TextEditor.OnNormalKey` runs its key tests in three helper methods (`NormalKeyBasicTests`, `NormalKeyJumpTests`, `NormalKeyOtherTests`) in source order, so that each proof stays small.
- JavaScript numbers are IEEE doubles. The model uses unbounded integers, so it does not capture precision loss above 2^53.
- Strings are sequences of Dafny `char` here, which are Unicode scalar values, and sequences of UTF-16 code units in the source. The two agree on every character of the Basic Multilingual Plane outside the surrogate range. Bytes decoded by `String.fromCharCode` map to the character with the same code.
- Characters outside the Basic Multilingual Plane (an emoji, say) are one `char` here but two code units in the source. Insert mode (src/app/util/text-writer.ts:573) and replace mode (src/app/util/text-writer.ts:601) type a key only when its `toString()` has length 1. So the source ignores such a key, while the model types it.
- For the same reason, every cursor offset, column and line length after such a character is one smaller per character here than in the source.
- Lone surrogates, which a JavaScript string can hold, cannot be represented by Dafny `char`.
