/** Cursor arithmetic of the editor (src/app/util/text-writer.ts): the buffer
    is one flat string whose lines are separated by '\n', and the cursor is an
    offset into it. Everything here is a pure function of the text and an
    offset. */
module CursorEngine {
  import opened Strings

  /** The three character classes of the word regexes: `[\p{L}\p{N}_]`,
      `[^\p{L}\p{N}_\s]` and `\s`. They are disjoint and cover every character.
      Which class a character is in comes from Unicode tables the model does
      not carry, so the classification is a parameter. */
  datatype CharClass = WordChar | Punctuation | Whitespace

  type Classifier = char -> CharClass

  /** A column (`x`) and a line (`y`). */
  datatype Vec2 = Vec2(x: int, y: int)

  // ---------------------------------------------------------------------
  // Lines: text.split("\n") and lines.join("\n")
  // ---------------------------------------------------------------------

  /** `s.split("\n")`. */
  function Split(s: string): (lines: seq<string>)
    ensures |lines| == Count(s, '\n') + 1
    ensures forall i :: 0 <= i < |lines| ==> '\n' !in lines[i]
    decreases |s|
  {
    if s == [] then [[]]
    else
      var init := Split(s[..|s| - 1]);
      var c := s[|s| - 1];
      if c == '\n' then init + [[]]
      else init[..|init| - 1] + [init[|init| - 1] + [c]]
  }

  /** `lines.join("\n")`: the text starts with the first line and ends with
      the last, with a separator between each two neighbours; no lines give
      the empty text. */
  function Join(lines: seq<string>): (r: string)
  {
    if |lines| == 0 then []
    else if |lines| == 1 then lines[0]
    else Join(lines[..|lines| - 1]) + "\n" + lines[|lines| - 1]
  }

  predicate NoNewline(lines: seq<string>) {
    forall i :: 0 <= i < |lines| ==> '\n' !in lines[i]
  }

  lemma JoinAppendToLast(ls: seq<string>, t: string)
    requires |ls| >= 1
    ensures Join(ls[..|ls| - 1] + [ls[|ls| - 1] + t]) == Join(ls) + t
  {
    var ls' := ls[..|ls| - 1] + [ls[|ls| - 1] + t];
    if |ls| > 1 {
      assert ls'[..|ls'| - 1] == ls[..|ls| - 1];
    }
  }

  /** Joining the lines of a text gives the text back. */
  lemma {:induction false} JoinSplit(s: string)
    ensures Join(Split(s)) == s
    decreases |s|
  {
    if s != [] {
      var p, c := s[..|s| - 1], s[|s| - 1];
      assert s == p + [c];
      var init := Split(p);
      JoinSplit(p);
      if c == '\n' {
        assert (init + [[]])[..|init|] == init;
      } else {
        JoinAppendToLast(init, [c]);
      }
    }
  }

  lemma {:induction false} JoinConcat(a: seq<string>, b: seq<string>)
    requires |a| >= 1 && |b| >= 1
    ensures Join(a + b) == Join(a) + "\n" + Join(b)
    decreases |b|
  {
    if |b| == 1 {
      assert (a + b)[..|a + b| - 1] == a;
    } else {
      var b' := b[..|b| - 1];
      assert (a + b)[..|a + b| - 1] == a + b';
      JoinConcat(a, b');
    }
  }

  /** One step of Split: appending a character either opens a new line or
      extends the last one. */
  lemma SplitSnoc(s: string, c: char)
    ensures var I := Split(s);
            Split(s + [c]) == if c == '\n' then I + [[]] else I[..|I| - 1] + [I[|I| - 1] + [c]]
  {
    assert (s + [c])[..|s + [c]| - 1] == s;
  }

  lemma SplitConcatStep(A: seq<string>, B': seq<string>, M: seq<string>, c: char,
                         B: seq<string>, N: seq<string>)
    requires |A| >= 1 && |B'| >= 1
    requires M == A[..|A| - 1] + [A[|A| - 1] + B'[0]] + B'[1..]
    requires B == if c == '\n' then B' + [[]] else B'[..|B'| - 1] + [B'[|B'| - 1] + [c]]
    requires N == if c == '\n' then M + [[]] else M[..|M| - 1] + [M[|M| - 1] + [c]]
    ensures N == A[..|A| - 1] + [A[|A| - 1] + B[0]] + B[1..]
  {
    var A0, a := A[..|A| - 1], A[|A| - 1];
    if c == '\n' {
      assert B[0] == B'[0] && B[1..] == B'[1..] + [[]];
    } else if |B'| == 1 {
      assert M == A0 + [a + B'[0]];
      assert M[..|M| - 1] == A0 && M[|M| - 1] == a + B'[0];
      assert (a + B'[0]) + [c] == a + (B'[0] + [c]);
      assert B[1..] == [];
    } else {
      assert M[..|M| - 1] == A0 + [a + B'[0]] + B'[1..|B'| - 1];
      assert M[|M| - 1] == B'[|B'| - 1];
      assert B[0] == B'[0];
      assert B[1..] == B'[1..|B'| - 1] + [B'[|B'| - 1] + [c]];
    }
  }

  /** How the lines of a concatenation arise from the lines of its parts: the
      last line of `a` and the first line of `b` fuse. */
  lemma {:induction false} SplitConcat(a: string, b: string)
    ensures var A, B := Split(a), Split(b);
            Split(a + b) == A[..|A| - 1] + [A[|A| - 1] + B[0]] + B[1..]
    decreases |b|
  {
    if b == [] {
      assert a + b == a;
      SplitConcatNothing(a, b);
    } else {
      var b', c := b[..|b| - 1], b[|b| - 1];
      var ab' := a + b';
      assert a + b == ab' + [c];
      assert b == b' + [c];
      SplitConcat(a, b');
      SplitSnoc(ab', c);
      SplitSnoc(b', c);
      SplitConcatStep(Split(a), Split(b'), Split(ab'), c, Split(b' + [c]), Split(ab' + [c]));
    }
  }

  lemma SplitConcatNothing(a: string, b: string)
    requires b == []
    ensures var A, B := Split(a), Split(b);
            Split(a) == A[..|A| - 1] + [A[|A| - 1] + B[0]] + B[1..]
  {
    var B := Split(b);
    assert B == [[]];
    AppendNothing(Split(a), B[0], B[1..]);
  }

  lemma SplitNoNewlineText(s: string)
    requires '\n' !in s
    ensures Split(s) == [s]
  {
    CountAbsent(s, '\n');
    JoinSplit(s);
  }

  /** Splitting joined lines gives the lines back, provided none holds a '\n'. */
  lemma {:induction false} SplitJoin(ls: seq<string>)
    requires |ls| >= 1 && NoNewline(ls)
    ensures Split(Join(ls)) == ls
    decreases |ls|
  {
    if |ls| == 1 {
      SplitNoNewlineText(ls[0]);
    } else {
      var init, last := ls[..|ls| - 1], ls[|ls| - 1];
      assert NoNewline(init) by {
        forall i | 0 <= i < |init| ensures '\n' !in init[i] { assert init[i] == ls[i]; }
      }
      SplitJoin(init);
      SplitJoinStep(init, last);
      assert init + [last] == ls;
    }
  }

  /** The inductive step of SplitJoin: one more line, with no '\n', after
      lines that split back from their join. */
  lemma SplitJoinStep(init: seq<string>, last: string)
    requires Split(Join(init)) == init && '\n' !in last
    ensures Split(Join(init + [last])) == init + [last]
  {
    var ls := init + [last];
    assert ls[..|ls| - 1] == init;
    assert Join(ls) == Join(init) + ("\n" + last);
    SplitAfterLine(Join(init), init, last);
  }

  /** A text whose lines are `lines`, followed by a '\n' and a line with no
      '\n', has one more line. */
  lemma SplitAfterLine(J: string, lines: seq<string>, last: string)
    requires Split(J) == lines && '\n' !in last
    ensures Split(J + ("\n" + last)) == lines + [last]
  {
    var B := Split("\n" + last);
    assert B == [[], last] by {
      SplitNewlineThen(last);
    }
    SplitConcat(J, "\n" + last);
    assert B[1..] == [last];
    FuseEmpty(lines, last);
  }

  /** Appending nothing to the last element, and nothing after it, gives
      the sequence back. */
  lemma AppendNothing<T>(s: seq<seq<T>>, e: seq<T>, rest: seq<seq<T>>)
    requires |s| >= 1 && e == [] && rest == []
    ensures s[..|s| - 1] + [s[|s| - 1] + e] + rest == s
  {
    assert s[|s| - 1] + e == s[|s| - 1];
    InitThenLast(s);
  }

  /** Appending nothing to the last element, then one more element, is
      appending that element. */
  lemma FuseEmpty<T>(s: seq<seq<T>>, x: seq<T>)
    requires |s| >= 1
    ensures s[..|s| - 1] + [s[|s| - 1] + []] + [x] == s + [x]
  {
    assert s[|s| - 1] + [] == s[|s| - 1];
    InitThenLast(s);
  }

  /** The front and the fused element of a fused concatenation. */
  lemma FusedParts<T>(A: seq<seq<T>>, B: seq<seq<T>>, F: seq<seq<T>>)
    requires |A| >= 1 && |B| >= 1
    requires F == A[..|A| - 1] + [A[|A| - 1] + B[0]] + B[1..]
    ensures F[..|A| - 1] == A[..|A| - 1] && F[|A| - 1] == A[|A| - 1] + B[0]
  {
  }

  /** A non-empty sequence is its front followed by its last element. */
  lemma InitThenLast<T>(s: seq<T>)
    requires |s| >= 1
    ensures s[..|s| - 1] + [s[|s| - 1]] == s
  {
  }

  /** A '\n' followed by a line with no '\n' splits into an empty line and
      that line. */
  lemma SplitNewlineThen(last: string)
    requires '\n' !in last
    ensures Split("\n" + last) == [[], last]
  {
    SplitNoNewlineText(last);
    assert Split("\n") == [[], []];
    SplitConcat("\n", last);
    assert [] + last == last;
  }

  /** Length of the last line of `s` is the distance from its last '\n'. */
  lemma {:induction false} LastLineLength(s: string)
    ensures var L := Split(s); |L[|L| - 1]| == |s| - LastIndexOf(s, '\n') - 1
    decreases |s|
  {
    if s != [] {
      LastLineLength(s[..|s| - 1]);
    }
  }

  // ---------------------------------------------------------------------
  // Positions: getCursorPositionFromIndex
  // ---------------------------------------------------------------------

  function LineCount(text: string): (n: nat)
    ensures n >= 1
  {
    |Split(text)|
  }

  /** getCursorPositionFromIndex: the line is the number of '\n' before
      `index`, the column is the distance from the last of them. */
  function PositionOf(text: string, index: int): (p: Vec2)
    ensures 0 <= p.y < LineCount(text)
    ensures index >= 0 ==> p.x >= 0
  {
    var before := Prefix(text, index);
    CountConcat(before, text[|before|..], '\n');
    assert before + text[|before|..] == text;
    Vec2(index - LastIndexOf(before, '\n') - 1, Count(before, '\n'))
  }

  /** `text.split("\n").splice(0, n).join("\n").length`: for n >= 1, the index
      of the '\n' that ends line n - 1. */
  function JoinedLength(text: string, n: nat): (len: nat)
    requires n <= LineCount(text)
    ensures len <= |text|
    ensures 0 < n < LineCount(text) ==> len < |text|
    ensures n == LineCount(text) ==> len == |text|
  {
    JoinSplit(text);
    JoinPrefixLength(Split(text), n);
    |Join(Split(text)[..n])|
  }

  /** The first `n` lines joined are a proper part of all of them joined, or
      all of them. */
  lemma JoinPrefixLength(S: seq<string>, n: nat)
    requires n <= |S|
    ensures |Join(S[..n])| <= |Join(S)|
    ensures 0 < n < |S| ==> |Join(S[..n])| < |Join(S)|
    ensures n == |S| ==> Join(S[..n]) == Join(S)
  {
    if 0 < n < |S| {
      JoinSplitAt(S, n);
    } else if n == |S| {
      assert S[..n] == S;
    }
  }

  /** Offset of the first character of line `y`. */
  function LineStart(text: string, y: nat): nat
    requires y < LineCount(text)
  {
    if y == 0 then 0 else JoinedLength(text, y) + 1
  }

  /** The lines before line `y`, each followed by its '\n'. */
  function LinesBefore(S: seq<string>, y: nat): string
    requires y <= |S|
  {
    if y == 0 then "" else Join(S[..y]) + "\n"
  }

  /** The lines after line `y`, each preceded by its '\n'. */
  function LinesAfter(S: seq<string>, y: nat): string
    requires y < |S|
  {
    if y + 1 < |S| then "\n" + Join(S[y + 1..]) else ""
  }

  lemma JoinFrom(S: seq<string>, y: nat)
    requires y < |S|
    ensures Join(S[y..]) == S[y] + LinesAfter(S, y)
  {
    if y + 1 < |S| {
      assert S[y..] == [S[y]] + S[y + 1..];
      JoinCons(S[y], S[y + 1..]);
    } else {
      assert S[y..] == [S[y]];
      assert S[y] + "" == S[y];
    }
  }

  lemma JoinCons(line: string, rest: seq<string>)
    requires |rest| >= 1
    ensures Join([line] + rest) == line + "\n" + Join(rest)
  {
    JoinConcat([line], rest);
    assert Join([line]) == line;
  }

  lemma JoinAround(S: seq<string>, y: nat)
    requires y < |S|
    ensures Join(S) == LinesBefore(S, y) + S[y] + LinesAfter(S, y)
  {
    JoinFrom(S, y);
    if y > 0 {
      JoinAroundLater(S, y, Join(S[..y]), Join(S[y..]));
    } else {
      assert S[y..] == S;
      assert LinesBefore(S, y) + S[y] == S[y];
    }
  }

  lemma JoinAroundLater(S: seq<string>, y: nat, before: string, from: string)
    requires 0 < y < |S| && before == Join(S[..y]) && from == Join(S[y..])
    requires from == S[y] + LinesAfter(S, y)
    ensures Join(S) == LinesBefore(S, y) + S[y] + LinesAfter(S, y)
  {
    JoinSplitAt(S, y);
    var lb, la := LinesBefore(S, y), LinesAfter(S, y);
    assert lb == before + "\n";
    ConcatAssoc(lb, S[y], la);
  }

  lemma ConcatAssoc<T>(a: seq<T>, b: seq<T>, c: seq<T>)
    ensures a + (b + c) == a + b + c
  {
  }

  /** Joining without line `y` loses that line and one separator; joining
      without the only line gives nothing. */
  lemma JoinWithout(S: seq<string>, y: nat)
    requires y < |S|
    ensures |S| == 1 ==> S[..y] + S[y + 1..] == []
    ensures |S| >= 2 ==> |Join(S[..y] + S[y + 1..])| == |Join(S)| - |S[y]| - 1
  {
    JoinAround(S, y);
    var rest := S[..y] + S[y + 1..];
    if |S| == 1 {
      assert rest == [];
    } else if y == 0 {
      assert rest == S[1..];
    } else if y == |S| - 1 {
      assert rest == S[..y];
    } else {
      JoinConcat(S[..y], S[y + 1..]);
    }
  }

  /** Joining with one more line adds that line and one separator. */
  lemma JoinWith(S: seq<string>, at: nat, line: string)
    requires 1 <= |S| && at <= |S|
    ensures |Join(S[..at] + [line] + S[at..])| == |Join(S)| + |line| + 1
  {
    var L := S[..at] + [line] + S[at..];
    if at == 0 {
      assert L == [line] + S;
      JoinCons(line, S);
    } else if at == |S| {
      assert L == S + [line];
      JoinConcat(S, [line]);
    } else {
      assert L == S[..at] + ([line] + S[at..]);
      JoinConcat(S[..at], [line] + S[at..]);
      JoinCons(line, S[at..]);
      JoinSplitAt(S, at);
    }
  }

  lemma JoinSplitAt(S: seq<string>, y: nat)
    requires 0 < y < |S|
    ensures Join(S) == Join(S[..y]) + "\n" + Join(S[y..])
  {
    assert S[..y] + S[y..] == S;
    JoinConcat(S[..y], S[y..]);
  }

  /** The text around one line: the lines before it, the line, the lines
      after it. */
  lemma TextAroundLine(text: string, y: nat)
    requires y < LineCount(text)
    ensures var S := Split(text);
            text == LinesBefore(S, y) + S[y] + LinesAfter(S, y)
            && |LinesBefore(S, y)| == LineStart(text, y)
  {
    JoinSplit(text);
    JoinAround(Split(text), y);
  }

  /** The text before a column of line `y` is the lines before it followed by
      the first `x` characters of the line. */
  lemma LinesUpTo(S: seq<string>, y: nat, x: nat)
    requires y < |S| && x <= |S[y]| && NoNewline(S)
    ensures Split(LinesBefore(S, y) + S[y][..x]) == S[..y] + [S[y][..x]]
  {
    var head := S[y][..x];
    assert '\n' !in head by {
      assert forall i :: 0 <= i < |head| ==> head[i] == S[y][i];
    }
    var lines := S[..y] + [head];
    assert NoNewline(lines);
    if y == 0 {
      assert lines == [head];
      assert LinesBefore(S, y) + head == head;
    } else {
      JoinConcat(S[..y], [head]);
      assert Join([head]) == head;
    }
    assert Join(lines) == LinesBefore(S, y) + head;
    SplitJoin(lines);
  }

  /** Line starts advance by the line length plus the separator. */
  lemma LineStartStep(text: string, y: nat)
    requires y + 1 < LineCount(text)
    ensures LineStart(text, y + 1) == LineStart(text, y) + |Split(text)[y]| + 1
  {
    var S := Split(text);
    if y > 0 {
      assert S[..y + 1][..y] == S[..y];
    }
  }

  /** The end of line `y` is a '\n', or the end of the text for the last line;
      the character before a line's start is the '\n' that ends the line above. */
  lemma LineBoundaries(text: string, y: nat)
    requires y < LineCount(text)
    ensures var S := Split(text); var e := LineStart(text, y) + |S[y]|;
            e <= |text| && (e == |text| <==> y + 1 == |S|) && (e < |text| ==> text[e] == '\n')
    ensures y > 0 ==> text[LineStart(text, y) - 1] == '\n'
  {
    TextAroundLine(text, y);
  }

  /** Every offset decomposes into a line and a column within that line, and
      the line start plus the column gives the offset back. */
  lemma PositionDecompose(text: string, k: int)
    requires 0 <= k <= |text|
    ensures var p := PositionOf(text, k); var S := Split(text);
            0 <= p.x <= |S[p.y]| && LineStart(text, p.y) + p.x == k
  {
    var S, P := Split(text), Split(text[..k]);
    PositionOfPrefix(text, k, P);
    PrefixLines(text, k, P, S);
    PrefixLineStart(text, k, P, S);
  }

  /** The position of an offset is read off the lines of the text before it:
      the line is the index of the last of them, the column its length. */
  lemma PositionOfPrefix(text: string, k: nat, P: seq<string>)
    requires k <= |text| && P == Split(text[..k])
    ensures PositionOf(text, k) == Vec2(|P[|P| - 1]|, |P| - 1)
  {
    assert Prefix(text, k) == text[..k];
    LastLineLength(text[..k]);
  }

  /** The lines of a text start with the lines of its prefix, the last of
      which is the beginning of a longer line. */
  lemma PrefixLines(text: string, k: nat, P: seq<string>, S: seq<string>)
    requires k <= |text| && P == Split(text[..k]) && S == Split(text)
    ensures |P| <= |S| && S[..|P| - 1] == P[..|P| - 1]
    ensures S[|P| - 1] == P[|P| - 1] + Split(text[k..])[0]
  {
    assert text == text[..k] + text[k..];
    SplitConcat(text[..k], text[k..]);
    FusedParts(P, Split(text[k..]), S);
  }

  /** Line `y` of a text, whose first `y` lines are those of its prefix of
      length `k`, starts where the last line of that prefix starts. */
  lemma PrefixLineStart(text: string, k: nat, P: seq<string>, S: seq<string>)
    requires k <= |text| && P == Split(text[..k]) && S == Split(text)
    requires |P| <= |S| && S[..|P| - 1] == P[..|P| - 1]
    ensures LineStart(text, |P| - 1) + |P[|P| - 1]| == k
  {
    var y := |P| - 1;
    JoinSplit(text[..k]);
    if y > 0 {
      assert P == P[..y] + [P[y]];
      JoinConcat(P[..y], [P[y]]);
    }
  }

  /** Conversely, a line and a column within it name the offset
      `LineStart + column`, whose position is that line and column. */
  lemma PositionAt(text: string, y: nat, x: nat)
    requires y < LineCount(text) && x <= |Split(text)[y]|
    ensures LineStart(text, y) + x <= |text|
    ensures PositionOf(text, LineStart(text, y) + x) == Vec2(x, y)
  {
    var S := Split(text);
    var k := LineStart(text, y) + x;
    TextAroundLine(text, y);
    var before := LinesBefore(S, y) + S[y][..x];
    assert text[..k] == before;
    assert Prefix(text, k) == before;
    LinesUpTo(S, y, x);
    LastLineLength(before);
  }

  // ---------------------------------------------------------------------
  // Line extents: getForwardLineLength / getBackwardLineLength
  // ---------------------------------------------------------------------

  /** Characters from the cursor to the end of its line: never negative and
      never past the end of the text. */
  function ForwardLineLength(text: string, cursor: int): (n: int)
    ensures 0 <= cursor <= |text| ==> 0 <= n <= |text| - cursor
  {
    var p := PositionOf(text, cursor);
    if 0 <= cursor <= |text| then
      PositionDecompose(text, cursor);
      LineBoundaries(text, p.y);
      |Split(text)[p.y]| - p.x
    else
      |Split(text)[p.y]| - p.x
  }

  /** Characters from the start of the cursor's line to the cursor: the
      column, between 0 and the offset. */
  function BackwardLineLength(text: string, cursor: int): (n: int)
    ensures 0 <= cursor <= |text| ==> 0 <= n <= cursor
  {
    if 0 <= cursor <= |text| then
      PositionDecompose(text, cursor);
      PositionOf(text, cursor).x
    else
      PositionOf(text, cursor).x
  }

  /** Moving forward by ForwardLineLength lands on the same line, on the '\n'
      that ends it (or at the end of the text). */
  lemma LineEndMotion(text: string, c: int)
    requires 0 <= c <= |text|
    ensures var e := c + ForwardLineLength(text, c); var y := PositionOf(text, c).y;
            c <= e <= |text| && PositionOf(text, e) == Vec2(|Split(text)[y]|, y)
            && (e == |text| || text[e] == '\n')
  {
    var p := PositionOf(text, c);
    PositionDecompose(text, c);
    LineEndAt(text, p.y, c + ForwardLineLength(text, c));
  }

  /** The end of line `y` has the line's length as its column and is a '\n'
      or the end of the text. */
  lemma LineEndAt(text: string, y: nat, e: int)
    requires y < LineCount(text) && e == LineStart(text, y) + |Split(text)[y]|
    ensures e <= |text| && PositionOf(text, e) == Vec2(|Split(text)[y]|, y)
    ensures e == |text| || text[e] == '\n'
  {
    var len := |Split(text)[y]|;
    assert PositionOf(text, e) == Vec2(len, y) by { PositionAt(text, y, len); }
    LineBoundaries(text, y);
  }

  /** At most one character lies between an offset inside the text and the
      end of its line exactly when the character there is a '\n', or the
      next one is a '\n' or the end of the text. */
  lemma LineEndWithin(text: string, c: int)
    requires 0 <= c < |text|
    ensures ForwardLineLength(text, c) <= 1 <==>
            (text[c] == '\n' || c + 1 == |text| || text[c + 1] == '\n')
  {
    var p := PositionOf(text, c);
    PositionDecompose(text, c);
    LineEndMotion(text, c);
    if ForwardLineLength(text, c) >= 2 {
      var S := Split(text);
      TextAroundLine(text, p.y);
      InsideLine(text, p.y, p.x);
      InsideLine(text, p.y, p.x + 1);
    }
  }

  /** A character inside line `y` is a character of that line, so not a '\n'. */
  lemma InsideLine(text: string, y: nat, x: nat)
    requires y < LineCount(text) && x < |Split(text)[y]|
    ensures LineStart(text, y) + x < |text| && text[LineStart(text, y) + x] == Split(text)[y][x]
    ensures text[LineStart(text, y) + x] != '\n'
  {
    var S := Split(text);
    TextAroundLine(text, y);
    var before := LinesBefore(S, y);
    assert text[|before| + x] == (before + S[y] + LinesAfter(S, y))[|before| + x];
  }

  /** Moving back by BackwardLineLength lands at column 0 of the same line,
      just after a '\n' (or at the start of the text). */
  lemma LineStartMotion(text: string, c: int)
    requires 0 <= c <= |text|
    ensures var s := c - BackwardLineLength(text, c); var y := PositionOf(text, c).y;
            0 <= s <= c && s == LineStart(text, y) && PositionOf(text, s) == Vec2(0, y)
            && (s == 0 || text[s - 1] == '\n')
  {
    var p := PositionOf(text, c);
    PositionDecompose(text, c);
    PositionAt(text, p.y, 0);
    LineBoundaries(text, p.y);
  }

  // ---------------------------------------------------------------------
  // Word extents: getForwardWordLength / getBackwardWordLength
  // ---------------------------------------------------------------------

  /** Length of the run of class-`k` characters at the start of `s`. */
  function LeadingRun(s: string, cls: Classifier, k: CharClass): (n: nat)
    ensures n <= |s|
    ensures forall i :: 0 <= i < n ==> cls(s[i]) == k
    ensures n < |s| ==> cls(s[n]) != k
  {
    if s == [] || cls(s[0]) != k then 0 else 1 + LeadingRun(s[1..], cls, k)
  }

  /** Length of the run of class-`k` characters at the end of `s`. */
  function TrailingRun(s: string, cls: Classifier, k: CharClass): (n: nat)
    ensures n <= |s|
    ensures forall i :: |s| - n <= i < |s| ==> cls(s[i]) == k
    ensures n < |s| ==> cls(s[|s| - n - 1]) != k
  {
    if s == [] || cls(s[|s| - 1]) != k then 0 else 1 + TrailingRun(s[..|s| - 1], cls, k)
  }

  /** getForwardWordLength: the length of the first match of
      `[\p{L}\p{N}_]+|[^\p{L}\p{N}_\s]+|\s+` in the text from the cursor on,
      i.e. the maximal run of the class of the character under the cursor. */
  function ForwardWordLength(text: string, cursor: int, cls: Classifier): (n: nat)
    ensures 0 <= cursor <= |text| ==>
              cursor + n <= |text| && (n == 0 <==> cursor == |text|)
              && (forall i :: cursor <= i < cursor + n ==> cls(text[i]) == cls(text[cursor]))
              && (cursor + n < |text| ==> cls(text[cursor + n]) != cls(text[cursor]))
  {
    var rest := SliceFrom(text, cursor);
    if rest == [] then 0
    else
      var n := LeadingRun(rest, cls, cls(rest[0]));
      assert 0 <= cursor <= |text| ==> forall i :: cursor <= i < cursor + n ==> text[i] == rest[i - cursor];
      n
  }

  /** getBackwardWordLength: the length of the match of the same alternation
      anchored at the end of the text before the cursor, i.e. the maximal run
      of the class of the character just before the cursor. */
  function BackwardWordLength(text: string, cursor: int, cls: Classifier): (n: nat)
    ensures 0 <= cursor <= |text| ==>
              n <= cursor && (n == 0 <==> cursor == 0)
              && (forall i :: cursor - n <= i < cursor ==> cls(text[i]) == cls(text[cursor - 1]))
              && (n < cursor ==> cls(text[cursor - n - 1]) != cls(text[cursor - 1]))
  {
    var before := Slice(text, 0, cursor);
    if before == [] then 0
    else
      var n := TrailingRun(before, cls, cls(before[|before| - 1]));
      assert 0 <= cursor <= |text| ==> before == text[..cursor];
      n
  }

  lemma {:induction false} TrailingRunAppend(a: string, b: string, cls: Classifier, k: CharClass)
    requires forall i :: 0 <= i < |b| ==> cls(b[i]) == k
    ensures TrailingRun(a + b, cls, k) == TrailingRun(a, cls, k) + |b|
    decreases |b|
  {
    if b == [] {
      assert a + b == a;
    } else {
      assert (a + b)[..|a + b| - 1] == a + b[..|b| - 1];
      TrailingRunAppend(a, b[..|b| - 1], cls, k);
    }
  }

  /** A forward word motion followed by a backward one returns to the start of
      the run the cursor was in: to the cursor itself exactly when it stood at
      the start of a run. */
  lemma WordMotionRoundTrip(text: string, c: int, cls: Classifier)
    requires 0 <= c < |text|
    ensures var n := ForwardWordLength(text, c, cls);
            var back := c + n - BackwardWordLength(text, c + n, cls);
            0 <= back <= c
            && (back == c <==> c == 0 || cls(text[c - 1]) != cls(text[c]))
            && forall i :: back <= i < c ==> cls(text[i]) == cls(text[c])
  {
    var n := ForwardWordLength(text, c, cls);
    var k := cls(text[c]);
    BackwardOverRun(text, c, c + n, cls, k);
    RunBefore(text, c, cls, k);
  }

  /** Moving backward from the end of a class-`k` run that starts at `c`
      crosses the run and then the class-`k` run that ends at `c`. */
  lemma BackwardOverRun(text: string, c: nat, e: nat, cls: Classifier, k: CharClass)
    requires c < e <= |text|
    requires forall i :: c <= i < e ==> cls(text[i]) == k
    ensures BackwardWordLength(text, e, cls) == TrailingRun(text[..c], cls, k) + (e - c)
  {
    assert text[..e] == text[..c] + text[c..e];
    TrailingRunAppend(text[..c], text[c..e], cls, k);
    assert Slice(text, 0, e) == text[..e];
    assert text[e - 1] == text[..e][|text[..e]| - 1];
  }

  /** The class-`k` run that ends at `c`: empty exactly when `c` is 0 or the
      character before it is of another class. */
  lemma RunBefore(text: string, c: nat, cls: Classifier, k: CharClass)
    requires c <= |text|
    ensures var m := TrailingRun(text[..c], cls, k);
            m <= c && (m == 0 <==> c == 0 || cls(text[c - 1]) != k)
            && forall i :: c - m <= i < c ==> cls(text[i]) == k
  {
    var s := text[..c];
    var m := TrailingRun(s, cls, k);
    assert forall i :: 0 <= i < c ==> s[i] == text[i];
  }

  // ---------------------------------------------------------------------
  // Trimming: String.prototype.trim / trimEnd (JS `\s` is the same set)
  // ---------------------------------------------------------------------

  /** `s.trimEnd()`. */
  function TrimEnd(s: string, cls: Classifier): (r: string)
    ensures r <= s
    ensures r == [] || cls(r[|r| - 1]) != Whitespace
    ensures forall i :: |r| <= i < |s| ==> cls(s[i]) == Whitespace
  {
    if s == [] || cls(s[|s| - 1]) != Whitespace then s else TrimEnd(s[..|s| - 1], cls)
  }

  /** `s.trimStart()`. */
  function TrimStart(s: string, cls: Classifier): (r: string)
    ensures |r| <= |s| && r == s[|s| - |r|..]
    ensures r == [] || cls(r[0]) != Whitespace
    ensures forall i :: 0 <= i < |s| - |r| ==> cls(s[i]) == Whitespace
  {
    if s == [] || cls(s[0]) != Whitespace then s else TrimStart(s[1..], cls)
  }

  /** `s.trim()`: no whitespace left at either end. */
  function Trim(s: string, cls: Classifier): (r: string)
    ensures r == [] || (cls(r[0]) != Whitespace && cls(r[|r| - 1]) != Whitespace)
  {
    var t := TrimStart(s, cls);
    var r := TrimEnd(t, cls);
    assert r != [] ==> r[0] == t[0];
    r
  }

  /** `trim` adds no character: one the line does not hold, its trimmed
      form does not hold either. */
  lemma TrimKeepsOut(s: string, cls: Classifier, c: char)
    requires c !in s
    ensures c !in Trim(s, cls)
  {
    var t := TrimStart(s, cls);
    var r := TrimEnd(t, cls);
    assert Trim(s, cls) == r;
    NotInSuffix(s, t, c);
    NotInPrefix(t, r, c);
  }

  lemma NotInSuffix<T>(s: seq<T>, t: seq<T>, c: T)
    requires c !in s && |t| <= |s| && t == s[|s| - |t|..]
    ensures c !in t
  {
    forall k | 0 <= k < |t| ensures t[k] != c {
      assert t[k] == s[|s| - |t| + k];
    }
  }

  lemma NotInPrefix<T>(t: seq<T>, r: seq<T>, c: T)
    requires c !in t && r <= t
    ensures c !in r
  {
    forall k | 0 <= k < |r| ensures r[k] != c {
      assert r[k] == t[k];
    }
  }
}
