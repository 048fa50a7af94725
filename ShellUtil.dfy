/** The newline normalisation of the shell channel wrapper
    (src/util/shell-util.ts): before text reaches the SSH channel every
    carriage return is dropped and every line feed becomes CR LF. */
module ShellUtil {
  import opened Strings

  /** `str.replace(/\r/g, "")`: `s` with every '\r' removed, other characters
      kept in order. */
  function StripCarriageReturns(s: string): (r: string)
    ensures '\r' !in r
    ensures |r| == |s| - Count(s, '\r')
    ensures forall c :: c != '\r' ==> Count(r, c) == Count(s, c)
  {
    if s == [] then []
    else
      var init := s[..|s| - 1];
      var last := s[|s| - 1];
      var r0 := StripCarriageReturns(init);
      if last == '\r' then r0
      else
        assert (r0 + [last])[..|r0|] == r0;
        r0 + [last]
  }

  /** `str.replace(/\n/g, "\r\n")`. */
  function ExpandLineFeeds(s: string): (r: string)
    ensures |r| == |s| + Count(s, '\n')
  {
    if s == [] then []
    else
      var init := s[..|s| - 1];
      var last := s[|s| - 1];
      ExpandLineFeeds(init) + (if last == '\n' then "\r\n" else [last])
  }

  /** The transform `write` applies to its argument. What is written never
      holds a bare '\r' or a bare '\n'; it is the input less its carriage
      returns, plus one character per line feed. */
  function Normalize(s: string): (r: string)
    ensures CrLfOnly(r)
    ensures |r| == |s| - Count(s, '\r') + Count(s, '\n')
  {
    ExpandedIsCrLf(StripCarriageReturns(s));
    ExpandLineFeeds(StripCarriageReturns(s))
  }

  /** The transform `writeLine` applies: `write(s + "\n")`. It always ends
      its output with CR LF. */
  function NormalizeLine(s: string): (r: string)
    ensures |r| >= 2 && r[|r| - 2..] == "\r\n"
  {
    var body := StripCarriageReturns(s);
    var u := body + "\n";
    assert u == StripCarriageReturns(s + "\n") by {
      StripConcat(s, "\n");
      assert StripCarriageReturns("\n") == "\n" by { assert "\n"[..0] == []; }
    }
    var e := ExpandLineFeeds(body);
    assert ExpandLineFeeds(u) == e + "\r\n" by {
      assert u[..|u| - 1] == body && u[|u| - 1] == '\n';
    }
    assert (e + "\r\n")[|e|..] == "\r\n";
    Normalize(s + "\n")
  }

  /** Every line feed is preceded by a carriage return and every carriage
      return is followed by a line feed. */
  predicate CrLfOnly(t: string) {
    (forall i :: 0 <= i < |t| && t[i] == '\n' ==> i > 0 && t[i - 1] == '\r') &&
    (forall i :: 0 <= i < |t| && t[i] == '\r' ==> i + 1 < |t| && t[i + 1] == '\n')
  }

  lemma {:induction false} ExpandedIsCrLf(s: string)
    requires '\r' !in s
    ensures CrLfOnly(ExpandLineFeeds(s))
    decreases |s|
  {
    if s != [] {
      var init := s[..|s| - 1];
      var last := s[|s| - 1];
      assert '\r' !in init by {
        forall k | 0 <= k < |init| ensures init[k] != '\r' { assert init[k] == s[k]; }
      }
      ExpandedIsCrLf(init);
      var tail: string := if last == '\n' then "\r\n" else [last];
      assert CrLfOnly(tail);
      CrLfConcat(ExpandLineFeeds(init), tail);
    }
  }

  /** Two well-formed texts concatenate to a well-formed text: the first
      cannot end in a bare '\r', nor can the second start with a bare '\n'. */
  lemma CrLfConcat(a: string, b: string)
    requires CrLfOnly(a) && CrLfOnly(b)
    ensures CrLfOnly(a + b)
  {
    var t := a + b;
    forall i | 0 <= i < |t|
      ensures t[i] == '\n' ==> i > 0 && t[i - 1] == '\r'
      ensures t[i] == '\r' ==> i + 1 < |t| && t[i + 1] == '\n'
    {
      if i < |a| {
        assert t[i] == a[i];
        if i > 0 { assert t[i - 1] == a[i - 1]; }
        if i + 1 < |a| { assert t[i + 1] == a[i + 1]; }
      } else {
        assert t[i] == b[i - |a|];
        if i > |a| { assert t[i - 1] == b[i - 1 - |a|]; }
        if i + 1 < |t| { assert t[i + 1] == b[i + 1 - |a|]; }
      }
    }
  }

  /** Dropping the carriage returns of the expanded text gives back its input:
      `replace(/\r/g, "")` undoes `replace(/\n/g, "\r\n")` on text without '\r'. */
  lemma {:induction false} StripUndoesExpand(s: string)
    requires '\r' !in s
    ensures StripCarriageReturns(ExpandLineFeeds(s)) == s
    decreases |s|
  {
    if s != [] {
      var init := s[..|s| - 1];
      var last := s[|s| - 1];
      assert s == init + [last];
      assert '\r' !in init by {
        forall k | 0 <= k < |init| ensures init[k] != '\r' { assert init[k] == s[k]; }
      }
      StripUndoesExpand(init);
      var a := ExpandLineFeeds(init);
      var tail: string := if last == '\n' then "\r\n" else [last];
      assert ExpandLineFeeds(s) == a + tail;
      StripConcat(a, tail);
      StripLineEnd(last);
    }
  }

  lemma StripLineEnd(c: char)
    requires c != '\r'
    ensures StripCarriageReturns(if c == '\n' then "\r\n" else [c]) == [c]
  {
    assert [c][..0] == [];
    if c == '\n' {
      assert "\r\n"[..1] == "\r";
      assert "\r"[..0] == [];
    }
  }

  lemma {:induction false} StripConcat(a: string, b: string)
    ensures StripCarriageReturns(a + b) == StripCarriageReturns(a) + StripCarriageReturns(b)
    decreases |b|
  {
    if b == [] {
      assert a + b == a;
    } else {
      assert (a + b)[..|a + b| - 1] == a + b[..|b| - 1];
      StripConcat(a, b[..|b| - 1]);
    }
  }

  /** Removing the carriage returns from the output of `write` gives the
      input without its carriage returns: no other character is lost or added. */
  lemma StripAfterNormalize(s: string)
    ensures StripCarriageReturns(Normalize(s)) == StripCarriageReturns(s)
  {
    StripUndoesExpand(StripCarriageReturns(s));
  }

  /** Normalising twice is normalising once. */
  lemma NormalizeIdempotent(s: string)
    ensures Normalize(Normalize(s)) == Normalize(s)
  {
    StripAfterNormalize(s);
  }
}
