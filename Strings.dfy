/** String helpers shared by the editor, the key decoder and the shell writer.
    A Dafny `char` is a Unicode scalar value, while a JavaScript string is a
    sequence of UTF-16 code units; the two agree on every character of the
    Basic Multilingual Plane outside the surrogate range. The slicing
    functions follow the JavaScript built-ins they stand for. */
module Strings {

  /** Number of occurrences of `c` in `s`. */
  function Count(s: string, c: char): (n: nat)
    ensures n <= |s|
  {
    if s == [] then 0 else Count(s[..|s| - 1], c) + (if s[|s| - 1] == c then 1 else 0)
  }

  lemma {:induction false} CountConcat(a: string, b: string, c: char)
    ensures Count(a + b, c) == Count(a, c) + Count(b, c)
    decreases |b|
  {
    if b == [] {
      assert a + b == a;
    } else {
      assert (a + b)[..|a + b| - 1] == a + b[..|b| - 1];
      CountConcat(a, b[..|b| - 1], c);
    }
  }

  lemma CountAbsent(s: string, c: char)
    requires c !in s
    ensures Count(s, c) == 0
  {
    if s != [] {
      assert s[..|s| - 1] <= s;
      CountAbsent(s[..|s| - 1], c);
    }
  }

  /** `s.lastIndexOf(c)`: the last index holding `c`, or -1. */
  function LastIndexOf(s: string, c: char): (r: int)
    ensures -1 <= r < |s|
    ensures r >= 0 ==> s[r] == c
    ensures forall j :: r < j < |s| ==> s[j] != c
  {
    if s == [] then -1
    else if s[|s| - 1] == c then |s| - 1
    else LastIndexOf(s[..|s| - 1], c)
  }

  predicate StartsWith(s: string, prefix: string) {
    prefix <= s
  }

  /** Clamp `v` into `[0, hi]`: the `< 0` test first, then the `> hi` test. */
  function Clamp(v: int, hi: int): int {
    if v < 0 then 0 else if v > hi then hi else v
  }

  /** How `String.prototype.slice` resolves one bound: a negative bound counts
      from the end, and the result is clamped into `[0, len]`. */
  function SliceBound(len: nat, k: int): (r: nat)
    ensures r <= len
    ensures 0 <= k <= len ==> r == k
  {
    if k < 0 then (if len + k < 0 then 0 else len + k)
    else if k > len then len
    else k
  }

  /** `s.slice(start, end)`: the run of `s` from the resolved start, which is
      exactly `s[start..end]` for in-range bounds and empty when the resolved
      end does not come after the resolved start. */
  function Slice(s: string, start: int, end: int): (r: string)
    ensures var a := SliceBound(|s|, start); a + |r| <= |s| && r == s[a..a + |r|]
    ensures 0 <= start <= end <= |s| ==> r == s[start..end]
    ensures SliceBound(|s|, end) <= SliceBound(|s|, start) ==> r == []
  {
    var a := SliceBound(|s|, start);
    var b := SliceBound(|s|, end);
    if a < b then s[a..b] else []
  }

  /** `s.slice(start)`: a suffix of `s`; an in-range start drops that many
      characters, and a negative one keeps that many from the end. */
  function SliceFrom(s: string, start: int): (r: string)
    ensures |r| <= |s| && r == s[|s| - |r|..]
    ensures 0 <= start <= |s| ==> |r| == |s| - start
    ensures -|s| <= start < 0 ==> |r| == -start
    ensures start >= |s| ==> r == []
    ensures start <= -|s| ==> r == s
  {
    s[SliceBound(|s|, start)..]
  }

  /** `s.substring(0, k)`: a prefix of `s` of `k` characters, clamped; unlike
      `slice`, a negative bound gives the empty string. */
  function Prefix(s: string, k: int): (r: string)
    ensures 0 <= k <= |s| ==> r == s[..k]
    ensures k <= 0 ==> r == []
    ensures k >= |s| ==> r == s
  {
    s[..Clamp(k, |s|)]
  }

  /** Decimal digits of `n`, as a template literal prints a number. */
  function DecimalString(n: nat): (r: string)
    ensures |r| >= 1
    ensures forall i :: 0 <= i < |r| ==> '0' <= r[i] <= '9'
  {
    if n < 10 then [('0' as int + n) as char]
    else DecimalString(n / 10) + [('0' as int + n % 10) as char]
  }
}
