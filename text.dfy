/**
 * The operations of Python's `str` that the assistant's dispatcher uses:
 * `lower`, `strip`, `in`, `startswith`, `replace`, `split(sep, 1)` and
 * `str(int)`, with the substring search behind `in` and `split`. Each is stated against an independent description
 * (an occurrence, a run of white space, a decimal value) and proved to meet it.
 */
module Text {
  import opened Wrappers

  // ---------------------------------------------------------------- characters

  /** An ASCII capital letter: the characters this model lower-cases. */
  predicate IsUpper(c: char) {
    'A' <= c <= 'Z'
  }

  function LowerChar(c: char): char {
    if IsUpper(c) then (c as int + 32) as char else c
  }

  /** The characters for which Python's `str.isspace()` holds, the ones `str.strip()` removes. */
  predicate IsSpace(c: char) {
    var n := c as int;
    (0x09 <= n <= 0x0D) || (0x1C <= n <= 0x20) || n == 0x85 || n == 0xA0 || n == 0x1680
    || (0x2000 <= n <= 0x200A) || n == 0x2028 || n == 0x2029 || n == 0x202F || n == 0x205F
    || n == 0x3000
  }

  predicate AllSpace(s: string) {
    forall k :: 0 <= k < |s| ==> IsSpace(s[k])
  }

  /** Neither begins nor ends with white space. */
  predicate IsTrimmed(s: string) {
    s == [] || (!IsSpace(s[0]) && !IsSpace(s[|s| - 1]))
  }

  predicate IsLowerCase(s: string) {
    forall k :: 0 <= k < |s| ==> !IsUpper(s[k])
  }

  // ---------------------------------------------------------------- lower

  /** Python's `s.lower()`, for the ASCII letters. */
  function Lower(s: string): (r: string)
    ensures |r| == |s| && IsLowerCase(r)
    ensures forall k :: 0 <= k < |s| && !IsUpper(s[k]) ==> r[k] == s[k]
    ensures forall k :: 0 <= k < |s| && IsUpper(s[k]) ==> r[k] as int == s[k] as int + 32
  {
    seq(|s|, k requires 0 <= k < |s| => LowerChar(s[k]))
  }

  /** Lower-casing is idempotent. */
  lemma LowerOfLowerCase(s: string)
    requires IsLowerCase(s)
    ensures Lower(s) == s
  {
  }

  // ---------------------------------------------------------------- occurrences

  /** `p` occurs in `s` starting at index `i`. */
  predicate OccursAt(s: string, p: string, i: nat) {
    i + |p| <= |s| && s[i..i + |p|] == p
  }

  /** Python's `s.startswith(p)`. */
  predicate StartsWith(s: string, p: string) {
    OccursAt(s, p, 0)
  }

  /** The substring search behind `in` and `split`: the first occurrence at or after `from`, or `None`. */
  function FindFrom(s: string, p: string, from: nat): (r: Option<nat>)
    ensures r.Some? ==> from <= r.value && OccursAt(s, p, r.value)
    ensures r.Some? ==> forall j: nat :: from <= j < r.value ==> !OccursAt(s, p, j)
    ensures r.None? ==> forall j: nat :: from <= j ==> !OccursAt(s, p, j)
    decreases |s| + 1 - from
  {
    if |s| < from + |p| then None
    else if OccursAt(s, p, from) then Some(from)
    else FindFrom(s, p, from + 1)
  }

  /** Python's `p in s`. */
  function Contains(s: string, p: string): (b: bool)
    ensures b <==> exists i: nat :: OccursAt(s, p, i)
  {
    FindFrom(s, p, 0).Some?
  }

  /** An occurrence in a suffix of `s` is an occurrence in `s`. */
  lemma {:induction false} ContainsInSuffix(s: string, p: string, n: nat)
    requires n <= |s|
    ensures Contains(s[n..], p) ==> Contains(s, p)
  {
    if Contains(s[n..], p) {
      var j: nat :| OccursAt(s[n..], p, j);
      assert s[n..][j..j + |p|] == s[n + j..n + j + |p|];
      assert OccursAt(s, p, n + j);
    }
  }

  /** A string that lacks one of `p`'s characters does not contain `p`. */
  lemma MissingCharNotContained(s: string, p: string, k: nat)
    requires k < |p| && p[k] !in s
    ensures !Contains(s, p)
  {
  }

  // ---------------------------------------------------------------- replace

  /**
   * Python's `s.replace(pat, rep)`: every non-overlapping occurrence of `pat`,
   * found from left to right, is replaced by `rep`.
   */
  function ReplaceAll(s: string, pat: string, rep: string): (r: string)
    requires pat != []
    ensures !Contains(s, pat) ==> r == s
    ensures |rep| <= |pat| ==> |r| <= |s|
    ensures IsLowerCase(s) && IsLowerCase(rep) ==> IsLowerCase(r)
    decreases |s|
  {
    if |s| < |pat| then s
    else if StartsWith(s, pat) then rep + ReplaceAll(s[|pat|..], pat, rep)
    else
      ContainsInSuffix(s, pat, 1);
      [s[0]] + ReplaceAll(s[1..], pat, rep)
  }

  /** A leading occurrence is replaced and the scan resumes right after it. */
  lemma {:induction false} ReplaceLeading(pat: string, w: string, rep: string)
    requires pat != []
    ensures ReplaceAll(pat + w, pat, rep) == rep + ReplaceAll(w, pat, rep)
  {
    assert (pat + w)[..|pat|] == pat;
    assert (pat + w)[|pat|..] == w;
  }

  /** Text that cannot begin an occurrence is copied, and the scan continues after it. */
  lemma {:induction false} ReplaceAfterPlainPrefix(x: string, w: string, pat: string, rep: string)
    requires pat != [] && pat[0] !in x
    ensures ReplaceAll(x + w, pat, rep) == x + ReplaceAll(w, pat, rep)
    decreases |x|
  {
    if x == [] {
      assert x + w == w;
    } else {
      var s := x + w;
      assert s[1..] == x[1..] + w;
      ReplaceAfterPlainPrefix(x[1..], w, pat, rep);
      if |s| < |pat| {
        assert ReplaceAll(w, pat, rep) == w;
        assert ReplaceAll(s, pat, rep) == s;
      } else {
        assert x[0] in x;
        assert s[0] != pat[0];
        var r := ReplaceAll(w, pat, rep);
        assert ReplaceAll(s, pat, rep) == [x[0]] + (x[1..] + r);
        Reassociate(x, r);
      }
    }
  }

  lemma {:induction false} Reassociate(x: string, r: string)
    requires x != []
    ensures [x[0]] + (x[1..] + r) == x + r
  {
    assert [x[0]] + x[1..] == x;
  }

  /** Dropping the first character moves every occurrence one place left. */
  lemma {:induction false} OccursShift(s: string, p: string, j: nat)
    requires s != []
    ensures OccursAt(s[1..], p, j) <==> OccursAt(s, p, j + 1)
  {
    if j + 1 + |p| <= |s| {
      assert s[1..][j..j + |p|] == s[j + 1..j + 1 + |p|];
    }
  }

  /**
   * The first occurrence is replaced: the text `x` before it is kept, and the
   * scan goes on after it. With the first `ensures` of `ReplaceAll` (no
   * occurrence, no change) this determines `replace` completely.
   */
  lemma {:induction false} ReplaceFirst(x: string, pat: string, w: string, rep: string)
    requires pat != []
    requires forall j: nat :: j < |x| ==> !OccursAt(x + pat + w, pat, j)
    ensures ReplaceAll(x + pat + w, pat, rep) == x + rep + ReplaceAll(w, pat, rep)
    decreases |x|
  {
    if x == [] {
      assert x + pat + w == pat + w;
      assert x + rep == rep;
      ReplaceLeading(pat, w, rep);
    } else {
      NoEarlierAfterShift(x, pat, w);
      ReplaceFirst(x[1..], pat, w, rep);
      ReplaceSkipsFirst(x, pat, w, rep);
      ConsAssoc(x, rep, ReplaceAll(w, pat, rep));
    }
  }

  lemma {:induction false} ConsAssoc(x: string, a: string, b: string)
    requires x != []
    ensures [x[0]] + (x[1..] + a + b) == x + a + b
  {
    assert [x[0]] + x[1..] == x;
  }

  /** Dropping the first character of `x` keeps the first occurrence first. */
  lemma {:induction false} NoEarlierAfterShift(x: string, pat: string, w: string)
    requires x != []
    requires forall j: nat :: j < |x| ==> !OccursAt(x + pat + w, pat, j)
    ensures forall j: nat :: j < |x| - 1 ==> !OccursAt(x[1..] + pat + w, pat, j)
  {
    var s := x + pat + w;
    assert s[1..] == x[1..] + pat + w;
    forall j: nat | j < |x| - 1
      ensures !OccursAt(x[1..] + pat + w, pat, j)
    {
      OccursShift(s, pat, j);
    }
  }

  /** A first character that does not begin an occurrence is copied. */
  lemma {:induction false} ReplaceSkipsFirst(x: string, pat: string, w: string, rep: string)
    requires pat != [] && x != [] && !OccursAt(x + pat + w, pat, 0)
    ensures ReplaceAll(x + pat + w, pat, rep) == [x[0]] + ReplaceAll(x[1..] + pat + w, pat, rep)
  {
    var s := x + pat + w;
    assert s[1..] == x[1..] + pat + w;
    assert s[0] == x[0];
  }

  lemma {:induction false} SplitAround(s: string, pat: string, i: nat)
    requires OccursAt(s, pat, i)
    ensures s == s[..i] + pat + s[i + |pat|..]
  {
    assert s == s[..i] + s[i..i + |pat|] + s[i + |pat|..];
  }

  /** `ReplaceFirst` at the index of the first occurrence. */
  lemma {:induction false} ReplaceAtFirst(s: string, pat: string, rep: string, i: nat)
    requires pat != [] && OccursAt(s, pat, i)
    requires forall j: nat :: j < i ==> !OccursAt(s, pat, j)
    ensures ReplaceAll(s, pat, rep) == s[..i] + rep + ReplaceAll(s[i + |pat|..], pat, rep)
  {
    var x, w := s[..i], s[i + |pat|..];
    SplitAround(s, pat, i);
    ReplaceFirst(x, pat, w, rep);
  }

  // ---------------------------------------------------------------- strip

  /** The length of the run of white space that begins `s`. */
  function LeadingSpaces(s: string): (n: nat)
    ensures n <= |s|
    ensures forall k :: 0 <= k < n ==> IsSpace(s[k])
    ensures n < |s| ==> !IsSpace(s[n])
    decreases |s|
  {
    if s == [] || !IsSpace(s[0]) then 0 else 1 + LeadingSpaces(s[1..])
  }

  /** The length of the run of white space that ends `s`. */
  function TrailingSpaces(s: string): (n: nat)
    ensures n <= |s|
    ensures forall k :: |s| - n <= k < |s| ==> IsSpace(s[k])
    ensures n < |s| ==> !IsSpace(s[|s| - 1 - n])
    decreases |s|
  {
    if s == [] || !IsSpace(s[|s| - 1]) then 0 else 1 + TrailingSpaces(s[..|s| - 1])
  }

  /** Python's `s.strip()`: `s` without its leading and trailing white space. */
  function Strip(s: string): (r: string)
    ensures IsTrimmed(r)
    ensures |r| <= |s|
    ensures IsLowerCase(s) ==> IsLowerCase(r)
  {
    var t := s[LeadingSpaces(s)..];
    t[..|t| - TrailingSpaces(t)]
  }

  /** What `Strip` removes is white space, and only from the two ends. */
  lemma {:induction false} StripRemovesOnlySpace(s: string)
    ensures exists front, back :: AllSpace(front) && AllSpace(back) && s == front + Strip(s) + back
  {
    var t := s[LeadingSpaces(s)..];
    var front, back := s[..LeadingSpaces(s)], t[|t| - TrailingSpaces(t)..];
    StripSplit(s);
    LeadingRunIsSpace(s);
    TrailingRunIsSpace(t);
    assert AllSpace(front) && AllSpace(back) && s == front + Strip(s) + back;
  }

  lemma {:induction false} LeadingRunIsSpace(s: string)
    ensures AllSpace(s[..LeadingSpaces(s)])
  {
    var front := s[..LeadingSpaces(s)];
    forall k | 0 <= k < |front|
      ensures IsSpace(front[k])
    {
      assert front[k] == s[k];
    }
  }

  lemma {:induction false} TrailingRunIsSpace(t: string)
    ensures AllSpace(t[|t| - TrailingSpaces(t)..])
  {
    var i := |t| - TrailingSpaces(t);
    var back := t[i..];
    forall k | 0 <= k < |back|
      ensures IsSpace(back[k])
    {
      assert back[k] == t[i + k];
    }
  }

  lemma {:induction false} StripSplit(s: string)
    ensures var t := s[LeadingSpaces(s)..];
      s == s[..LeadingSpaces(s)] + Strip(s) + t[|t| - TrailingSpaces(t)..]
  {
    var n := LeadingSpaces(s);
    var t := s[n..];
    var m := TrailingSpaces(t);
    var front, mid, back := s[..n], t[..|t| - m], t[|t| - m..];
    assert Strip(s) == mid;
    SplitThree(s, n, front, t, mid, back);
  }

  lemma {:induction false} SplitThree(s: string, n: nat, front: string, t: string, mid: string, back: string)
    requires n <= |s| && front == s[..n] && t == s[n..]
    requires |mid| <= |t| && mid == t[..|mid|] && back == t[|mid|..]
    ensures s == front + mid + back
  {
    assert t == mid + back;
    assert s == front + t;
  }

  /** A trimmed string between two runs of white space is what `Strip` returns. */
  lemma {:induction false} StripFrame(front: string, w: string, back: string)
    requires AllSpace(front) && IsTrimmed(w) && AllSpace(back)
    ensures Strip(front + w + back) == w
  {
    var s := front + w + back;
    var n := LeadingSpaces(s);
    if w == [] {
      assert AllSpace(s);
      assert n == |s|;
    } else {
      assert s[|front|] == w[0];
      assert n == |front|;
      var t := s[n..];
      assert t == w + back;
      var m := TrailingSpaces(t);
      assert t[|w| - 1] == w[|w| - 1];
      assert m == |back|;
      assert t[..|t| - m] == w;
    }
  }

  /** Stripping twice is stripping once. */
  lemma {:induction false} StripIdempotent(s: string)
    ensures Strip(Strip(s)) == Strip(s)
  {
    StripFrame([], Strip(s), []);
    assert [] + Strip(s) + [] == Strip(s);
  }

  // ---------------------------------------------------------------- split

  /**
   * Python's `s.split(sep, 1)`: `[s]` when `sep` does not occur, otherwise the
   * text before and the text after its first occurrence.
   */
  function SplitOnce(s: string, sep: string): (parts: seq<string>)
    requires sep != []
    ensures 1 <= |parts| <= 2
    ensures |parts| == 1 <==> !Contains(s, sep)
    ensures |parts| == 1 ==> parts[0] == s
    ensures |parts| == 2 ==> parts[0] + sep + parts[1] == s
    ensures |parts| == 2 ==> forall j: nat :: j < |parts[0]| ==> !OccursAt(s, sep, j)
  {
    match FindFrom(s, sep, 0)
    case None => [s]
    case Some(i) =>
      assert s == s[..i] + s[i..i + |sep|] + s[i + |sep|..];
      [s[..i], s[i + |sep|..]]
  }

  /** When `s` starts with `sep`, its second part is everything after that prefix. */
  lemma {:induction false} SplitAtPrefix(s: string, sep: string)
    requires sep != [] && StartsWith(s, sep)
    ensures SplitOnce(s, sep) == [[], s[|sep|..]]
  {
  }

  // ---------------------------------------------------------------- str(int)

  predicate IsDigits(s: string) {
    forall k :: 0 <= k < |s| ==> '0' <= s[k] <= '9'
  }

  function DigitChar(d: nat): char
    requires d < 10
  {
    ('0' as int + d) as char
  }

  /** Python's `str(n)` for a natural number: its decimal digits. */
  function NatToString(n: nat): (s: string)
    ensures s != [] && IsDigits(s)
    ensures s[0] == '0' ==> n == 0
    ensures n == 0 ==> s == "0"
    ensures |s| > 1 ==> s[0] != '0'
    decreases n
  {
    if n < 10 then [DigitChar(n)] else NatToString(n / 10) + [DigitChar(n % 10)]
  }

  /** The number a string of decimal digits denotes. */
  function DecimalValue(s: string): nat
    requires IsDigits(s)
    decreases |s|
  {
    if s == [] then 0 else 10 * DecimalValue(s[..|s| - 1]) + (s[|s| - 1] as int - '0' as int)
  }

  /** `NatToString` writes exactly the number it is given. */
  lemma {:induction false} DecimalRoundTrip(n: nat)
    ensures DecimalValue(NatToString(n)) == n
    decreases n
  {
    if n >= 10 {
      var s := NatToString(n);
      DecimalRoundTrip(n / 10);
      assert s[..|s| - 1] == NatToString(n / 10);
    }
  }
}
