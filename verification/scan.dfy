/** Index searches shared by the regular-expression models, and Python's
    `str.strip`.

    A `re.search` finds the leftmost start at which its pattern matches; a
    lazy quantifier takes the shortest continuation that lets the rest match,
    a greedy one the longest. `FirstFrom` and `LastIn` are those two choices
    over a range of candidate positions; `RunEnd` and `RunStartBack` are the
    maximal runs a greedy character class consumes.
 */
module Scan {
  import opened Text

  /** The least `j` in `[i, n]` with `P(j)`, if there is one. */
  function FirstFrom(i: nat, n: nat, P: nat -> bool): (r: Option<nat>)
    ensures r.Some? ==> i <= r.value <= n && P(r.value)
    ensures r.Some? ==> forall j :: i <= j < r.value ==> !P(j)
    ensures r.None? ==> forall j :: i <= j <= n ==> !P(j)
    decreases n + 1 - i
  {
    if i > n then None
    else if P(i) then Some(i)
    else FirstFrom(i + 1, n, P)
  }

  /** The greatest `j` in `[lo, hi)` with `P(j)`, if there is one. */
  function LastIn(lo: nat, hi: nat, P: nat -> bool): (r: Option<nat>)
    ensures r.Some? ==> lo <= r.value < hi && P(r.value)
    ensures r.Some? ==> forall j :: r.value < j < hi ==> !P(j)
    ensures r.None? ==> forall j :: lo <= j < hi ==> !P(j)
    decreases hi
  {
    if hi <= lo then None
    else if P(hi - 1) then Some(hi - 1)
    else LastIn(lo, hi - 1, P)
  }

  /** End of the maximal run of `P`-characters starting at `i`: what a greedy
      `[...]*` starting at `i` consumes. */
  function RunEnd(s: string, i: nat, P: char -> bool): (r: nat)
    requires i <= |s|
    ensures i <= r <= |s|
    ensures forall k :: i <= k < r ==> P(s[k])
    ensures r < |s| ==> !P(s[r])
    decreases |s| - i
  {
    if i < |s| && P(s[i]) then RunEnd(s, i + 1, P) else i
  }

  /** Start of the maximal run of `P`-characters that ends at `j`. */
  function RunStartBack(s: string, j: nat, P: char -> bool): (r: nat)
    requires j <= |s|
    ensures r <= j
    ensures forall k :: r <= k < j ==> P(s[k])
    ensures r > 0 ==> !P(s[r - 1])
  {
    if j > 0 && P(s[j - 1]) then RunStartBack(s, j - 1, P) else j
  }

  /** A run end is determined by its two defining facts. */
  lemma RunEndUnique(s: string, i: nat, j: nat, P: char -> bool)
    requires AllIn(s, i, j, P)
    requires j == |s| || !P(s[j])
    ensures RunEnd(s, i, P) == j
  {
  }

  function SpaceEnd(s: string, i: nat): (r: nat)
    requires i <= |s|
    ensures i <= r <= |s|
  {
    RunEnd(s, i, IsSpace)
  }

  /** The bounds that Python's `s.strip(chars)` keeps, for the character set
      `P`: everything before `lo` and from `hi` on is in the set, and a
      non-empty remainder starts and ends outside it. These facts determine
      the bounds, so the remainder `s[lo..hi]` is the strip. */
  function StripSpan(s: string, P: char -> bool): (b: (nat, nat))
    ensures b.0 <= b.1 <= |s|
    ensures forall k :: 0 <= k < b.0 ==> P(s[k])
    ensures forall k :: b.1 <= k < |s| ==> P(s[k])
    ensures b.0 < b.1 ==> !P(s[b.0]) && !P(s[b.1 - 1])
    ensures b.0 == b.1 ==> forall k :: 0 <= k < |s| ==> P(s[k])
  {
    var lo := RunEnd(s, 0, P);
    if lo == |s| then (lo, lo)
    else
      var hi := RunStartBack(s, |s|, P);
      assert !P(s[lo]);
      (lo, hi)
  }

  function StripBy(s: string, P: char -> bool): (r: string)
    ensures |r| <= |s|
  {
    var b := StripSpan(s, P);
    s[b.0..b.1]
  }

  /** Python's `s.strip()`. */
  function Strip(s: string): (r: string)
    ensures |r| <= |s|
  {
    StripBy(s, IsSpace)
  }

  /** A string whose ends are outside the set is its own strip. */
  lemma StripByFixed(s: string, P: char -> bool)
    requires |s| == 0 || (!P(s[0]) && !P(s[|s| - 1]))
    ensures StripBy(s, P) == s
  {
    var b := StripSpan(s, P);
    if |s| > 0 {
      assert !P(s[0]) && !P(s[|s| - 1]);
    }
  }

  /** Stripping twice strips no more than stripping once. */
  lemma {:induction false} StripByIdempotent(s: string, P: char -> bool)
    ensures StripBy(StripBy(s, P), P) == StripBy(s, P)
  {
    var r := StripBy(s, P);
    var b := StripSpan(s, P);
    if |r| > 0 {
      assert r[0] == s[b.0] && r[|r| - 1] == s[b.1 - 1];
    }
    StripByFixed(r, P);
  }

  /** A stripped string has no surrounding characters of the set. */
  lemma StripByShape(s: string, P: char -> bool)
    ensures var r := StripBy(s, P);
      (|r| == 0 || (!P(r[0]) && !P(r[|r| - 1])))
  {
    var b := StripSpan(s, P);
    var r := StripBy(s, P);
    if |r| > 0 {
      assert r[0] == s[b.0] && r[|r| - 1] == s[b.1 - 1];
    }
  }

  /** Strip keeps an occurrence of `m` whose first and last characters lie
      outside the set. */
  lemma StripKeepsOccurrence(s: string, t: nat, m: string, P: char -> bool)
    requires |m| > 0 && At(s, t, m)
    requires !P(m[0]) && !P(m[|m| - 1])
    ensures Contains(StripBy(s, P), m)
  {
    var b := StripSpan(s, P);
    assert s[t] == m[0] && s[t + |m| - 1] == m[|m| - 1];
    assert !P(s[t]) && !P(s[t + |m| - 1]);
    assert b.0 <= t && t + |m| <= b.1;
    var r := StripBy(s, P);
    var k := t - b.0;
    forall i | 0 <= i < |m| ensures r[k + i] == m[i] {
      assert r[k + i] == s[t + i];
    }
    assert r[k..k + |m|] == m;
    assert At(r, k, m);
  }

  /** Strip adds no character. */
  lemma StripByKeepsOut(s: string, P: char -> bool, c: char)
    requires c !in s
    ensures c !in StripBy(s, P)
  {
    var b := StripSpan(s, P);
    var r := StripBy(s, P);
    assert forall k :: 0 <= k < |r| ==> r[k] == s[b.0 + k];
  }

  /** The strip bounds are determined by their defining facts. */
  lemma StripByUnique(s: string, P: char -> bool, lo: nat, hi: nat)
    requires lo <= hi <= |s|
    requires forall k :: 0 <= k < lo ==> P(s[k])
    requires forall k :: hi <= k < |s| ==> P(s[k])
    requires lo < hi ==> !P(s[lo]) && !P(s[hi - 1])
    requires lo == hi ==> forall k :: 0 <= k < |s| ==> P(s[k])
    ensures StripBy(s, P) == s[lo..hi]
  {
    var b := StripSpan(s, P);
    if lo < hi {
      assert !P(s[lo]) && !P(s[hi - 1]);
      assert b.0 <= lo && hi <= b.1;
      assert b.0 < b.1;
      assert !P(s[b.0]) && !P(s[b.1 - 1]);
    }
  }

  /** Stripping ignores one more leading character of the set. */
  lemma StripBySkipsHead(c: char, x: string, P: char -> bool)
    requires P(c)
    ensures StripBy([c] + x, P) == StripBy(x, P)
  {
    var b := StripSpan(x, P);
    ShiftedSpan(c, x, P, b.0, b.1);
  }

  /** The strip bounds of `x`, moved one place right, are those of `[c] + x`. */
  lemma ShiftedSpan(c: char, x: string, P: char -> bool, lo: nat, hi: nat)
    requires P(c)
    requires lo <= hi <= |x|
    requires forall k :: 0 <= k < lo ==> P(x[k])
    requires forall k :: hi <= k < |x| ==> P(x[k])
    requires lo < hi ==> !P(x[lo]) && !P(x[hi - 1])
    requires lo == hi ==> forall k :: 0 <= k < |x| ==> P(x[k])
    ensures StripBy([c] + x, P) == x[lo..hi]
  {
    var s := [c] + x;
    assert forall k :: 0 < k < |s| ==> s[k] == x[k - 1];
    if lo < hi {
      StripByUnique(s, P, lo + 1, hi + 1);
      assert s[lo + 1..hi + 1] == x[lo..hi];
    } else {
      StripByUnique(s, P, 0, 0);
    }
  }
}
