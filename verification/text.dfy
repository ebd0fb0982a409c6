/** Characters and strings as the Python core sees them, restricted to ASCII.

    Strings are `seq<char>`. The character classes follow Python's `str`
    methods on ASCII input: `isspace`, `isdigit`, `isalnum`, `lower`, `upper`.
    A character outside ASCII is treated as neither whitespace nor
    alphanumeric, and case mapping leaves it unchanged.
 */
module Text {

  datatype Option<+T> = None | Some(value: T)

  /** `str.isspace()` on ASCII: tab, line feed, vertical tab, form feed,
      carriage return, the separators 0x1C-0x1F and the space. This is also
      the set that `\s` matches in a `str` regular expression. */
  predicate IsSpace(c: char) {
    var n := c as int; (9 <= n <= 13) || (28 <= n <= 32)
  }

  predicate NotSpace(c: char) { !IsSpace(c) }

  predicate NotUnderscore(c: char) { c != '_' }

  predicate IsDigit(c: char) { '0' <= c <= '9' }

  predicate IsLowerAlpha(c: char) { 'a' <= c <= 'z' }

  predicate IsUpperAlpha(c: char) { 'A' <= c <= 'Z' }

  predicate IsAlpha(c: char) { IsLowerAlpha(c) || IsUpperAlpha(c) }

  /** `str.isalnum()` on ASCII. */
  predicate IsAlnum(c: char) { IsDigit(c) || IsAlpha(c) }

  /** The characters `[a-z0-9]` of the core's slug regular expressions. */
  predicate IsLowerAlnum(c: char) { IsDigit(c) || IsLowerAlpha(c) }

  function ToLower(c: char): char {
    if IsUpperAlpha(c) then (c as int + 32) as char else c
  }

  function ToUpper(c: char): char {
    if IsLowerAlpha(c) then (c as int - 32) as char else c
  }

  /** `str.lower()`. */
  function Lower(s: string): (r: string)
    ensures |r| == |s|
  {
    seq(|s|, i requires 0 <= i < |s| => ToLower(s[i]))
  }

  /** `pat` occurs in `s` starting at index `i`. */
  predicate At(s: string, i: nat, pat: string) {
    i + |pat| <= |s| && s[i..i + |pat|] == pat
  }

  /** Python's `pat in s`. */
  predicate Contains(s: string, pat: string) {
    exists i: nat | i <= |s| :: At(s, i, pat)
  }

  /** Every character of `s[i..j]` satisfies `P`. */
  predicate AllIn(s: string, i: nat, j: nat, P: char -> bool) {
    i <= j <= |s| && forall k :: i <= k < j ==> P(s[k])
  }

  /** Python's `s[:n]`. */
  function Take(s: string, n: nat): (r: string)
    ensures |r| <= n && |r| <= |s|
    ensures r == s[..|r|]
    ensures |s| <= n ==> r == s
  {
    if n <= |s| then s[..n] else s
  }

  /** The characters of `s` that satisfy `P`, in order (a comprehension
      `"".join(c for c in s if P(c))`). */
  function Filter(s: string, P: char -> bool): (r: string)
    ensures |r| <= |s|
    ensures forall i :: 0 <= i < |r| ==> P(r[i])
  {
    if s == [] then [] else (if P(s[0]) then [s[0]] else []) + Filter(s[1..], P)
  }

  /** Applies `f` to every element. */
  function MapSeq<A, B>(f: A -> B, xs: seq<A>): (r: seq<B>)
    ensures |r| == |xs|
    ensures forall i :: 0 <= i < |xs| ==> r[i] == f(xs[i])
  {
    seq(|xs|, i requires 0 <= i < |xs| => f(xs[i]))
  }

  /** Concatenation of a sequence of strings (`"".join(xs)`). */
  function Concat(xs: seq<string>): string {
    if xs == [] then [] else xs[0] + Concat(xs[1..])
  }

  lemma LowerKeepsAlnum(c: char)
    ensures IsAlnum(ToLower(c)) <==> IsAlnum(c)
    ensures IsAlnum(c) ==> IsLowerAlnum(ToLower(c))
    ensures !IsAlpha(c) ==> ToLower(c) == c
    ensures ToLower(ToUpper(c)) == ToLower(c)
  {
  }

  /** An occurrence shifted by a prefix: `pat` at `i` in `t` is at `|u| + i` in `u + t`. */
  lemma AtShift(u: string, t: string, i: nat, pat: string)
    ensures At(t, i, pat) <==> At(u + t, |u| + i, pat)
  {
    if At(t, i, pat) {
      assert (u + t)[|u| + i..|u| + i + |pat|] == t[i..i + |pat|];
    }
    if At(u + t, |u| + i, pat) {
      assert (u + t)[|u| + i..|u| + i + |pat|] == t[i..i + |pat|];
    }
  }

  lemma ContainsShift(u: string, t: string, pat: string)
    requires Contains(t, pat)
    ensures Contains(u + t, pat)
  {
    var i: nat :| i <= |t| && At(t, i, pat);
    AtShift(u, t, i, pat);
  }

  /** An occurrence in `s[1..]` is an occurrence in `s` one place later. */
  lemma AtTail(s: string, i: nat, pat: string)
    requires |s| > 0
    ensures At(s[1..], i, pat) <==> At(s, i + 1, pat)
  {
    AtShift([s[0]], s[1..], i, pat);
    assert [s[0]] + s[1..] == s;
  }

  /** `pat` occurs in `s[i..j]` at `k` exactly when it occurs in `s` at `i + k`
      and ends before `j`. */
  lemma AtSlice(s: string, i: nat, j: nat, k: nat, pat: string)
    requires i <= j <= |s|
    ensures At(s[i..j], k, pat) <==> (At(s, i + k, pat) && i + k + |pat| <= j)
  {
    if i + k + |pat| <= j {
      var a, b := s[i..j][k..k + |pat|], s[i + k..i + k + |pat|];
      assert |a| == |b|;
      forall t | 0 <= t < |a| ensures a[t] == b[t] {}
      assert a == b;
    }
  }

  /** `str.capitalize()`: the first character upper-cased, the rest lower-cased. */
  function Capitalize(w: string): (r: string)
    ensures |r| == |w|
    ensures w == [] ==> r == []
    ensures |w| > 0 ==> r[0] == ToUpper(w[0]) && r[1..] == Lower(w[1..])
    ensures forall i :: 0 <= i < |w| ==> (IsAlnum(r[i]) <==> IsAlnum(w[i]))
  {
    if w == [] then [] else [ToUpper(w[0])] + Lower(w[1..])
  }

  lemma LowerAppend(a: string, b: string)
    ensures Lower(a + b) == Lower(a) + Lower(b)
  {
  }

  lemma LowerCons(s: string)
    requires |s| > 0
    ensures Lower(s) == [ToLower(s[0])] + Lower(s[1..])
  {
  }

  /** Filtering by a predicate every character meets keeps the string. */
  lemma {:induction false} FilterAll(s: string, P: char -> bool)
    requires forall k :: 0 <= k < |s| ==> P(s[k])
    ensures Filter(s, P) == s
    decreases |s|
  {
    if s != [] {
      FilterAll(s[1..], P);
      assert [s[0]] + s[1..] == s;
    }
  }

  lemma {:induction false} FilterAppend(a: string, b: string, P: char -> bool)
    ensures Filter(a + b, P) == Filter(a, P) + Filter(b, P)
    decreases |a|
  {
    if a != [] {
      assert (a + b)[1..] == a[1..] + b;
      FilterAppend(a[1..], b, P);
    } else {
      assert a + b == b;
    }
  }

  /** Lower-casing commutes with keeping the alphanumerics. */
  lemma {:induction false} LowerFilterAlnum(s: string)
    ensures Lower(Filter(s, IsAlnum)) == Filter(Lower(s), IsAlnum)
    decreases |s|
  {
    if s != [] {
      LowerKeepsAlnum(s[0]);
      LowerCons(s);
      LowerFilterAlnum(s[1..]);
      LowerAppend(if IsAlnum(s[0]) then [s[0]] else [], Filter(s[1..], IsAlnum));
    }
  }

  /** Lower-casing commutes with dropping whitespace. */
  lemma {:induction false} LowerFilterNotSpace(s: string)
    ensures Lower(Filter(s, NotSpace)) == Filter(Lower(s), NotSpace)
    decreases |s|
  {
    if s != [] {
      LowerCons(s);
      LowerFilterNotSpace(s[1..]);
      LowerAppend(if NotSpace(s[0]) then [s[0]] else [], Filter(s[1..], NotSpace));
    }
  }

  /** Dropping whitespace first does not change which alphanumerics are kept. */
  lemma {:induction false} FilterNotSpaceThenAlnum(s: string)
    ensures Filter(Filter(s, NotSpace), IsAlnum) == Filter(s, IsAlnum)
    decreases |s|
  {
    if s != [] {
      FilterNotSpaceThenAlnum(s[1..]);
      FilterAppend(if NotSpace(s[0]) then [s[0]] else [], Filter(s[1..], NotSpace), IsAlnum);
    }
  }

  /** Capitalising words only changes case. */
  lemma {:induction false} LowerConcatCapitalize(ws: seq<string>)
    ensures Lower(Concat(MapSeq(Capitalize, ws))) == Lower(Concat(ws))
    decreases |ws|
  {
    if ws != [] {
      var m := MapSeq(Capitalize, ws);
      assert m[1..] == MapSeq(Capitalize, ws[1..]);
      LowerConcatCapitalize(ws[1..]);
      LowerAppend(m[0], Concat(m[1..]));
      LowerAppend(ws[0], Concat(ws[1..]));
      if ws[0] != [] {
        LowerCons(m[0]);
        LowerCons(ws[0]);
        LowerKeepsAlnum(ws[0][0]);
        assert Lower(Lower(ws[0][1..])) == Lower(ws[0][1..]);
      }
    }
  }

  /** The number of occurrences of `c` in `s`. */
  function Count(s: string, c: char): nat {
    multiset(s)[c]
  }

  lemma CountAppend(a: string, b: string, c: char)
    ensures Count(a + b, c) == Count(a, c) + Count(b, c)
  {
    assert multiset(a + b) == multiset(a) + multiset(b);
  }

  lemma {:induction false} FilterCount(s: string, P: char -> bool, c: char)
    ensures Count(Filter(s, P), c) == if P(c) then Count(s, c) else 0
    decreases |s|
  {
    if s != [] {
      FilterCount(s[1..], P, c);
      assert s == [s[0]] + s[1..];
      assert multiset(s) == multiset([s[0]]) + multiset(s[1..]);
    }
  }
}
