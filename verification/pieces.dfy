/** Python's `str.split(sep)` for a one-character separator, `sep.join(xs)`,
    and `str.split()` on whitespace. */
module Pieces {
  import opened Text
  import opened Scan

  /** `s.split(c)`: the pieces between separators, always at least one, none
      containing the separator. */
  function Split(s: string, c: char): (r: seq<string>)
    ensures |r| >= 1
    ensures forall i :: 0 <= i < |r| ==> c !in r[i]
  {
    if s == [] then [[]]
    else
      var rest := Split(s[1..], c);
      if s[0] == c then [[]] + rest else [[s[0]] + rest[0]] + rest[1..]
  }

  /** `sep.join(xs)`. */
  function Join(xs: seq<string>, sep: string): string {
    if |xs| == 0 then []
    else if |xs| == 1 then xs[0]
    else xs[0] + sep + Join(xs[1..], sep)
  }

  lemma {:induction false} SplitWithoutSeparator(a: string, c: char)
    requires c !in a
    ensures Split(a, c) == [a]
    decreases |a|
  {
    if a != [] {
      SplitWithoutSeparator(a[1..], c);
      assert [a[0]] + a[1..] == a;
    }
  }

  lemma {:induction false} SplitAtSeparator(a: string, c: char, b: string)
    requires c !in a
    ensures Split(a + [c] + b, c) == [a] + Split(b, c)
    decreases |a|
  {
    var s := a + [c] + b;
    if a == [] {
      assert s[1..] == b;
    } else {
      assert s[1..] == a[1..] + [c] + b;
      SplitAtSeparator(a[1..], c, b);
      assert [a[0]] + a[1..] == a;
    }
  }

  /** The pieces of a string joined around one separator are the pieces of
      each side. */
  lemma {:induction false} SplitAround(x: string, c: char, y: string)
    ensures Split(x + [c] + y, c) == Split(x, c) + Split(y, c)
    decreases |x|
  {
    if x == [] {
      assert x + [c] + y == [c] + y;
      assert ([c] + y)[1..] == y;
    } else {
      assert (x + [c] + y)[1..] == x[1..] + [c] + y;
      SplitAround(x[1..], c, y);
    }
  }

  /** Splitting a join recovers the list when no element contains the
      separator. */
  lemma {:induction false} SplitJoin(xs: seq<string>, c: char)
    requires |xs| >= 1
    requires forall i :: 0 <= i < |xs| ==> c !in xs[i]
    ensures Split(Join(xs, [c]), c) == xs
    decreases |xs|
  {
    if |xs| == 1 {
      SplitWithoutSeparator(xs[0], c);
    } else {
      SplitJoin(xs[1..], c);
      SplitAtSeparator(xs[0], c, Join(xs[1..], [c]));
      assert [xs[0]] + xs[1..] == xs;
    }
  }

  /** Joining the pieces of a split gives the string back. */
  lemma {:induction false} JoinSplit(s: string, c: char)
    ensures Join(Split(s, c), [c]) == s
    decreases |s|
  {
    if s != [] {
      JoinSplit(s[1..], c);
      var rest := Split(s[1..], c);
      if s[0] != c && |rest| > 1 {
        assert Join(rest, [c]) == rest[0] + [c] + Join(rest[1..], [c]);
        assert rest[1..][1..] == rest[2..];
      }
      assert [s[0]] + s[1..] == s;
    }
  }

  /** `s.split()`: the maximal runs of non-whitespace characters, in order. */
  function Words(s: string): (r: seq<string>)
    ensures forall i :: 0 <= i < |r| ==> |r[i]| > 0
    ensures forall i, k :: 0 <= i < |r| && 0 <= k < |r[i]| ==> !IsSpace(r[i][k])
    decreases |s|
  {
    var a := SpaceEnd(s, 0);
    if a == |s| then []
    else
      var b := RunEnd(s, a, NotSpace);
      [s[a..b]] + Words(s[b..])
  }

  /** The words of `s`, concatenated, are its non-whitespace characters. */
  lemma {:induction false} WordsConcat(s: string)
    ensures Concat(Words(s)) == Filter(s, NotSpace)
    decreases |s|
  {
    var a := SpaceEnd(s, 0);
    assert Filter(s, NotSpace) == Filter(s[a..], NotSpace) by {
      FilterSkip(s, 0, a);
      assert s[0..] == s;
    }
    if a < |s| {
      var b := RunEnd(s, a, NotSpace);
      assert Concat(Words(s)) == s[a..b] + Concat(Words(s[b..])) by {
        assert Words(s) == [s[a..b]] + Words(s[b..]);
        ConcatCons(s[a..b], Words(s[b..]));
      }
      WordsConcat(s[b..]);
      assert Filter(s[a..], NotSpace) == s[a..b] + Filter(s[b..], NotSpace) by {
        WordRunFiltered(s, a, b);
      }
    } else {
      assert s[a..] == [];
    }
  }

  /** A word is a non-empty run without whitespace. */
  predicate IsWord(w: string) {
    |w| > 0 && forall k :: 0 <= k < |w| ==> NotSpace(w[k])
  }

  /** Every word is non-empty and alphanumeric. */
  predicate AlnumWords(ws: seq<string>) {
    forall i :: 0 <= i < |ws| ==> |ws[i]| > 0 && forall k :: 0 <= k < |ws[i]| ==> IsAlnum(ws[i][k])
  }

  /** A join of non-empty pieces starts with the first piece's first
      character and ends with the last piece's last one. */
  lemma {:induction false} JoinEnds(ws: seq<string>, sep: string)
    requires |ws| > 0 && forall i :: 0 <= i < |ws| ==> |ws[i]| > 0
    ensures var j := Join(ws, sep);
      |j| > 0 && j[0] == ws[0][0] && j[|j| - 1] == ws[|ws| - 1][|ws[|ws| - 1]| - 1]
    decreases |ws|
  {
    if |ws| > 1 {
      JoinEnds(ws[1..], sep);
    }
  }

  /** Lower-casing a join lower-cases each piece and the separator. */
  lemma {:induction false} LowerJoin(ws: seq<string>, sep: string)
    ensures Lower(Join(ws, sep)) == Join(MapSeq(Lower, ws), Lower(sep))
    decreases |ws|
  {
    if |ws| > 1 {
      LowerJoin(ws[1..], sep);
      assert MapSeq(Lower, ws)[1..] == MapSeq(Lower, ws[1..]);
      LowerAppend(ws[0] + sep, Join(ws[1..], sep));
      LowerAppend(ws[0], sep);
    }
  }

  /** `s.split()` undoes `" ".join(ws)` when every element is a word. */
  lemma {:induction false} WordsOfJoin(ws: seq<string>)
    requires forall i :: 0 <= i < |ws| ==> IsWord(ws[i])
    ensures Words(Join(ws, " ")) == ws
    decreases |ws|
  {
    if |ws| == 1 {
      WordAlone(ws[0]);
    } else if |ws| > 1 {
      WordsOfJoin(ws[1..]);
      WordThenSpace(ws[0], Join(ws[1..], " "));
      assert [ws[0]] + ws[1..] == ws;
    }
  }

  lemma WordAlone(w: string)
    requires IsWord(w)
    ensures Words(w) == [w]
  {
    RunEndUnique(w, 0, 0, IsSpace);
    RunEndUnique(w, 0, |w|, NotSpace);
    assert w[0..|w|] == w;
    assert w[|w|..] == [];
  }

  /** A word followed by a space contributes itself and nothing else. */
  lemma WordThenSpace(w: string, t: string)
    requires IsWord(w)
    ensures Words(w + " " + t) == [w] + Words(t)
  {
    var s := w + " " + t;
    RunEndUnique(s, 0, 0, IsSpace);
    assert AllIn(s, 0, |w|, NotSpace) by {
      assert forall k :: 0 <= k < |w| ==> s[k] == w[k];
    }
    RunEndUnique(s, 0, |w|, NotSpace);
    assert s[0..|w|] == w;
    assert s[|w|..] == [' '] + t;
    WordsSkipSpace(' ', t);
  }

  /** A leading whitespace character does not change the words. */
  lemma WordsSkipSpace(c: char, t: string)
    requires IsSpace(c)
    ensures Words([c] + t) == Words(t)
  {
    var u := [c] + t;
    var a := SpaceEnd(t, 0);
    assert SpaceEnd(u, 0) == a + 1 by {
      ShiftedRunEnd(c, t, 0, IsSpace);
      assert RunEnd(u, 0, IsSpace) == RunEnd(u, 1, IsSpace);
    }
    if a < |t| {
      var b := RunEnd(t, a, NotSpace);
      assert RunEnd(u, a + 1, NotSpace) == b + 1 && u[a + 1..b + 1] == t[a..b] && u[b + 1..] == t[b..] by {
        ShiftedRunEnd(c, t, a, NotSpace);
      }
      ShiftedWords(u, t, a, b);
    } else {
      AllSpaceNoWords(u);
      AllSpaceNoWords(t);
    }
  }

  /** Text that is whitespace to its end has no words. */
  lemma AllSpaceNoWords(s: string)
    requires SpaceEnd(s, 0) == |s|
    ensures Words(s) == []
  {
  }

  /** `u` has the first word of `t` one place later, and the same text after
      it, so it has the same words. */
  lemma ShiftedWords(u: string, t: string, a: nat, b: nat)
    requires a < |t| && SpaceEnd(t, 0) == a && b == RunEnd(t, a, NotSpace)
    requires a + 1 < |u| && SpaceEnd(u, 0) == a + 1 && RunEnd(u, a + 1, NotSpace) == b + 1
    requires u[a + 1..b + 1] == t[a..b] && u[b + 1..] == t[b..]
    ensures Words(u) == Words(t)
  {
    WordsStep(u, a + 1, b + 1);
    WordsStep(t, a, b);
  }

  /** One step of `Words`: the first word and the words after it. */
  lemma WordsStep(s: string, a: nat, b: nat)
    requires a == SpaceEnd(s, 0) < |s| && b == RunEnd(s, a, NotSpace)
    ensures Words(s) == [s[a..b]] + Words(s[b..])
  {
  }

  /** Prefixing a character shifts a run end by one. */
  lemma ShiftedRunEnd(c: char, t: string, i: nat, P: char -> bool)
    requires i <= |t|
    ensures RunEnd([c] + t, i + 1, P) == RunEnd(t, i, P) + 1
  {
    var u := [c] + t;
    var e := RunEnd(t, i, P);
    assert forall k :: 1 <= k <= |t| ==> u[k] == t[k - 1];
    RunEndUnique(u, i + 1, e + 1, P);
  }

  lemma ConcatCons(x: string, ys: seq<string>)
    ensures Concat([x] + ys) == x + Concat(ys)
  {
    assert ([x] + ys)[1..] == ys;
  }

  /** A run of non-whitespace survives filtering whole. */
  lemma WordRunFiltered(s: string, a: nat, b: nat)
    requires a <= b <= |s| && forall k :: a <= k < b ==> NotSpace(s[k])
    ensures Filter(s[a..], NotSpace) == s[a..b] + Filter(s[b..], NotSpace)
  {
    var t := s[a..];
    assert AllIn(t, 0, b - a, NotSpace) by {
      assert forall k :: 0 <= k < b - a ==> t[k] == s[a + k];
    }
    FilterKeep(t, b - a);
    assert t[b - a..] == s[b..];
    assert t[..b - a] == s[a..b];
  }

  /** Filtering out a leading run of whitespace. */
  lemma {:induction false} FilterSkip(s: string, i: nat, a: nat)
    requires i <= a <= |s| && AllIn(s, i, a, IsSpace)
    ensures Filter(s[i..], NotSpace) == Filter(s[a..], NotSpace)
    decreases a - i
  {
    if i < a {
      assert s[i..][1..] == s[i + 1..];
      FilterSkip(s, i + 1, a);
    }
  }

  /** Filtering keeps a leading run of non-whitespace. */
  lemma {:induction false} FilterKeep(s: string, n: nat)
    requires n <= |s| && AllIn(s, 0, n, NotSpace)
    ensures Filter(s, NotSpace) == s[..n] + Filter(s[n..], NotSpace)
  {
    assert s == s[..n] + s[n..];
    FilterAppend(s[..n], s[n..], NotSpace);
    FilterAll(s[..n], NotSpace);
  }
}
