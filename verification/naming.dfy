/** The names the orchestrator derives from a scenario: the feature name
    (`Feature:\s*(.+)`, else the first line), the test file name
    (`test_<snake>.py`) and the branch-name suffix. */
module Naming {
  import opened Text
  import opened Scan
  import opened Pieces

  const FeatureTag: string := "Feature:"

  predicate NotNewline(c: char) { c != '\n' }

  /** One match of `Feature:\s*(.+)` (no DOTALL) starting at `p`, with the
      group `s[j..h]`: the tag, whitespace (newlines included) up to `j`,
      and a non-empty run of non-newline characters. */
  predicate FeatureMatch(s: string, p: nat, j: nat, h: nat) {
    At(s, p, FeatureTag) && p + 8 <= j < h <= |s|
    && AllIn(s, p + 8, j, IsSpace) && AllIn(s, j, h, NotNewline)
  }

  /** The tag cannot start again within its first eight characters. */
  lemma TagNoSelfOverlap(s: string, p: nat, q: nat)
    requires At(s, p, FeatureTag) && p < q < p + 8
    ensures !At(s, q, FeatureTag)
  {
    assert s[q] == FeatureTag[q - p];
    if q + 8 <= |s| {
      assert s[q..q + 8][0] == s[q];
    }
  }

  /** The match `re.search` returns: leftmost start, then the longest
      `\s*` that lets `(.+)` match, then the longest `(.+)`. */
  function FeatureSearch(s: string): (r: Option<(nat, nat, nat)>)
    ensures r.Some? ==> FeatureMatch(s, r.value.0, r.value.1, r.value.2)
    ensures r.Some? ==> forall p: nat, j: nat, h: nat :: p < r.value.0 ==> !FeatureMatch(s, p, j, h)
    ensures r.Some? ==> forall j: nat, h: nat :: FeatureMatch(s, r.value.0, j, h) ==> j <= r.value.1
    ensures r.Some? ==> forall h: nat :: FeatureMatch(s, r.value.0, r.value.1, h) ==> h <= r.value.2
    ensures r.None? ==> forall p: nat, j: nat, h: nat :: !FeatureMatch(s, p, j, h)
  {
    var tagAt := (p: nat) => At(s, p, FeatureTag);
    var first := FirstFrom(0, |s|, tagAt);
    if first.None? then
      assert forall p: nat, j: nat, h: nat :: !FeatureMatch(s, p, j, h) by {
        forall p: nat, j: nat, h: nat ensures !FeatureMatch(s, p, j, h) {
          if p <= |s| {
            assert !tagAt(p);
          }
        }
      }
      None
    else
      var p := first.value;
      assert tagAt(p);
      assert forall q: nat :: q < p ==> !At(s, q, FeatureTag) by {
        forall q: nat | q < p ensures !At(s, q, FeatureTag) {
          assert !tagAt(q);
        }
      }
      FeatureAt(s, p)
  }

  /** The match for the first tag, found at `p`. */
  function FeatureAt(s: string, p: nat): (r: Option<(nat, nat, nat)>)
    requires At(s, p, FeatureTag)
    requires forall q: nat :: q < p ==> !At(s, q, FeatureTag)
    ensures r.Some? ==> r.value.0 == p && FeatureMatch(s, p, r.value.1, r.value.2)
    ensures r.Some? ==> forall j: nat, h: nat :: FeatureMatch(s, p, j, h) ==> j <= r.value.1
    ensures r.Some? ==> forall h: nat :: FeatureMatch(s, p, r.value.1, h) ==> h <= r.value.2
    ensures r.None? ==> forall q: nat, j: nat, h: nat :: !FeatureMatch(s, q, j, h)
  {
    var w := SpaceEnd(s, p + 8);
    if w < |s| then
      var h := RunEnd(s, w, NotNewline);
      assert NotSpace(s[w]);
      assert forall j: nat, h': nat :: FeatureMatch(s, p, j, h') ==> j <= w;
      assert forall h': nat :: FeatureMatch(s, p, w, h') ==> h' <= h by {
        forall h': nat | FeatureMatch(s, p, w, h') ensures h' <= h {
          if h < |s| {
            assert !NotNewline(s[h]);
          }
        }
      }
      Some((p, w, h))
    else
      FeatureAtEnd(s, p)
  }

  /** The first tag is followed by whitespace to the end: the group is the
      last non-newline character, if any. */
  function FeatureAtEnd(s: string, p: nat): (r: Option<(nat, nat, nat)>)
    requires At(s, p, FeatureTag)
    requires forall q: nat :: q < p ==> !At(s, q, FeatureTag)
    requires SpaceEnd(s, p + 8) == |s|
    ensures r.Some? ==> r.value.0 == p && FeatureMatch(s, p, r.value.1, r.value.2)
    ensures r.Some? ==> forall j: nat, h: nat :: FeatureMatch(s, p, j, h) ==> j <= r.value.1
    ensures r.Some? ==> forall h: nat :: FeatureMatch(s, p, r.value.1, h) ==> h <= r.value.2
    ensures r.None? ==> forall q: nat, j: nat, h: nat :: !FeatureMatch(s, q, j, h)
  {
    var w := |s|;
    var lineChar := (k: nat) => k < |s| && s[k] != '\n';
    var last := LastIn(p + 8, w, lineChar);
    if last.Some? then
      var j := last.value;
      assert lineChar(j);
      assert forall j': nat, h: nat :: FeatureMatch(s, p, j', h) ==> j' <= j by {
        forall j': nat, h: nat | FeatureMatch(s, p, j', h) ensures j' <= j {
          assert NotNewline(s[j']);
          assert lineChar(j');
        }
      }
      assert forall h: nat :: FeatureMatch(s, p, j, h) ==> h <= j + 1 by {
        forall h: nat | FeatureMatch(s, p, j, h) ensures h <= j + 1 {
          if j + 1 < |s| {
            assert !lineChar(j + 1);
          }
        }
      }
      assert AllIn(s, p + 8, j, IsSpace);
      Some((p, j, j + 1))
    else
      assert forall q: nat, j: nat, h: nat :: !FeatureMatch(s, q, j, h) by {
        forall q: nat, j: nat, h: nat ensures !FeatureMatch(s, q, j, h) {
          if q == p {
            if p + 8 <= j < |s| {
              assert !lineChar(j);
            }
          } else if q > p + 7 {
            if q + 8 <= |s| {
              assert IsSpace(s[q]);
              assert s[q..q + 8][0] == s[q];
            }
          } else if q > p {
            TagNoSelfOverlap(s, p, q);
          }
        }
      }
      None
  }

  /** The text `_extract_feature_name` strips: the group of the first
      `Feature:` match, else the first line of the stripped text cut to 50
      characters. Either way it holds no newline. */
  function FeatureGroup(scenario: string): (g: string)
    ensures FeatureSearch(scenario).Some? ==>
      var m := FeatureSearch(scenario).value; g == scenario[m.1..m.2]
    ensures FeatureSearch(scenario).None? ==> g == Take(Split(Strip(scenario), '\n')[0], 50)
    ensures '\n' !in g
    ensures FeatureSearch(scenario).None? ==> |g| <= 50
  {
    var m := FeatureSearch(scenario);
    if m.Some? then
      var g := scenario[m.value.1..m.value.2];
      assert forall k :: 0 <= k < |g| ==> g[k] == scenario[m.value.1 + k];
      g
    else
      var line := Split(Strip(scenario), '\n')[0];
      var g := Take(line, 50);
      assert g == line[..|g|];
      g
  }

  /** `_extract_feature_name`: the feature group or first line, stripped. */
  function FeatureName(scenario: string): (r: string)
    ensures FeatureSearch(scenario).Some? ==>
      var m := FeatureSearch(scenario).value; r == Strip(scenario[m.1..m.2])
    ensures FeatureSearch(scenario).None? ==> r == Strip(Take(Split(Strip(scenario), '\n')[0], 50))
    ensures '\n' !in r
    ensures |r| == 0 || (!IsSpace(r[0]) && !IsSpace(r[|r| - 1]))
    ensures FeatureSearch(scenario).None? ==> |r| <= 50
  {
    var g := FeatureGroup(scenario);
    StripByShape(g, IsSpace);
    StripByKeepsOut(g, IsSpace, '\n');
    Strip(g)
  }

  /** A `Feature:` line after a preamble that holds no tag names the
      feature: the name is the rest of that line, stripped, whatever
      whitespace follows the colon and whatever comes after the line. */
  lemma FeatureNameAfter(pre: string, ws: string, name: string, rest: string)
    requires !Contains(pre, FeatureTag) && (pre == [] || pre[|pre| - 1] == '\n')
    requires forall i :: 0 <= i < |ws| ==> IsSpace(ws[i])
    requires |name| > 0 && !IsSpace(name[0]) && '\n' !in name
    ensures FeatureName(pre + FeatureTag + ws + name + "\n" + rest) == Strip(name)
  {
    var s := pre + FeatureTag + ws + name + "\n" + rest;
    var a, j, h := |pre|, |pre| + 8 + |ws|, |pre| + 8 + |ws| + |name|;
    assert s[j..h] == name && s[..|pre|] == pre && At(s, |pre|, FeatureTag)
      && |pre| + 8 <= j < h < |s| && AllIn(s, |pre| + 8, j, IsSpace) && AllIn(s, j, h, NotNewline)
      && !IsSpace(s[j]) && s[h] == '\n' by {
      FeatureLineLayout(pre, ws, name, rest);
    }
    FeatureNameOfPreamble(s, pre, j, h);
  }

  lemma FeatureNameOfPreamble(s: string, pre: string, j: nat, h: nat)
    requires !Contains(pre, FeatureTag) && (pre == [] || pre[|pre| - 1] == '\n')
    requires |pre| <= |s| && s[..|pre|] == pre && At(s, |pre|, FeatureTag)
    requires |pre| + 8 <= j < h < |s| && AllIn(s, |pre| + 8, j, IsSpace) && AllIn(s, j, h, NotNewline)
    requires !IsSpace(s[j]) && s[h] == '\n'
    ensures FeatureName(s) == Strip(s[j..h])
  {
    forall q: nat | q < |pre| ensures !At(s, q, FeatureTag) {
      PreambleHasNoTag(s, pre, q);
    }
    FeatureNameOfLine(s, |pre|, j, h);
  }

  /** The first tag, the whitespace after it and a line that starts with
      a non-space character fix the feature name. */
  lemma FeatureNameOfLine(s: string, a: nat, j: nat, h: nat)
    requires At(s, a, FeatureTag) && forall q: nat :: q < a ==> !At(s, q, FeatureTag)
    requires a + 8 <= j < h < |s| && AllIn(s, a + 8, j, IsSpace) && AllIn(s, j, h, NotNewline)
    requires !IsSpace(s[j]) && s[h] == '\n'
    ensures FeatureName(s) == Strip(s[j..h])
  {
    assert FeatureMatch(s, a, j, h);
    var m := FeatureSearch(s).value;
    assert m.0 == a;
    assert m.1 == j;
    assert m.2 == h;
  }

  /** The characters of a scenario with a `Feature:` line after a preamble. */
  lemma FeatureLineLayout(pre: string, ws: string, name: string, rest: string)
    requires forall i :: 0 <= i < |ws| ==> IsSpace(ws[i])
    requires |name| > 0 && !IsSpace(name[0]) && '\n' !in name
    ensures var s := pre + FeatureTag + ws + name + "\n" + rest;
      var a, j, h := |pre|, |pre| + 8 + |ws|, |pre| + 8 + |ws| + |name|;
      && h < |s| && s[..a] == pre && At(s, a, FeatureTag)
      && AllIn(s, a + 8, j, IsSpace) && AllIn(s, j, h, NotNewline)
      && s[j] == name[0] && s[h] == '\n' && s[j..h] == name
  {
    var s := pre + FeatureTag + ws + name + "\n" + rest;
    var a, j, h := |pre|, |pre| + 8 + |ws|, |pre| + 8 + |ws| + |name|;
    assert s[a..a + 8] == FeatureTag;
    assert forall k :: a + 8 <= k < j ==> s[k] == ws[k - a - 8];
    assert forall k :: j <= k < h ==> s[k] == name[k - j];
  }

  /** No tag starts inside a preamble that holds none and ends a line. */
  lemma PreambleHasNoTag(s: string, pre: string, q: nat)
    requires !Contains(pre, FeatureTag) && (pre == [] || pre[|pre| - 1] == '\n')
    requires |pre| <= |s| && s[..|pre|] == pre && q < |pre|
    ensures !At(s, q, FeatureTag)
  {
    if q + 8 <= |pre| {
      assert pre[q..q + 8] == s[q..q + 8];
      assert !At(pre, q, FeatureTag);
    }
  }

  /** A scenario that opens with a `Feature:` line names that feature. */
  lemma FeatureNameOfHeader(name: string, rest: string)
    requires |name| > 0 && NotSpace(name[0]) && NotSpace(name[|name| - 1])
    requires '\n' !in name
    ensures FeatureName(FeatureTag + " " + name + "\n" + rest) == name
  {
    var s := FeatureTag + " " + name + "\n" + rest;
    assert FeatureName(s) == Strip(name) by {
      assert !Contains([], FeatureTag);
      assert [] + FeatureTag + " " + name + "\n" + rest == s;
      FeatureNameAfter([], " ", name, rest);
    }
    StripByFixed(name, IsSpace);
  }

  predicate IsUnderscore(c: char) { c == '_' }

  predicate NotLowerAlnum(c: char) { !IsLowerAlnum(c) }

  /** `re.sub(r'[^a-z0-9]+', '_', s)`: every maximal run of characters
      outside `[a-z0-9]` becomes one underscore. */
  function CollapseRuns(s: string): (r: string)
    ensures forall i :: 0 <= i < |r| ==> IsLowerAlnum(r[i]) || r[i] == '_'
    ensures forall i :: 0 <= i < |r| - 1 ==> !(r[i] == '_' && r[i + 1] == '_')
    ensures |s| > 0 ==> |r| > 0 && (r[0] == '_' <==> !IsLowerAlnum(s[0]))
    decreases |s|
  {
    if s == [] then []
    else if IsLowerAlnum(s[0]) then [s[0]] + CollapseRuns(s[1..])
    else
      var e := RunEnd(s, 0, NotLowerAlnum);
      var rest := CollapseRuns(s[e..]);
      assert |rest| > 0 ==> rest[0] != '_' by {
        if |rest| > 0 { assert s[e..][0] == s[e]; }
      }
      "_" + rest
  }

  /** The snake-case stem of `_generate_filename`. */
  function Slug(featureName: string): (r: string)
    ensures forall i :: 0 <= i < |r| ==> IsLowerAlnum(r[i]) || r[i] == '_'
    ensures forall i :: 0 <= i < |r| - 1 ==> !(r[i] == '_' && r[i + 1] == '_')
    ensures |r| == 0 || (r[0] != '_' && r[|r| - 1] != '_')
  {
    var c := CollapseRuns(Lower(featureName));
    var b := StripSpan(c, IsUnderscore);
    var r := c[b.0..b.1];
    assert forall i :: 0 <= i < |r| ==> r[i] == c[b.0 + i];
    r
  }

  /** `_generate_filename`: `test_` + the slug + `.py`. */
  function TestFilename(featureName: string): (r: string)
    ensures |r| >= 8 && r[..5] == "test_" && r[|r| - 3..] == ".py"
    ensures r[5..|r| - 3] == Slug(featureName)
  {
    var r := "test_" + Slug(featureName) + ".py";
    assert r[5..|r| - 3] == Slug(featureName);
    r
  }

  /** The letters and digits survive collapsing, in order; only separators
      change. */
  lemma {:induction false} CollapseRunsKeepsAlnum(s: string)
    ensures Filter(CollapseRuns(s), NotUnderscore) == Filter(s, IsLowerAlnum)
    decreases |s|
  {
    if s != [] {
      if IsLowerAlnum(s[0]) {
        CollapseRunsKeepsAlnum(s[1..]);
        FilterAppend([s[0]], CollapseRuns(s[1..]), NotUnderscore);
      } else {
        var e := RunEnd(s, 0, NotLowerAlnum);
        CollapseRunsKeepsAlnum(s[e..]);
        FilterAppend("_", CollapseRuns(s[e..]), NotUnderscore);
        FilterRunDropped(s, e);
      }
    }
  }

  lemma {:induction false} FilterRunDropped(s: string, e: nat)
    requires AllIn(s, 0, e, NotLowerAlnum)
    ensures Filter(s, IsLowerAlnum) == Filter(s[e..], IsLowerAlnum)
    decreases e
  {
    if e > 0 {
      assert AllIn(s[1..], 0, e - 1, NotLowerAlnum);
      FilterRunDropped(s[1..], e - 1);
      assert s[1..][e - 1..] == s[e..];
    }
  }

  /** Dropping underscores from both ends removes no other character. */
  lemma FilterKeepsMiddle(c: string, lo: nat, hi: nat)
    requires lo <= hi <= |c|
    requires forall k :: 0 <= k < lo ==> c[k] == '_'
    requires forall k :: hi <= k < |c| ==> c[k] == '_'
    ensures Filter(c[lo..hi], NotUnderscore) == Filter(c, NotUnderscore)
  {
    FilterDropsHead(c, 0, lo);
    assert c[0..] == c;
    FilterDropsTail(c, lo, hi);
  }

  lemma {:induction false} FilterDropsHead(c: string, i: nat, lo: nat)
    requires i <= lo <= |c|
    requires forall k :: i <= k < lo ==> c[k] == '_'
    ensures Filter(c[lo..], NotUnderscore) == Filter(c[i..], NotUnderscore)
    decreases lo - i
  {
    if i < lo {
      assert c[i..][0] == c[i];
      assert c[i..][1..] == c[i + 1..];
      FilterDropsHead(c, i + 1, lo);
    }
  }

  lemma FilterDropsTail(c: string, lo: nat, hi: nat)
    requires lo <= hi <= |c|
    requires forall k :: hi <= k < |c| ==> c[k] == '_'
    ensures Filter(c[lo..hi], NotUnderscore) == Filter(c[lo..], NotUnderscore)
  {
    var tail := c[hi..];
    assert Filter(tail, NotUnderscore) == [] by {
      assert forall k :: 0 <= k < |tail| ==> tail[k] == c[hi + k];
      FilterAllDropped(tail);
    }
    assert c[lo..hi] + tail == c[lo..];
    FilterAppend(c[lo..hi], tail, NotUnderscore);
  }

  /** Stripping underscores drops no letter or digit. */
  lemma StripUnderscoresKeepsAlnum(c: string)
    ensures Filter(StripBy(c, IsUnderscore), NotUnderscore) == Filter(c, NotUnderscore)
  {
    var b := StripSpan(c, IsUnderscore);
    FilterKeepsMiddle(c, b.0, b.1);
  }

  lemma {:induction false} FilterAllDropped(u: string)
    requires forall k :: 0 <= k < |u| ==> u[k] == '_'
    ensures Filter(u, NotUnderscore) == []
    decreases |u|
  {
    if u != [] {
      FilterAllDropped(u[1..]);
    }
  }

  /** Underscores aside, the slug is exactly the feature name's letters and
      digits, lower-cased. */
  lemma SlugKeepsAlnum(featureName: string)
    ensures Filter(Slug(featureName), NotUnderscore) == Filter(Lower(featureName), IsAlnum)
  {
    var l := Lower(featureName);
    var c := CollapseRuns(l);
    assert Slug(featureName) == StripBy(c, IsUnderscore);
    StripUnderscoresKeepsAlnum(c);
    CollapseRunsKeepsAlnum(l);
    LowerAlnumIsLowerAlnum(featureName);
  }

  /** In a lower-cased string the alphanumerics are the `[a-z0-9]`. */
  lemma {:induction false} LowerAlnumIsLowerAlnum(s: string)
    ensures Filter(Lower(s), IsLowerAlnum) == Filter(Lower(s), IsAlnum)
    decreases |s|
  {
    if s != [] {
      LowerCons(s);
      LowerKeepsAlnum(s[0]);
      LowerAlnumIsLowerAlnum(s[1..]);
      assert Lower(s)[1..] == Lower(s[1..]);
    }
  }

  predicate SlugShaped(s: string) {
    && (forall i :: 0 <= i < |s| ==> IsLowerAlnum(s[i]) || s[i] == '_')
    && (forall i :: 0 <= i < |s| - 1 ==> !(s[i] == '_' && s[i + 1] == '_'))
    && (|s| == 0 || (s[0] != '_' && s[|s| - 1] != '_'))
  }

  lemma {:induction false} CollapseRunsFixed(s: string)
    requires forall i :: 0 <= i < |s| ==> IsLowerAlnum(s[i]) || s[i] == '_'
    requires forall i :: 0 <= i < |s| - 1 ==> !(s[i] == '_' && s[i + 1] == '_')
    ensures CollapseRuns(s) == s
    decreases |s|
  {
    if s != [] {
      if IsLowerAlnum(s[0]) {
        CollapseRunsFixed(s[1..]);
      } else {
        var e := RunEnd(s, 0, NotLowerAlnum);
        assert e == 1 by {
          if |s| > 1 { assert IsLowerAlnum(s[1]); }
        }
        CollapseRunsFixed(s[1..]);
        assert s == "_" + s[1..];
      }
    }
  }

  lemma {:induction false} LowerFixed(s: string)
    requires forall i :: 0 <= i < |s| ==> IsLowerAlnum(s[i]) || s[i] == '_'
    ensures Lower(s) == s
  {
    assert forall i :: 0 <= i < |s| ==> Lower(s)[i] == s[i];
  }

  /** A file stem is its own slug: `_generate_filename` applied to a stem it
      produced yields the same file name. */
  lemma SlugIdempotent(featureName: string)
    ensures Slug(Slug(featureName)) == Slug(featureName)
  {
    var r := Slug(featureName);
    LowerFixed(r);
    CollapseRunsFixed(r);
    StripByFixed(r, IsUnderscore);
  }

  /** Where the underscores go: a run of separators between two letters or
      digits (or an end) becomes exactly one underscore in that place. With
      `CollapseRunsFixed` this determines `CollapseRuns`. */
  lemma {:induction false} CollapseRunsSplit(x: string, sep: string, y: string)
    requires |sep| > 0 && AllIn(sep, 0, |sep|, NotLowerAlnum)
    requires x == [] || IsLowerAlnum(x[|x| - 1])
    requires y == [] || IsLowerAlnum(y[0])
    ensures CollapseRuns(x + sep + y) == CollapseRuns(x) + "_" + CollapseRuns(y)
    decreases |x|
  {
    if x == [] {
      assert x + sep + y == sep + y;
      SeparatorRun(sep, y);
    } else {
      var e := if IsLowerAlnum(x[0]) then 1 else RunEnd(x, 0, NotLowerAlnum);
      assert 0 < e <= |x|;
      CollapseRunsSplit(x[e..], sep, y);
      SplitStep(x, sep, y, e);
    }
  }

  /** One step of `CollapseRunsSplit`: from the split of what follows the
      first step on `x` to the split of `x` itself. */
  lemma SplitStep(x: string, sep: string, y: string, e: nat)
    requires |x| > 0 && e == (if IsLowerAlnum(x[0]) then 1 else RunEnd(x, 0, NotLowerAlnum))
    requires 0 < e <= |x| && (e == |x| ==> IsLowerAlnum(x[0]))
    requires CollapseRuns(x[e..] + sep + y) == CollapseRuns(x[e..]) + "_" + CollapseRuns(y)
    ensures CollapseRuns(x + sep + y) == CollapseRuns(x) + "_" + CollapseRuns(y)
  {
    var z := sep + y;
    assert x + z == x + sep + y && x[e..] + z == x[e..] + sep + y;
    HeadStep(x, z, e);
    var h := if IsLowerAlnum(x[0]) then [x[0]] else "_";
    Regroup(h, CollapseRuns(x[e..]), CollapseRuns(y));
  }

  lemma Regroup(h: string, d: string, t: string)
    ensures h + (d + "_" + t) == (h + d) + "_" + t
  {
  }

  /** The first step of `CollapseRuns` on `x`, and on `x` followed by `z`:
      a letter or digit is kept, and a leading separator run that ends
      inside `x` becomes one underscore. */
  lemma HeadStep(x: string, z: string, e: nat)
    requires |x| > 0
    requires IsLowerAlnum(x[0]) ==> e == 1
    requires !IsLowerAlnum(x[0]) ==> e == RunEnd(x, 0, NotLowerAlnum) && e < |x|
    ensures var h := if IsLowerAlnum(x[0]) then [x[0]] else "_";
      CollapseRuns(x + z) == h + CollapseRuns(x[e..] + z) && CollapseRuns(x) == h + CollapseRuns(x[e..])
  {
    if IsLowerAlnum(x[0]) {
      assert (x + z)[1..] == x[1..] + z;
    } else {
      LeadingRun(x, z, e);
    }
  }

  /** A separator run followed by a letter or digit (or nothing). */
  lemma SeparatorRun(sep: string, y: string)
    requires |sep| > 0 && AllIn(sep, 0, |sep|, NotLowerAlnum)
    requires y == [] || IsLowerAlnum(y[0])
    ensures CollapseRuns(sep + y) == "_" + CollapseRuns(y)
  {
    var s := sep + y;
    assert AllIn(s, 0, |sep|, NotLowerAlnum) by {
      assert forall k :: 0 <= k < |sep| ==> s[k] == sep[k];
    }
    assert |sep| < |s| ==> s[|sep|] == y[0];
    RunEndUnique(s, 0, |sep|, NotLowerAlnum);
    assert s[|sep|..] == y;
  }

  /** The leading separator run of `x`, which ends inside `x`, is the
      leading run of `x + z` too. */
  lemma LeadingRun(x: string, z: string, e: nat)
    requires |x| > 0 && !IsLowerAlnum(x[0])
    requires e == RunEnd(x, 0, NotLowerAlnum) && e < |x|
    ensures CollapseRuns(x) == "_" + CollapseRuns(x[e..])
    ensures CollapseRuns(x + z) == "_" + CollapseRuns(x[e..] + z)
  {
    var s := x + z;
    assert AllIn(s, 0, e, NotLowerAlnum) && s[e] == x[e] by {
      assert forall k :: 0 <= k < |x| ==> s[k] == x[k];
    }
    RunEndUnique(s, 0, e, NotLowerAlnum);
    assert s[e..] == x[e..] + z;
  }

  /** Collapsing a space-join of lower-case alphanumeric words joins them
      with underscores. */
  lemma {:induction false} CollapseJoin(ws: seq<string>)
    requires forall i :: 0 <= i < |ws| ==> |ws[i]| > 0 && AllIn(ws[i], 0, |ws[i]|, IsLowerAlnum)
    ensures CollapseRuns(Join(ws, " ")) == Join(ws, "_")
    decreases |ws|
  {
    if |ws| == 1 {
      CollapseRunsFixed(ws[0]);
    } else if |ws| > 1 {
      var rest := Join(ws[1..], " ");
      assert rest[0] == ws[1][0] by {
        JoinEnds(ws[1..], " ");
      }
      assert AllIn(" ", 0, 1, NotLowerAlnum);
      CollapseRunsSplit(ws[0], " ", rest);
      CollapseRunsFixed(ws[0]);
      CollapseJoin(ws[1..]);
    }
  }

  /** A feature name of alphanumeric words separated by single spaces gives
      the lower-cased words joined by underscores: `Login Page` gives
      `login_page`. */
  lemma SlugOfWords(ws: seq<string>)
    requires AlnumWords(ws)
    ensures Slug(Join(ws, " ")) == Join(MapSeq(Lower, ws), "_")
  {
    var lws := MapSeq(Lower, ws);
    var c := Join(lws, "_");
    assert Lower(Join(ws, " ")) == Join(lws, " ") by {
      LowerJoin(ws, " ");
      assert Lower(" ") == " ";
    }
    LoweredWords(ws);
    assert CollapseRuns(Join(lws, " ")) == c by {
      CollapseJoin(lws);
    }
    assert |c| == 0 || (c[0] != '_' && c[|c| - 1] != '_') by {
      if ws != [] {
        JoinEnds(lws, "_");
        var n := |lws| - 1;
        assert AllIn(lws[0], 0, |lws[0]|, IsLowerAlnum);
        assert AllIn(lws[n], 0, |lws[n]|, IsLowerAlnum);
        assert IsLowerAlnum(lws[0][0]) && IsLowerAlnum(lws[n][|lws[n]| - 1]);
      }
    }
    SlugOfCollapsed(Join(ws, " "), c);
  }

  /** Lower-casing alphanumeric words gives non-empty words of lower-case
      letters and digits. */
  lemma LoweredWords(ws: seq<string>)
    requires AlnumWords(ws)
    ensures var lws := MapSeq(Lower, ws);
      forall i :: 0 <= i < |lws| ==> |lws[i]| > 0 && AllIn(lws[i], 0, |lws[i]|, IsLowerAlnum)
  {
    var lws := MapSeq(Lower, ws);
    forall i, k | 0 <= i < |lws| && 0 <= k < |lws[i]| ensures IsLowerAlnum(lws[i][k]) {
      LowerKeepsAlnum(ws[i][k]);
    }
  }

  /** A collapsed name with no underscore at either end is its own slug. */
  lemma SlugOfCollapsed(featureName: string, c: string)
    requires CollapseRuns(Lower(featureName)) == c
    requires |c| == 0 || (c[0] != '_' && c[|c| - 1] != '_')
    ensures Slug(featureName) == c
  {
    StripByFixed(c, IsUnderscore);
  }

  /** `Login Page` gives the file `test_login_page.py`. */
  lemma FilenameOfLoginPage()
    ensures TestFilename("Login Page") == "test_login_page.py"
  {
    SlugOfLoginPage();
    FilenameOfSlug("Login Page", "login_page");
    LoginPageFile("login_page");
  }

  lemma LoginPageFile(stem: string)
    requires stem == "login_page"
    ensures "test_" + stem + ".py" == "test_login_page.py"
  {
  }

  lemma SlugOfLoginPage()
    ensures Slug("Login Page") == "login_page"
  {
    var ws := ["Login", "Page"];
    LoginPageFeatureWords(ws);
    SlugOfWords(ws);
  }

  lemma LoginPageFeatureWords(ws: seq<string>)
    requires ws == ["Login", "Page"]
    ensures Join(ws, " ") == "Login Page" && AlnumWords(ws)
    ensures Join(MapSeq(Lower, ws), "_") == "login_page"
  {
    assert Lower("Login") == "login";
    assert Lower("Page") == "page";
    assert MapSeq(Lower, ws) == ["login", "page"];
  }

  lemma SlugOfLogin()
    ensures Slug("Login") == "login"
  {
    assert Lower("Login") == "login";
    CollapseRunsFixed("login");
    StripByFixed("login", IsUnderscore);
  }

  /** Whatever follows a `Feature: Login` header line, the test file is
      `test_login.py`. */
  lemma FilenameOfLogin(rest: string)
    ensures TestFilename(FeatureName(FeatureTag + " " + "Login" + "\n" + rest)) == "test_login.py"
  {
    FeatureNameOfHeader("Login", rest);
    FilenameCongruent(FeatureName(FeatureTag + " " + "Login" + "\n" + rest), "Login");
    FilenameOfLoginName();
  }

  lemma FilenameOfLoginName()
    ensures TestFilename("Login") == "test_login.py"
  {
    SlugOfLogin();
    FilenameOfSlug("Login", "login");
  }

  /** A feature name without letters or digits gives `test_.py`. */
  lemma FilenameWithoutAlnum(featureName: string)
    requires forall i :: 0 <= i < |featureName| ==> !IsAlnum(featureName[i])
    ensures TestFilename(featureName) == "test_.py"
  {
    var low := Lower(featureName);
    assert forall i :: 0 <= i < |low| ==> !IsAlnum(low[i]) by {
      forall i | 0 <= i < |low| ensures !IsAlnum(low[i]) {
        LowerKeepsAlnum(featureName[i]);
      }
    }
    NothingKept(low, IsAlnum);
    SlugKeepsAlnum(featureName);
    SlugWithoutLetters(Slug(featureName));
    FilenameOfSlug(featureName, []);
  }

  lemma {:induction false} NothingKept(s: string, P: char -> bool)
    requires forall i :: 0 <= i < |s| ==> !P(s[i])
    ensures Filter(s, P) == []
    decreases |s|
  {
    if s != [] {
      NothingKept(s[1..], P);
    }
  }

  /** A slug whose only characters are underscores is empty: it cannot
      start with one. */
  lemma SlugWithoutLetters(r: string)
    requires |r| == 0 || r[0] != '_'
    ensures Filter(r, NotUnderscore) == [] ==> r == []
  {
    if r != [] {
      assert Filter(r, NotUnderscore) == [r[0]] + Filter(r[1..], NotUnderscore);
    }
  }

  lemma FilenameCongruent(a: string, b: string)
    requires a == b
    ensures TestFilename(a) == TestFilename(b)
  {
  }

  lemma FilenameOfSlug(f: string, stem: string)
    requires Slug(f) == stem
    ensures TestFilename(f) == "test_" + stem + ".py"
  {
  }

  function MaskChar(c: char): char { if IsLowerAlnum(c) then c else '-' }

  /** The branch suffix of the direct publisher:
      `re.sub(r'[^a-z0-9]', '-', feature_name.lower()[:20])`. Each of the
      first twenty lower-cased characters is kept when it is in `[a-z0-9]`
      and becomes a hyphen otherwise. */
  function BranchSuffix(featureName: string): (r: string)
    ensures |r| == if |featureName| < 20 then |featureName| else 20
    ensures forall i :: 0 <= i < |r| ==>
      (r[i] == ToLower(featureName[i]) && IsAlnum(featureName[i]))
      || (r[i] == '-' && !IsAlnum(featureName[i]))
  {
    var t := Take(Lower(featureName), 20);
    forall i | 0 <= i < |t| ensures t[i] == ToLower(featureName[i]) {
      assert t[i] == Lower(featureName)[i];
    }
    forall i | 0 <= i < |t| ensures IsLowerAlnum(ToLower(featureName[i])) <==> IsAlnum(featureName[i]) {
      LowerKeepsAlnum(featureName[i]);
    }
    MapSeq(MaskChar, t)
  }
}
