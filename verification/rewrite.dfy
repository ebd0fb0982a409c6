/** Python's `str.replace`, and the facts about it the extractor relies on. */
module Rewrite {
  import opened Text

  /** `s.replace(pat, repl)`: scans left to right and replaces each
      non-overlapping occurrence of `pat`. The core only replaces non-empty
      literals. */
  function Replace(s: string, pat: string, repl: string): (r: string)
    requires |pat| > 0
    decreases |s|
  {
    if |s| < |pat| then s
    else if s[..|pat|] == pat then repl + Replace(s[|pat|..], pat, repl)
    else [s[0]] + Replace(s[1..], pat, repl)
  }

  /** Replacing a literal that does not occur changes nothing. */
  lemma {:induction false} ReplaceAbsent(s: string, pat: string, repl: string)
    requires |pat| > 0
    requires !Contains(s, pat)
    ensures Replace(s, pat, repl) == s
    decreases |s|
  {
    if |s| >= |pat| {
      assert !At(s, 0, pat);
      assert s[..|pat|] != pat;
      assert !Contains(s[1..], pat) by {
        forall i: nat | i <= |s[1..]| ensures !At(s[1..], i, pat) {
          AtTail(s, i, pat);
        }
      }
      ReplaceAbsent(s[1..], pat, repl);
      assert [s[0]] + s[1..] == s;
    }
  }

  /** A prefix none of whose characters can start `pat` survives the
      replacement. */
  lemma {:induction false} ReplaceKeepsPrefix(s: string, u: string, pat: string, repl: string)
    requires |pat| > 0
    requires |u| <= |s| && s[..|u|] == u
    requires forall i :: 0 <= i < |u| ==> u[i] != pat[0]
    ensures var r := Replace(s, pat, repl); |u| <= |r| && r[..|u|] == u
    decreases |u|
  {
    if |u| > 0 && |s| >= |pat| {
      assert s[0] == u[0] && u[0] != pat[0];
      assert s[..|pat|] != pat by { assert s[..|pat|][0] == s[0]; }
      assert s[1..][..|u| - 1] == u[1..];
      ReplaceKeepsPrefix(s[1..], u[1..], pat, repl);
      var r' := Replace(s[1..], pat, repl);
      assert ([s[0]] + r')[..|u|] == [s[0]] + r'[..|u| - 1];
    }
  }

  /** An occurrence of `m` survives replacing `pat` when no occurrence of
      `pat` can overlap it: `pat` starts with a character `m` lacks, and `m`
      starts with a character `pat` lacks. */
  lemma {:induction false} ReplaceKeepsOccurrence(s: string, t: nat, m: string, pat: string, repl: string)
    requires |pat| > 0 && |m| > 0
    requires At(s, t, m)
    requires forall i :: 0 <= i < |m| ==> m[i] != pat[0]
    requires forall i :: 0 <= i < |pat| ==> pat[i] != m[0]
    ensures Contains(Replace(s, pat, repl), m)
    decreases |s|
  {
    var r := Replace(s, pat, repl);
    if |s| < |pat| {
      assert At(r, t, m);
    } else if s[..|pat|] == pat {
      if t < |pat| {
        assert false;
      }
      AtShift(s[..|pat|], s[|pat|..], t - |pat|, m);
      assert s[..|pat|] + s[|pat|..] == s;
      ReplaceKeepsOccurrence(s[|pat|..], t - |pat|, m, pat, repl);
      ContainsShift(repl, Replace(s[|pat|..], pat, repl), m);
    } else if t == 0 {
      assert s[..|m|] == m;
      ReplaceKeepsPrefix(s, m, pat, repl);
      assert At(r, 0, m);
    } else {
      AtTail(s, t - 1, m);
      ReplaceKeepsOccurrence(s[1..], t - 1, m, pat, repl);
      ContainsShift([s[0]], Replace(s[1..], pat, repl), m);
    }
  }

  /** The fence literal of Markdown code blocks. */
  const Fence: string := "```"

  /** If `s` does not start with a backtick, neither does its image. */
  lemma FirstCharKept(s: string, repl: string)
    requires |s| > 0 && s[0] != '`'
    ensures var r := Replace(s, Fence, repl); |r| > 0 && r[0] == s[0]
  {
    ReplaceKeepsPrefix(s, [s[0]], Fence, repl);
  }

  /** After a backtick that does not open a fence, the image of the rest does
      not start with two backticks. */
  lemma NoFenceAfterTick(s: string)
    requires |s| >= 3 && s[0] == '`' && s[..3] != Fence
    ensures var x := Replace(s[1..], Fence, "");
      !(|x| >= 2 && x[0] == '`' && x[1] == '`')
  {
    var t := s[1..];
    if t[0] != '`' {
      FirstCharKept(t, "");
    } else {
      assert s[2] != '`' by { assert s[..3] == [s[0], s[1], s[2]]; }
      assert t[1] == s[2];
      if |t| >= 3 {
        assert t[..3] != Fence by { assert t[..3][1] == t[1]; }
        assert Replace(t, Fence, "") == [t[0]] + Replace(t[1..], Fence, "");
        FirstCharKept(t[1..], "");
      }
    }
  }

  /** Removing every fence leaves no fence: a single left-to-right pass of
      `replace("```", "")` cannot create a new one from what remains. */
  lemma {:induction false} RemoveFencesLeavesNone(s: string)
    ensures !Contains(Replace(s, Fence, ""), Fence)
    decreases |s|
  {
    var r := Replace(s, Fence, "");
    assert |Fence| == 3;
    if |s| < 3 {
      assert |r| < 3;
    } else if s[..3] == Fence {
      assert r == Replace(s[3..], Fence, "");
      RemoveFencesLeavesNone(s[3..]);
    } else {
      var x := Replace(s[1..], Fence, "");
      RemoveFencesLeavesNone(s[1..]);
      assert r == [s[0]] + x;
      if s[0] == '`' {
        NoFenceAfterTick(s);
      }
      forall i: nat | i <= |r| ensures !At(r, i, Fence) {
        if i >= 1 {
          AtShift([s[0]], x, i - 1, Fence);
        } else if |r| >= 3 {
          assert r[..3] == [s[0], x[0], x[1]];
        }
      }
    }
  }
}
