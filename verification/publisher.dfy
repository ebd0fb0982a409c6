/** The two publishing paths of the crew: the direct path
    (`_push_to_github`), a gated sequence of git operations followed by
    pull-request creation, and the agent path (`_run_github_agent`), which
    reads a pull-request URL out of the GitHub agent's answer and falls back
    to the direct path without one.

    Each path returns the pull-request record and the trace of the git and
    `gh` operations the direct path asked for, in order. */
module Publisher {
  import opened Text
  import opened Scan
  import opened Decimal
  import opened Naming
  import opened Schemas
  import opened GitUtils

  const PullLit: string := "/pull/"

  /** `/pull/(\d+)` matches at `q`: the literal and at least one digit. */
  predicate PullAt(s: string, q: nat) {
    At(s, q, PullLit) && q + 6 < |s| && IsDigit(s[q + 6])
  }

  /** `re.search(r'/pull/(\d+)', s)`: the leftmost match start and the end
      of its greedy digit group. */
  function PullSearch(s: string): (r: Option<(nat, nat)>)
    ensures r.Some? ==> PullAt(s, r.value.0) && r.value.1 == RunEnd(s, r.value.0 + 6, IsDigit)
    ensures r.Some? ==> forall q :: 0 <= q < r.value.0 ==> !PullAt(s, q)
    ensures r.None? ==> forall q :: 0 <= q <= |s| ==> !PullAt(s, q)
  {
    var pulls := (q: nat) => PullAt(s, q);
    var first := FirstFrom(0, |s|, pulls);
    if first.None? then
      assert forall q :: 0 <= q <= |s| ==> !PullAt(s, q) by {
        forall q | 0 <= q <= |s| ensures !PullAt(s, q) {
          assert !pulls(q);
        }
      }
      None
    else
      var q := first.value;
      assert pulls(q);
      assert forall q' :: 0 <= q' < q ==> !PullAt(s, q') by {
        forall q' | 0 <= q' < q ensures !PullAt(s, q') {
          assert !pulls(q');
        }
      }
      Some((q, RunEnd(s, q + 6, IsDigit)))
  }

  /** The pull-request number of a URL: `int` of the digit group of the
      first `/pull/` followed by a digit, if any. */
  function PullNumber(url: string): (r: Option<nat>)
    ensures r.Some? <==> PullSearch(url).Some?
  {
    match PullSearch(url)
    case None => None
    case Some((q, e)) => Some(DigitsValue(url[q + 6..e]))
  }

  /** The number is read back from the URL `gh` prints, `u/pull/n`, when
      `u` has no `/pull/<digit>` of its own. */
  lemma PullNumberOfUrl(u: string, n: nat)
    requires PullSearch(u).None?
    ensures PullNumber(u + PullLit + NatToString(n)) == Some(n)
  {
    var d := NatToString(n);
    var s := u + PullLit + d;
    PullTailLayout(u, d);
    PullNumberAt(s, |u|, d);
    DigitsRoundTrip(n);
  }

  /** Where `/pull/` and the digits sit in `u/pull/d`. */
  lemma PullTailLayout(u: string, d: string)
    requires PullSearch(u).None? && |d| > 0 && AllDigits(d)
    ensures var s := u + PullLit + d;
      PullAt(s, |u|) && (forall q' :: 0 <= q' < |u| ==> !PullAt(s, q'))
      && |u| + 6 <= |s| && AllIn(s, |u| + 6, |s|, IsDigit) && s[|u| + 6..] == d
  {
    var s := u + PullLit + d;
    var q := |u|;
    assert s[q..q + 6] == PullLit;
    assert s[q + 6] == d[0];
    forall q' | 0 <= q' < q ensures !PullAt(s, q') {
      NoPullStraddling(u, d, q');
    }
    assert s[q + 6..] == d;
  }

  /** The first `/pull/<digit>` at `q`, followed by digits to the end. */
  lemma PullNumberAt(s: string, q: nat, d: string)
    requires PullAt(s, q) && (forall q' :: 0 <= q' < q ==> !PullAt(s, q'))
    requires q + 6 <= |s| && AllIn(s, q + 6, |s|, IsDigit) && s[q + 6..] == d
    ensures PullNumber(s) == Some(DigitsValue(d))
  {
    var r := PullSearch(s);
    assert r.Some? && r.value.0 == q;
    RunEndUnique(s, q + 6, |s|, IsDigit);
    assert s[q + 6..|s|] == d;
  }

  /** No `/pull/<digit>` starts inside `u` once `/pull/` is appended, when
      `u` has none of its own. */
  lemma NoPullStraddling(u: string, d: string, q: nat)
    requires PullSearch(u).None? && q < |u|
    ensures !PullAt(u + PullLit + d, q)
  {
    var s := u + PullLit + d;
    if q + 6 < |u| {
      assert s[q..q + 6] == u[q..q + 6];
      assert s[q + 6] == u[q + 6];
      assert !PullAt(u, q);
    } else if q + 6 == |u| {
      assert s[q + 6] == '/';
    } else {
      var k := |u| - q;
      assert PullLit == ['/', 'p', 'u', 'l', 'l', '/'];
      if k < 5 {
        assert s[q..q + 6][k] == s[|u|] == '/' != PullLit[k];
      } else {
        assert s[q + 6] == 'p';
      }
    }
  }

  const NotAGitRepository: string := "Not a Git repository"

  function CommitMessage(feature: string): string { "Add auto-generated tests for " + feature }

  function PrTitle(feature: string): string { "Add tests for " + feature }

  /** A failed publication: the branch, title, body, files and error are
      set, every other field keeps its declared default. */
  function Failure(branch: string, title: string, body: string, files: seq<string>, message: string)
    : (m: PRMetadata)
    ensures m.branchName == branch && m.title == title && m.body == body
    ensures !m.success && m.prUrl == None && m.prNumber == None
    ensures m.baseBranch == DefaultBaseBranch && m.files == files && m.errorMessage == Some(message)
  {
    NewPRMetadata(branch, title, body).(files := files, errorMessage := Some(message))
  }

  /** The git operations the direct path asks for, in order. */
  function GitPlan(files: seq<string>, feature: string, branch: string): (r: seq<Step>)
    ensures |r| == 4
  {
    [Checkout(branch), Stage(files), CommitAs(CommitMessage(feature)), PushBranch(branch)]
  }

  /** The `gh` probes pull-request creation can ask for, in order. */
  function GhPlan(s: GithubSettings, files: seq<string>, feature: string, base: string): (r: seq<Step>)
    ensures |r| == 3
  {
    [Gh(AskInstalled), Gh(AskAuthenticated), Gh(RunGh(PrArgv(s, PrTitle(feature), PrBody(feature, 1, files), base)))]
  }

  /** Everything the direct path can ask for, in the order it asks. */
  function Plan(s: GithubSettings, files: seq<string>, feature: string, base: string, branch: string)
    : (r: seq<Step>)
    ensures |r| == 7
  {
    GitPlan(files, feature, branch) + GhPlan(s, files, feature, base)
  }

  /** The git operations of a repository all succeed. */
  predicate GitSucceeds(repo: Repo) {
    repo.ARepo? && repo.checkout.None? && repo.add.None? && repo.commit.Committed? && repo.push.None?
  }

  /** The last stage of the direct path, after a successful push: open the
      pull request and map `gh`'s answer onto the record. */
  function OpenPr(s: GithubSettings, files: seq<string>, feature: string, base: string, branch: string,
                  env: GhEnv): (r: (PRMetadata, seq<Step>))
    ensures var reply := CreatePullRequest(s, PrTitle(feature), PrBody(feature, 1, files), base, env);
      r.1 == GhSteps(reply.probes)
      && r.0.branchName == branch && r.0.files == files
      && r.0.title == PrTitle(feature) && r.0.body == PrBody(feature, 1, files)
      && (r.0.success <==> reply.ok)
      && (reply.ok ==> r.0.baseBranch == base && r.0.prUrl == Some(reply.message)
                       && r.0.prNumber == PullNumber(reply.message) && r.0.errorMessage == None)
      && (!reply.ok ==> r.0 == Failure(branch, PrTitle(feature), PrBody(feature, 1, files), files, reply.message))
  {
    var title := PrTitle(feature);
    var body := PrBody(feature, 1, files);
    var reply := CreatePullRequest(s, title, body, base, env);
    if reply.ok then
      (PRMetadata(branch, title, body, base, files, Some(reply.message), PullNumber(reply.message), true, None),
       GhSteps(reply.probes))
    else (Failure(branch, title, body, files, reply.message), GhSteps(reply.probes))
  }

  /** `gh`'s probes are a prefix of the planned ones. */
  lemma GhStepsInPlan(s: GithubSettings, files: seq<string>, feature: string, base: string, env: GhEnv)
    ensures var reply := CreatePullRequest(s, PrTitle(feature), PrBody(feature, 1, files), base, env);
      |reply.probes| <= 3 && GhSteps(reply.probes) == GhPlan(s, files, feature, base)[..|reply.probes|]
  {
  }

  /** A prefix of `c` after `a` is a prefix of `a + c`. */
  lemma PrefixAppend<T>(a: seq<T>, b: seq<T>, c: seq<T>)
    requires |b| <= |c| && b == c[..|b|]
    ensures a + b == (a + c)[..|a| + |b|]
  {
  }

  /** The four git stages of the direct path: the message of the first
      operation that fails and how many operations were asked for up to and
      including it, or nothing when all four succeed. */
  function GitFailure(branch: string, files: seq<string>, feature: string, repo: Repo)
    : (r: Option<(string, nat)>)
    requires repo.ARepo?
    ensures r.None? <==> GitSucceeds(repo)
    ensures repo.checkout.Some? ==> r == Some(("Failed to create branch: " + repo.checkout.value, 1))
    ensures repo.checkout.None? && repo.add.Some? ==> r == Some(("Failed to stage files: " + repo.add.value, 2))
    ensures repo.checkout.None? && repo.add.None? && repo.commit.CommitRaised?
      ==> r == Some(("Failed to commit: " + repo.commit.message, 3))
    ensures repo.checkout.None? && repo.add.None? && repo.commit.Committed? && repo.push.Some?
      ==> r == Some(("Failed to push: " + repo.push.value, 4))
  {
    var created := CreateBranch(branch, repo.checkout);
    if !created.0 then Some((created.1, 1))
    else
      var staged := StageFiles(files, repo.add);
      if !staged.0 then Some((staged.1, 2))
      else
        var committed := Commit(CommitMessage(feature), repo.commit);
        if !committed.0 then Some((committed.1, 3))
        else
          var pushed := Push(branch, repo.push);
          if !pushed.0 then Some((pushed.1, 4)) else None
  }

  /** `_push_to_github`. The trace is always a prefix of the plan, and it
      stops at the first operation that fails: a failure at git step `k`
      leaves a trace of length `k` and that step's message as the error.
      A failure never sets a URL and leaves the base branch at its default;
      success carries the requested base, the stripped `gh` output as URL
      (empty or not) and the number parsed from it. */
  function PushToGithub(s: GithubSettings, files: seq<string>, feature: string, base: string,
                        t: LocalTime, repo: Repo, env: GhEnv): (r: (PRMetadata, seq<Step>))
    ensures repo.NotARepo? ==> r == (Failure("", "", "", files, NotAGitRepository), [])
    ensures var branch := BranchName(s, BranchSuffix(feature), t);
      repo.ARepo? ==> r.0.branchName == branch && |r.1| <= 7 && r.1 == Plan(s, files, feature, base, branch)[..|r.1|]
    ensures r.0.files == files
    ensures !r.0.success ==> (r.0.prUrl == None && r.0.prNumber == None
      && r.0.baseBranch == DefaultBaseBranch && r.0.errorMessage.Some?)
    ensures repo.ARepo? && repo.checkout.Some?
      ==> |r.1| == 1 && r.0.errorMessage == Some("Failed to create branch: " + repo.checkout.value)
    ensures repo.ARepo? && repo.checkout.None? && repo.add.Some?
      ==> |r.1| == 2 && r.0.errorMessage == Some("Failed to stage files: " + repo.add.value)
    ensures repo.ARepo? && repo.checkout.None? && repo.add.None? && repo.commit.CommitRaised?
      ==> |r.1| == 3 && r.0.errorMessage == Some("Failed to commit: " + repo.commit.message)
    ensures repo.ARepo? && repo.checkout.None? && repo.add.None? && repo.commit.Committed? && repo.push.Some?
      ==> |r.1| == 4 && r.0.errorMessage == Some("Failed to push: " + repo.push.value)
    ensures GitSucceeds(repo) ==> (
      var branch := BranchName(s, BranchSuffix(feature), t);
      r == (OpenPr(s, files, feature, base, branch, env).0,
            GitPlan(files, feature, branch) + OpenPr(s, files, feature, base, branch, env).1))
    ensures r.0.success ==> GitSucceeds(repo)
  {
    if repo.NotARepo? then (Failure("", "", "", files, NotAGitRepository), [])
    else
      var branch := BranchName(s, BranchSuffix(feature), t);
      var plan := Plan(s, files, feature, base, branch);
      match GitFailure(branch, files, feature, repo)
      case Some((message, k)) => (Failure(branch, "", "", files, message), plan[..k])
      case None => AfterPush(s, files, feature, base, branch, env)
  }

  /** The direct path once all four git operations succeeded: the git
      steps, then whatever pull-request creation asked for. */
  function AfterPush(s: GithubSettings, files: seq<string>, feature: string, base: string, branch: string,
                     env: GhEnv): (r: (PRMetadata, seq<Step>))
    ensures r == (OpenPr(s, files, feature, base, branch, env).0,
                  GitPlan(files, feature, branch) + OpenPr(s, files, feature, base, branch, env).1)
    ensures |r.1| <= 7 && r.1 == Plan(s, files, feature, base, branch)[..|r.1|]
    ensures r.0.branchName == branch && r.0.files == files
    ensures !r.0.success ==> (r.0.prUrl == None && r.0.prNumber == None
      && r.0.baseBranch == DefaultBaseBranch && r.0.errorMessage.Some?)
  {
    var plan := Plan(s, files, feature, base, branch);
    var pr := OpenPr(s, files, feature, base, branch, env);
    GhStepsInPlan(s, files, feature, base, env);
    PrefixAppend(GitPlan(files, feature, branch), pr.1, GhPlan(s, files, feature, base));
    assert plan[..4] == GitPlan(files, feature, branch);
    (pr.0, plan[..4] + pr.1)
  }

  /** The direct path never looks at whether the working tree is dirty:
      only the agent's branch tool guards against that. */
  lemma DirectIgnoresDirty(s: GithubSettings, files: seq<string>, feature: string, base: string,
                           t: LocalTime, repo: Repo, env: GhEnv)
    requires repo.ARepo?
    ensures PushToGithub(s, files, feature, base, t, repo, env)
      == PushToGithub(s, files, feature, base, t, repo.(dirty := !repo.dirty), env)
  {
  }

  const GithubLit: string := "https://github.com/"

  /** `https://github\.com/[^\s]+/pull/\d+` can match from `p` with its
      `/pull/` at `m`: the literal, at least one non-space character, then
      `/pull/` and a digit. */
  predicate UrlMatch(s: string, p: nat, m: nat) {
    At(s, p, GithubLit) && p + 20 <= m && AllIn(s, p + 19, m, NotSpace) && PullAt(s, m)
  }

  /** The `/pull/` a match from `p` uses: the greedy `[^\s]+` backs off
      to the last one inside the non-space run after the literal. */
  function UrlPull(s: string, p: nat): (r: Option<nat>)
    ensures r.Some? ==> UrlMatch(s, p, r.value)
    ensures r.Some? ==> forall m: nat :: r.value < m ==> !UrlMatch(s, p, m)
    ensures r.None? ==> forall m: nat :: !UrlMatch(s, p, m)
  {
    if !At(s, p, GithubLit) then None
    else
      var e := RunEnd(s, p + 19, NotSpace);
      var pulls := (m: nat) => PullAt(s, m);
      var last := LastIn(p + 20, e + 1, pulls);
      assert forall m: nat :: e < m ==> !UrlMatch(s, p, m) by {
        forall m: nat | e < m ensures !UrlMatch(s, p, m) {
          if e < |s| && m <= |s| {
            assert !NotSpace(s[e]);
          }
        }
      }
      if last.None? then
        assert forall m: nat :: !UrlMatch(s, p, m) by {
          forall m: nat | p + 20 <= m <= e ensures !PullAt(s, m) {
            assert !pulls(m);
          }
        }
        None
      else
        var m := last.value;
        assert pulls(m);
        assert forall m': nat :: m < m' ==> !UrlMatch(s, p, m') by {
          forall m': nat | m < m' <= e ensures !PullAt(s, m') {
            assert !pulls(m');
          }
        }
        Some(m)
  }

  /** `re.search` of the URL pattern: the leftmost start with a match, the
      greedy choice of `/pull/` for it, and the end of the greedy digits. */
  function UrlSearch(s: string): (r: Option<(nat, nat, nat)>)
    ensures r.Some? ==> UrlMatch(s, r.value.0, r.value.1) && r.value.2 == RunEnd(s, r.value.1 + 6, IsDigit)
    ensures r.Some? ==> forall p: nat, m: nat :: p < r.value.0 ==> !UrlMatch(s, p, m)
    ensures r.Some? ==> forall m: nat :: r.value.1 < m ==> !UrlMatch(s, r.value.0, m)
    ensures r.None? ==> forall p: nat, m: nat :: !UrlMatch(s, p, m)
  {
    var starts := (p: nat) => UrlPull(s, p).Some?;
    var first := FirstFrom(0, |s|, starts);
    if first.None? then
      assert forall p: nat, m: nat :: !UrlMatch(s, p, m) by {
        forall p: nat, m: nat ensures !UrlMatch(s, p, m) {
          if p <= |s| {
            assert !starts(p);
          }
        }
      }
      None
    else
      var p := first.value;
      assert starts(p);
      assert forall p': nat, m: nat :: p' < p ==> !UrlMatch(s, p', m) by {
        forall p': nat, m: nat | p' < p ensures !UrlMatch(s, p', m) {
          assert !starts(p');
        }
      }
      var m := UrlPull(s, p).value;
      Some((p, m, RunEnd(s, m + 6, IsDigit)))
  }

  /** The pull-request URL of the agent's answer: the text of the match.
      It starts with the GitHub literal, contains no whitespace and ends in
      `/pull/` and digits. */
  function FindPrUrl(text: string): (r: Option<string>)
    ensures r.None? <==> UrlSearch(text).None?
    ensures r.Some? ==> (|r.value| >= 27 && r.value[..19] == GithubLit
      && (forall i :: 0 <= i < |r.value| ==> !IsSpace(r.value[i])))
  {
    match UrlSearch(text)
    case None => None
    case Some((p, m, e)) =>
      UrlTextShape(text, p, m, e);
      Some(text[p..e])
  }

  /** The text of a URL match starts with the GitHub literal and holds no
      whitespace. */
  lemma UrlTextShape(text: string, p: nat, m: nat, e: nat)
    requires UrlMatch(text, p, m) && e == RunEnd(text, m + 6, IsDigit)
    ensures p + 27 <= e <= |text|
    ensures text[p..e][..19] == GithubLit
    ensures forall i :: 0 <= i < |text[p..e]| ==> !IsSpace(text[p..e][i])
  {
    var url := text[p..e];
    assert url[..19] == text[p..p + 19];
    UrlHasNoSpace(text, p, m, e);
    assert forall i :: 0 <= i < |url| ==> url[i] == text[p + i];
  }

  /** The text of a URL match holds no whitespace. */
  lemma UrlHasNoSpace(text: string, p: nat, m: nat, e: nat)
    requires UrlMatch(text, p, m) && e == RunEnd(text, m + 6, IsDigit)
    ensures forall i :: p <= i < e ==> !IsSpace(text[i])
  {
    forall i | p <= i < e ensures !IsSpace(text[i]) {
      if i < p + 19 {
        assert text[p..p + 19][i - p] == GithubLit[i - p];
      } else if i < m {
        assert NotSpace(text[i]);
      } else if i < m + 6 {
        assert text[m..m + 6][i - m] == PullLit[i - m];
      } else {
        assert IsDigit(text[i]);
      }
    }
  }

  /** A match that starts before a whitespace character lies wholly before
      it: the literal, the `[^\s]+` run and `/pull/\d` hold no whitespace. */
  lemma UrlMatchBeforeSpace(pre: string, rest: string, p: nat, m: nat)
    requires |pre| > 0 && IsSpace(pre[|pre| - 1]) && p < |pre|
    ensures UrlMatch(pre + rest, p, m) ==> UrlMatch(pre, p, m)
  {
    var s := pre + rest;
    if UrlMatch(s, p, m) {
      var w := |pre| - 1;
      assert s[w] == pre[w];
      UrlHasNoSpace(s, p, m, RunEnd(s, m + 6, IsDigit));
      assert m + 7 <= RunEnd(s, m + 6, IsDigit);
      assert m + 7 <= w;
      assert s[p..p + 19] == pre[p..p + 19];
      assert s[m..m + 6] == pre[m..m + 6];
      assert s[m + 6] == pre[m + 6];
      assert forall k :: p + 19 <= k < m ==> s[k] == pre[k];
    }
  }

  /** Where the URL `GithubLit + path + "/pull/" + n` sits in an answer
      `s == pre + url + post`: the facts the search relies on. */
  lemma UrlLayout(s: string, pre: string, path: string, d: string, post: string)
    requires s == pre + GithubLit + path + PullLit + d + post
    requires |d| > 0 && AllDigits(d)
    requires |path| > 0 && forall i :: 0 <= i < |path| ==> !IsSpace(path[i])
    ensures At(s, |pre|, GithubLit) && AllIn(s, |pre| + 19, |pre| + 19 + |path|, NotSpace)
    ensures PullAt(s, |pre| + 19 + |path|)
    ensures AllIn(s, |pre| + 25 + |path|, |pre| + 25 + |path| + |d|, IsDigit)
    ensures s[|pre|..|pre| + 25 + |path| + |d|] == GithubLit + path + PullLit + d
  {
    UrlChars(s, pre, path, d, post);
    UrlFacts(s, |pre|, path, d);
  }

  /** The characters of a URL `GithubLit + path + "/pull/" + d` placed at
      `a` in `s`, piece by piece. */
  predicate UrlCharsAt(s: string, a: nat, path: string, d: string) {
    a + 25 + |path| + |d| <= |s|
    && (forall k :: 0 <= k < 19 ==> s[a + k] == GithubLit[k])
    && (forall k :: 0 <= k < |path| ==> s[a + 19 + k] == path[k])
    && (forall k :: 0 <= k < 6 ==> s[a + 19 + |path| + k] == PullLit[k])
    && (forall k :: 0 <= k < |d| ==> s[a + 25 + |path| + k] == d[k])
  }

  lemma UrlChars(s: string, pre: string, path: string, d: string, post: string)
    requires s == pre + GithubLit + path + PullLit + d + post
    ensures UrlCharsAt(s, |pre|, path, d)
  {
  }

  /** The URL facts, from the characters at their places. */
  lemma UrlFacts(s: string, a: nat, path: string, d: string)
    requires UrlCharsAt(s, a, path, d)
    requires |path| > 0 && forall i :: 0 <= i < |path| ==> !IsSpace(path[i])
    requires |d| > 0 && AllDigits(d)
    ensures At(s, a, GithubLit) && AllIn(s, a + 19, a + 19 + |path|, NotSpace)
    ensures PullAt(s, a + 19 + |path|)
    ensures AllIn(s, a + 25 + |path|, a + 25 + |path| + |d|, IsDigit)
    ensures s[a..a + 25 + |path| + |d|] == GithubLit + path + PullLit + d
  {
    var m0 := a + 19 + |path|;
    assert s[a..a + 19] == GithubLit;
    assert AllIn(s, a + 19, m0, NotSpace) by {
      forall k | a + 19 <= k < m0 ensures NotSpace(s[k]) {
        assert s[a + 19 + (k - a - 19)] == path[k - a - 19];
      }
    }
    assert AllIn(s, m0 + 6, m0 + 6 + |d|, IsDigit) by {
      forall k | m0 + 6 <= k < m0 + 6 + |d| ensures IsDigit(s[k]) {
        assert s[a + 25 + |path| + (k - m0 - 6)] == d[k - m0 - 6];
      }
    }
    assert s[m0..m0 + 6] == PullLit;
    assert s[m0 + 6] == d[0];
    var url := GithubLit + path + PullLit + d;
    forall k | 0 <= k < |url| ensures s[a..a + |url|][k] == url[k] {
      if k < 19 {
        assert url[k] == GithubLit[k];
      } else if k < 19 + |path| {
        assert url[k] == path[k - 19];
      } else if k < 25 + |path| {
        assert url[k] == PullLit[k - 19 - |path|];
      } else {
        assert url[k] == d[k - 25 - |path|];
      }
    }
  }

  /** After the URL's own `/pull/`, no other one starts before the
      whitespace that ends the URL. */
  lemma UrlLastPull(s: string, pre: string, path: string, n: nat, post: string)
    requires s == pre + GithubLit + path + PullLit + NatToString(n) + post
    requires post == [] || IsSpace(post[0])
    ensures forall k :: |pre| + 19 + |path| < k <= |pre| + 25 + |path| + |NatToString(n)| ==> !PullAt(s, k)
  {
    var d := NatToString(n);
    var x := pre + GithubLit + path;
    assert s == x + (PullLit + d + post);
    NoPullInTail(x, d, post);
  }

  /** The same, for the URL's tail after any text `x`. */
  lemma NoPullInTail(x: string, d: string, post: string)
    requires |d| > 0 && AllDigits(d)
    requires post == [] || IsSpace(post[0])
    ensures forall k :: |x| < k <= |x| + 6 + |d| ==> !PullAt(x + (PullLit + d + post), k)
  {
    var tail := PullLit + d + post;
    forall k | |x| < k <= |x| + 6 + |d| ensures !PullAt(x + tail, k) {
      NoPullAfterOwn(d, post, k - |x|);
      PullAtShift(x, tail, k - |x|);
    }
  }

  /** Whether `/pull/<digit>` starts at a position depends only on the
      text from there on. */
  lemma PullAtShift(x: string, t: string, j: nat)
    ensures PullAt(x + t, |x| + j) == PullAt(t, j)
  {
    var s := x + t;
    if |x| + j + 6 < |s| {
      assert s[|x| + j..|x| + j + 6] == t[j..j + 6];
      assert s[|x| + j + 6] == t[j + 6];
    }
  }

  /** Inside `/pull/<digits>` followed by whitespace or nothing, the only
      `/pull/<digit>` is the one at the start. */
  lemma NoPullAfterOwn(d: string, post: string, j: nat)
    requires |d| > 0 && AllDigits(d)
    requires post == [] || IsSpace(post[0])
    requires 0 < j <= 6 + |d|
    ensures !PullAt(PullLit + d + post, j)
  {
    var t := PullLit + d + post;
    assert PullLit == ['/', 'p', 'u', 'l', 'l', '/'];
    if j < 5 {
      assert t[j] == PullLit[j];
      if j + 6 <= |t| { assert t[j..j + 6][0] == t[j]; }
    } else if j == 5 {
      assert t[6] == d[0];
      if j + 6 <= |t| { assert t[j..j + 6][1] == t[6]; }
    } else if j < 6 + |d| {
      assert t[j] == d[j - 6];
      if j + 6 <= |t| { assert t[j..j + 6][0] == t[j]; }
    } else if j < |t| {
      assert t[j] == post[0];
      if j + 6 <= |t| { assert t[j..j + 6][0] == t[j]; }
    }
  }

  /** The agent's answer `pre + url + post` yields exactly `url`, for a URL
      `https://github.com/<path>/pull/<n>`, when `pre` is empty or holds no
      URL of its own and ends in whitespace, and `post` is empty or starts
      with whitespace. */
  lemma FindsPrUrl(pre: string, path: string, n: nat, post: string)
    requires |path| > 0 && forall i :: 0 <= i < |path| ==> !IsSpace(path[i])
    requires pre == [] || (IsSpace(pre[|pre| - 1]) && UrlSearch(pre).None?)
    requires post == [] || IsSpace(post[0])
    ensures FindPrUrl(pre + GithubLit + path + PullLit + NatToString(n) + post)
      == Some(GithubLit + path + PullLit + NatToString(n))
  {
    var d := NatToString(n);
    var s := pre + GithubLit + path + PullLit + d + post;
    var m0 := |pre| + 19 + |path|;
    var e := m0 + 6 + |d|;
    UrlLayout(s, pre, path, d, post);
    UrlIsGreedy(s, pre, path, n, post);
    UrlIsLeftmost(s, pre, path, n, post);
    assert e == |s| || !IsDigit(s[e]) by {
      assert |s| == e + |post|;
      assert e < |s| ==> s[e] == post[0];
    }
    FindsUrlAt(s, |pre|, m0, e, GithubLit + path + PullLit + d);
  }

  /** A match that is leftmost and greediest, whose digits run to `e`,
      gives the text from its start to `e`. */
  lemma FindsUrlAt(s: string, p: nat, m: nat, e: nat, url: string)
    requires UrlMatch(s, p, m)
    requires forall m': nat :: m < m' ==> !UrlMatch(s, p, m')
    requires forall p': nat, m': nat :: p' < p ==> !UrlMatch(s, p', m')
    requires m + 6 <= e <= |s| && AllIn(s, m + 6, e, IsDigit) && (e == |s| || !IsDigit(s[e]))
    requires p <= e && s[p..e] == url
    ensures FindPrUrl(s) == Some(url)
  {
    assert UrlSearch(s) == Some((p, m, e)) by {
      UrlSearchFinds(s, p, m);
      RunEndUnique(s, m + 6, e, IsDigit);
    }
    assert FindPrUrl(s) == Some(s[p..e]);
  }

  /** No `/pull/` after the URL's own can serve a match from its start. */
  lemma UrlIsGreedy(s: string, pre: string, path: string, n: nat, post: string)
    requires s == pre + GithubLit + path + PullLit + NatToString(n) + post
    requires post == [] || IsSpace(post[0])
    ensures forall m: nat :: |pre| + 19 + |path| < m ==> !UrlMatch(s, |pre|, m)
  {
    var d := NatToString(n);
    var m0 := |pre| + 19 + |path|;
    var e := m0 + 6 + |d|;
    UrlLastPull(s, pre, path, n, post);
    assert |s| == e + |post|;
    assert e < |s| ==> s[e] == post[0];
    forall m: nat | m0 < m ensures !UrlMatch(s, |pre|, m) {
      if m <= e {
        assert !PullAt(s, m);
      } else if e < |s| {
        assert |pre| + 19 <= e < m;
        assert !NotSpace(s[e]);
        assert !AllIn(s, |pre| + 19, m, NotSpace);
      }
    }
  }

  /** No match starts inside `pre`. */
  lemma UrlIsLeftmost(s: string, pre: string, path: string, n: nat, post: string)
    requires s == pre + GithubLit + path + PullLit + NatToString(n) + post
    requires pre == [] || (IsSpace(pre[|pre| - 1]) && UrlSearch(pre).None?)
    ensures forall p: nat, m: nat :: p < |pre| ==> !UrlMatch(s, p, m)
  {
    var rest := GithubLit + path + PullLit + NatToString(n) + post;
    assert s == pre + rest;
    forall p: nat, m: nat | p < |pre| ensures !UrlMatch(s, p, m) {
      UrlMatchBeforeSpace(pre, rest, p, m);
      assert UrlSearch(pre).None?;
      assert !UrlMatch(pre, p, m);
    }
  }

  /** The search returns a match that is leftmost and, for its start,
      greediest. */
  lemma UrlSearchFinds(s: string, p: nat, m: nat)
    requires UrlMatch(s, p, m)
    requires forall m': nat :: m < m' ==> !UrlMatch(s, p, m')
    requires forall p': nat, m': nat :: p' < p ==> !UrlMatch(s, p', m')
    ensures UrlSearch(s) == Some((p, m, RunEnd(s, m + 6, IsDigit)))
  {
    var r := UrlSearch(s);
    assert r.Some?;
    assert r.value.0 == p;
    assert r.value.1 == m;
  }

  const AgentBranchLit: string := "test/auto-generated"

  /** The branch the agent path reports: the leftmost
      `test/auto-generated[^\s]*` in the answer, with its greedy non-space
      tail, or `test/auto-generated-<feature>` without one. */
  function AgentBranch(text: string, feature: string): (r: string)
    ensures (exists p: nat :: At(text, p, AgentBranchLit)) ==> (exists p: nat ::
      At(text, p, AgentBranchLit) && (forall q: nat :: q < p ==> !At(text, q, AgentBranchLit))
      && r == text[p..RunEnd(text, p + 19, NotSpace)])
    ensures (forall p: nat :: !At(text, p, AgentBranchLit)) ==> r == AgentBranchLit + "-" + feature
  {
    var found := (p: nat) => At(text, p, AgentBranchLit);
    var first := FirstFrom(0, |text|, found);
    if first.None? then
      assert forall p: nat :: !At(text, p, AgentBranchLit) by {
        forall p: nat ensures !At(text, p, AgentBranchLit) {
          if p <= |text| {
            assert !found(p);
          }
        }
      }
      AgentBranchLit + "-" + feature
    else
      var p := first.value;
      assert found(p);
      assert forall q: nat :: q < p ==> !At(text, q, AgentBranchLit) by {
        forall q: nat | q < p ensures !At(text, q, AgentBranchLit) {
          assert !found(q);
        }
      }
      text[p..RunEnd(text, p + 19, NotSpace)]
  }

  /** What running the GitHub agent's crew produced: its answer, or the
      message of the exception it raised. */
  datatype AgentOutcome = AgentSaid(text: string) | AgentRaised(message: string)

  /** `_run_github_agent`. When the answer holds a pull-request URL the
      record reports success with that URL and the number parsed from it,
      and the direct path is not run; otherwise, and whenever the agent
      raises, the result is exactly that of the direct path. The agent's
      own tool calls are not part of the trace. */
  function RunGithubAgent(s: GithubSettings, files: seq<string>, feature: string, base: string,
                          agent: AgentOutcome, t: LocalTime, repo: Repo, env: GhEnv)
    : (r: (PRMetadata, seq<Step>))
    ensures agent.AgentSaid? && FindPrUrl(agent.text).Some? ==> (
      var url := FindPrUrl(agent.text).value;
      r.1 == [] && r.0.success && r.0.prUrl == Some(url) && r.0.prNumber == PullNumber(url)
      && r.0.branchName == AgentBranch(agent.text, feature)
      && r.0.title == PrTitle(feature) && r.0.body == PrBody(feature, 1, files)
      && r.0.baseBranch == base && r.0.files == files && r.0.errorMessage == None)
    ensures agent.AgentRaised? || FindPrUrl(agent.text).None?
      ==> r == PushToGithub(s, files, feature, base, t, repo, env)
  {
    match agent
    case AgentRaised(_) => PushToGithub(s, files, feature, base, t, repo, env)
    case AgentSaid(text) =>
      match FindPrUrl(text)
      case None => PushToGithub(s, files, feature, base, t, repo, env)
      case Some(url) =>
        (PRMetadata(AgentBranch(text, feature), PrTitle(feature), PrBody(feature, 1, files), base, files,
                    Some(url), PullNumber(url), true, None), [])
  }

  /** An agent answer carrying `https://github.com/<path>/pull/<n>`, set off
      by whitespace, gives a successful record with number `n`, whatever
      the repository and `gh` would have done. */
  lemma AgentReportsPr(s: GithubSettings, files: seq<string>, feature: string, base: string,
                       pre: string, path: string, n: nat, post: string,
                       t: LocalTime, repo: Repo, env: GhEnv)
    requires |path| > 0 && forall i :: 0 <= i < |path| ==> !IsSpace(path[i])
    requires PullSearch(GithubLit + path).None?
    requires pre == [] || (IsSpace(pre[|pre| - 1]) && UrlSearch(pre).None?)
    requires post == [] || IsSpace(post[0])
    ensures var text := pre + GithubLit + path + PullLit + NatToString(n) + post;
      var r := RunGithubAgent(s, files, feature, base, AgentSaid(text), t, repo, env);
      r.0.success && r.0.prUrl == Some(GithubLit + path + PullLit + NatToString(n))
      && r.0.prNumber == Some(n) && r.1 == []
  {
    FindsPrUrl(pre, path, n, post);
    PullNumberOfUrl(GithubLit + path, n);
  }
}
