/** `GitUtils` and `generate_pr_body`: the branch-name generator, the
    result messages of the git operations, the gating of pull-request
    creation through the `gh` command line tool, and the pull-request
    description.

    GitPython and `gh` are not modelled: every operation receives its
    outcome as an input (whether it raised, and with which message), and
    the local time is an input too. */
module GitUtils {
  import opened Text
  import opened Scan
  import opened Pieces
  import opened Decimal

  /** `GitHubSettings`: the base branch, the branch-name prefix and the
      pull-request title prefix. */
  datatype GithubSettings = GithubSettings(baseBranch: string, branchPrefix: string, prTitlePrefix: string)

  /** A local date and time, with a four-digit year. */
  datatype Clock = Clock(year: nat, month: nat, day: nat, hour: nat, minute: nat, second: nat)

  type LocalTime = c: Clock
    | 1000 <= c.year <= 9999 && 1 <= c.month <= 12 && 1 <= c.day <= 31
      && c.hour < 24 && c.minute < 60 && c.second < 60
    witness Clock(2000, 1, 1, 0, 0, 0)

  /** A number below 100 as two digits. */
  function Two(n: nat): (r: string)
    requires n < 100
    ensures |r| == 2 && AllDigits(r) && DigitsValue(r) == n
  {
    var r := [DigitChar(n / 10), DigitChar(n % 10)];
    assert r[..1] == [r[0]] && [r[0]][..0] == [];
    assert DigitsValue(r[..1]) == n / 10;
    r
  }

  /** A number below 10000 as four digits. */
  function Four(n: nat): (r: string)
    requires n < 10000
    ensures |r| == 4 && AllDigits(r) && DigitsValue(r) == n
  {
    var hi, lo := Two(n / 100), Two(n % 100);
    var r := hi + lo;
    assert r[..3] == hi + [lo[0]] && r[..3][..2] == hi;
    assert lo[..1] == [lo[0]] && [lo[0]][..0] == [];
    r
  }

  /** `strftime("%Y%m%d-%H%M%S")`: fifteen characters, digits around a
      dash, from which every field reads back. */
  function Stamp(t: LocalTime): (r: string)
    ensures |r| == 15 && r[8] == '-'
    ensures AllDigits(r[..8]) && AllDigits(r[9..])
    ensures DigitsValue(r[..4]) == t.year && DigitsValue(r[4..6]) == t.month
      && DigitsValue(r[6..8]) == t.day
    ensures DigitsValue(r[9..11]) == t.hour && DigitsValue(r[11..13]) == t.minute
      && DigitsValue(r[13..]) == t.second
  {
    var y, mo, d, h, mi, s := Four(t.year), Two(t.month), Two(t.day), Two(t.hour), Two(t.minute), Two(t.second);
    var r := y + mo + d + "-" + h + mi + s;
    StampSlices(y, mo, d, h, mi, s);
    r
  }

  /** Where each field sits in a stamp. */
  lemma StampSlices(y: string, mo: string, d: string, h: string, mi: string, s: string)
    requires |y| == 4 && |mo| == 2 && |d| == 2 && |h| == 2 && |mi| == 2 && |s| == 2
    ensures var r := y + mo + d + "-" + h + mi + s;
      |r| == 15 && r[8] == '-'
      && r[..4] == y && r[4..6] == mo && r[6..8] == d
      && r[9..11] == h && r[11..13] == mi && r[13..] == s
      && r[..8] == y + mo + d && r[9..] == h + mi + s
  {
    var date := y + mo + d;
    var time := h + mi + s;
    var r := y + mo + d + "-" + h + mi + s;
    assert r == date + "-" + time;
    assert r[..8] == date && r[9..] == time;
    assert date[..4] == y && date[4..6] == mo && date[6..8] == d;
    assert time[..2] == h && time[2..4] == mi && time[4..] == s;
  }

  /** Different times give different stamps. */
  lemma StampInjective(t: LocalTime, u: LocalTime)
    requires Stamp(t) == Stamp(u)
    ensures t == u
  {
  }

  /** `generate_branch_name(suffix)`: the prefix, a dash, the suffix and a
      dash when the suffix is not empty, then the stamp. */
  function BranchName(s: GithubSettings, suffix: string, t: LocalTime): (r: string)
    ensures var p := |s.branchPrefix| + 1;
      |r| >= p + 15 && r[..p] == s.branchPrefix + "-" && r[|r| - 15..] == Stamp(t)
    ensures suffix == [] ==> |r| == |s.branchPrefix| + 16
    ensures suffix != [] ==> (|r| == |s.branchPrefix| + |suffix| + 17
      && r[|s.branchPrefix| + 1..|r| - 16] == suffix && r[|r| - 16] == '-')
  {
    var head := s.branchPrefix + "-";
    var r := if suffix != [] then head + suffix + "-" + Stamp(t) else head + Stamp(t);
    assert r[..|head|] == head;
    assert suffix != [] ==> r[|head|..|r| - 16] == suffix;
    r
  }

  /** Branch names made with the same settings differ whenever the suffix
      or the time differs. */
  lemma BranchNameInjective(s: GithubSettings, a: string, t: LocalTime, b: string, u: LocalTime)
    requires BranchName(s, a, t) == BranchName(s, b, u)
    ensures a == b && t == u
  {
    var r := BranchName(s, a, t);
    assert Stamp(t) == r[|r| - 15..] == Stamp(u);
    StampInjective(t, u);
    if a != [] && b != [] {
      assert a == r[|s.branchPrefix| + 1..|r| - 16] == b;
    } else {
      assert a == [] && b == [] by {
        assert |r| == |s.branchPrefix| + |a| + |b| + 16;
      }
    }
  }

  /** A git or `gh` operation, as recorded in a trace of what a publishing
      path asked the environment to do. */
  datatype Step =
    | Checkout(branch: string)
    | Stage(files: seq<string>)
    | CommitAs(message: string)
    | PushBranch(branch: string)
    | Gh(probe: Probe)

  /** `create_branch`: the outcome of `git checkout -b` is `raised`, the
      message of the exception it threw, if any. */
  function CreateBranch(name: string, raised: Option<string>): (r: (bool, string))
    ensures r.0 <==> raised.None?
    ensures r.0 ==> r.1 == "Created and checked out branch: " + name
    ensures !r.0 ==> r.1 == "Failed to create branch: " + raised.value
  {
    match raised
    case None => (true, "Created and checked out branch: " + name)
    case Some(e) => (false, "Failed to create branch: " + e)
  }

  /** `stage_files`: on success the message reports how many files were
      staged, in decimal. */
  function StageFiles(files: seq<string>, raised: Option<string>): (r: (bool, string))
    ensures r.0 <==> raised.None?
    ensures r.0 ==> (|r.1| > 15 && r.1[..7] == "Staged " && r.1[|r.1| - 8..] == " file(s)"
      && AllDigits(r.1[7..|r.1| - 8]) && DigitsValue(r.1[7..|r.1| - 8]) == |files|)
    ensures !r.0 ==> r.1 == "Failed to stage files: " + raised.value
  {
    match raised
    case None =>
      var n := NatToString(|files|);
      DigitsRoundTrip(|files|);
      var m := "Staged " + n + " file(s)";
      assert m[7..|m| - 8] == n;
      (true, m)
    case Some(e) => (false, "Failed to stage files: " + e)
  }

  datatype CommitOutcome = Committed(hexsha: string) | CommitRaised(message: string)

  /** The working directory as the publishing paths find it: not a
      repository, or a repository with its dirty flag and the outcome of
      each git operation (the message of the exception it raises, if any). */
  datatype Repo =
    | NotARepo
    | ARepo(dirty: bool, checkout: Option<string>, add: Option<string>, commit: CommitOutcome,
            push: Option<string>)

  /** `commit`: on success the first eight characters of the hash. */
  function Commit(message: string, outcome: CommitOutcome): (r: (bool, string))
    ensures r.0 <==> outcome.Committed?
    ensures r.0 ==> (|r.1| <= 8 && |r.1| <= |outcome.hexsha| && r.1 == outcome.hexsha[..|r.1|]
      && (|outcome.hexsha| >= 8 ==> |r.1| == 8))
    ensures !r.0 ==> r.1 == "Failed to commit: " + outcome.message
  {
    match outcome
    case Committed(sha) => (true, Take(sha, 8))
    case CommitRaised(e) => (false, "Failed to commit: " + e)
  }

  /** `push(branch_name)`. */
  function Push(branch: string, raised: Option<string>): (r: (bool, string))
    ensures r.0 <==> raised.None?
    ensures r.0 ==> r.1 == "Pushed " + branch + " to origin"
    ensures !r.0 ==> r.1 == "Failed to push: " + raised.value
  {
    match raised
    case None => (true, "Pushed " + branch + " to origin")
    case Some(e) => (false, "Failed to push: " + e)
  }

  /** What running `gh pr create` did: it exited with a code and output, it
      ran past its timeout, or starting it raised. */
  datatype GhRun = Exited(code: int, stdout: string, stderr: string) | TimedOut | Raised(message: string)

  /** The answers of the two `gh` probes and of the `gh pr create` run. */
  datatype GhEnv = GhEnv(installed: bool, authenticated: bool, run: GhRun)

  /** What pull-request creation asked of the environment, in order. */
  datatype Probe = AskInstalled | AskAuthenticated | RunGh(argv: seq<string>)

  /** The probes of a pull-request attempt as steps of a trace. */
  function GhSteps(probes: seq<Probe>): (r: seq<Step>)
    ensures |r| == |probes| && forall i :: 0 <= i < |r| ==> r[i] == Gh(probes[i])
  {
    MapSeq((p: Probe) => Gh(p), probes)
  }

  datatype GhReply = GhReply(ok: bool, message: string, probes: seq<Probe>)

  /** The `gh pr create` command line, the title carrying the prefix. */
  function PrArgv(s: GithubSettings, title: string, body: string, base: string): (r: seq<string>)
    ensures |r| == 9 && r[5..7] == ["--title", s.prTitlePrefix + title] && r[3..5] == ["--base", base]
  {
    ["gh", "pr", "create", "--base", base, "--title", s.prTitlePrefix + title, "--body", body]
  }

  /** The answer of `create_pull_request` once both probes passed. */
  function GhRunReply(run: GhRun): (r: (bool, string))
    ensures r.0 <==> run.Exited? && run.code == 0
    ensures r.0 ==> r.1 == Strip(run.stdout)
    ensures run.Exited? && run.code != 0 ==> r.1 == Strip(run.stderr)
    ensures run.TimedOut? ==> r.1 == "PR creation timed out"
    ensures run.Raised? ==> r.1 == run.message
  {
    match run
    case Exited(code, out, err) =>
      if code == 0 then (true, Strip(out)) else (false, Strip(err))
    case TimedOut => (false, "PR creation timed out")
    case Raised(e) => (false, e)
  }

  /** `create_pull_request`: `gh` must be installed, then authenticated,
      before the command runs; exit code 0 gives the stripped standard
      output, any other code the stripped standard error. */
  function CreatePullRequest(s: GithubSettings, title: string, body: string, base: string, env: GhEnv)
    : (r: GhReply)
    ensures !env.installed ==> r == GhReply(false, "GitHub CLI (gh) is not installed", [AskInstalled])
    ensures env.installed && !env.authenticated
      ==> r == GhReply(false, "GitHub CLI is not authenticated", [AskInstalled, AskAuthenticated])
    ensures env.installed && env.authenticated ==> (|r.probes| == 3 && r.probes[2].RunGh?
      && |r.probes[2].argv| == 9
      && r.probes[2].argv[5..7] == ["--title", s.prTitlePrefix + title]
      && r.probes[2].argv[3..5] == ["--base", base])
    ensures r.ok <==> env.installed && env.authenticated && env.run.Exited? && env.run.code == 0
    ensures r.ok ==> r.message == Strip(env.run.stdout)
    ensures env.installed && env.authenticated && env.run.Exited? && env.run.code != 0
      ==> r.message == Strip(env.run.stderr)
    ensures env.installed && env.authenticated && env.run.TimedOut? ==> r.message == "PR creation timed out"
    ensures env.installed && env.authenticated && env.run.Raised? ==> r.message == env.run.message
  {
    if !env.installed then GhReply(false, "GitHub CLI (gh) is not installed", [AskInstalled])
    else if !env.authenticated then GhReply(false, "GitHub CLI is not authenticated", [AskInstalled, AskAuthenticated])
    else
      var probes := [AskInstalled, AskAuthenticated, RunGh(PrArgv(s, title, body, base))];
      var reply := GhRunReply(env.run);
      GhReply(reply.0, reply.1, probes)
  }

  /** Without `gh` installed, neither the authentication probe nor the run
      can change the answer. */
  lemma AuthNotConsulted(s: GithubSettings, title: string, body: string, base: string, env: GhEnv, env': GhEnv)
    requires !env.installed && !env'.installed
    ensures CreatePullRequest(s, title, body, base, env) == CreatePullRequest(s, title, body, base, env')
  {
  }

  /** The bullet line of one generated file. */
  function Bullet(f: string): string {
    "- `" + f + "`"
  }

  /** A line of text: no line break inside. */
  type Line = s: string | '\n' !in s

  /** The fixed lines of the description. The longer ones are written in
      pieces only to keep them short in the source. */
  const Title: Line := "## Auto-Generated Test Cases"
  const Intro: Line := "This PR was automatically generated " + "by the AI Test Case Generator."
  const Summary: Line := "### Summary"
  const FilesHeading: Line := "### Generated Files"
  const HowToRun: Line := "### How to Run"
  const BashFence: Line := "```bash"
  const Activate: Line := "# Activate virtual environment"
  const SourceVenv: Line := "source venv/bin/activate"
  const RunTests: Line := "# Run the generated tests"
  const CloseFence: Line := "```"
  const Notes: Line := "### Notes"
  const NoteOrigin: Line := "- These tests were generated " + "from text scenarios using AI"
  const NoteReview: Line := "- Please review the selectors " + "and adjust if needed " + "for your application"
  const NoteCi: Line := "- Consider adding these tests " + "to your CI/CD pipeline"
  const Rule: Line := "---"
  const Footer: Line := "*Generated by AI Test Case Generator " + "with CrewAI + Ollama*"

  /** The lines of the description before the file list. */
  function HeadLines(feature: string, scenarios: int, fileCount: nat): seq<string> {
    [ Title, "", Intro, "", Summary,
      "- **Feature**: " + feature,
      "- **Scenarios**: " + IntToString(scenarios) + " test scenario(s)",
      "- **Files Generated**: " + NatToString(fileCount),
      "", FilesHeading ]
  }

  /** The lines of the description after the file list. */
  function TailLines(files: seq<string>): seq<string> {
    [ "", HowToRun, BashFence, Activate, SourceVenv, "", RunTests,
      "pytest " + Join(files, " ") + " -v",
      CloseFence, "", Notes, NoteOrigin, NoteReview, NoteCi, "", Rule, Footer, "" ]
  }

  /** `generate_pr_body`. */
  function PrBody(feature: string, scenarios: int, files: seq<string>): string {
    Join(HeadLines(feature, scenarios, |files|), "\n") + "\n"
      + Join(MapSeq(Bullet, files), "\n") + "\n"
      + Join(TailLines(files), "\n")
  }

  /** The file list occupies one line per file, or one empty line when
      there are no files. */
  function ListLines(files: seq<string>): seq<string> {
    if files == [] then [""] else MapSeq(Bullet, files)
  }

  lemma DigitsNoNewline(s: string)
    requires AllDigits(s)
    ensures '\n' !in s
  {
    assert forall i :: 0 <= i < |s| ==> s[i] != '\n';
  }

  lemma {:induction false} JoinKeepsOut(xs: seq<string>, sep: string, c: char)
    requires c !in sep
    requires forall i :: 0 <= i < |xs| ==> c !in xs[i]
    ensures c !in Join(xs, sep)
    decreases |xs|
  {
    if |xs| > 1 {
      JoinKeepsOut(xs[1..], sep, c);
    }
  }

  lemma HeadLinesSplit(feature: string, scenarios: int, n: nat)
    requires '\n' !in feature
    ensures Split(Join(HeadLines(feature, scenarios, n), "\n"), '\n') == HeadLines(feature, scenarios, n)
  {
    var h := HeadLines(feature, scenarios, n);
    var c := IntToString(scenarios);
    if scenarios < 0 {
      DigitsNoNewline(c[1..]);
      assert c == [c[0]] + c[1..];
    } else {
      DigitsNoNewline(c);
    }
    DigitsNoNewline(NatToString(n));
    assert forall i :: 0 <= i < |h| ==> '\n' !in h[i];
    SplitJoin(h, '\n');
  }

  lemma TailLinesSplit(files: seq<string>)
    requires forall i :: 0 <= i < |files| ==> '\n' !in files[i]
    ensures Split(Join(TailLines(files), "\n"), '\n') == TailLines(files)
  {
    var t := TailLines(files);
    JoinKeepsOut(files, " ", '\n');
    assert forall i :: 0 <= i < |t| ==> '\n' !in t[i];
    SplitJoin(t, '\n');
  }

  lemma ListLinesSplit(files: seq<string>)
    requires forall i :: 0 <= i < |files| ==> '\n' !in files[i]
    ensures Split(Join(MapSeq(Bullet, files), "\n"), '\n') == ListLines(files)
  {
    var b := MapSeq(Bullet, files);
    if files != [] {
      assert forall i :: 0 <= i < |b| ==> '\n' !in b[i];
      SplitJoin(b, '\n');
    }
  }

  /** The description, line by line, for a feature name and files without
      line breaks: the fixed heading and summary (the file count in the
      eighth line), one bullet per file in the given order, and the run
      instructions whose `pytest` line names the files separated by single
      spaces. */
  lemma PrBodyLines(feature: string, scenarios: int, files: seq<string>)
    requires '\n' !in feature
    requires forall i :: 0 <= i < |files| ==> '\n' !in files[i]
    ensures var lines := Split(PrBody(feature, scenarios, files), '\n');
      lines == HeadLines(feature, scenarios, |files|) + ListLines(files) + TailLines(files)
  {
    var a := Join(HeadLines(feature, scenarios, |files|), "\n");
    var f := Join(MapSeq(Bullet, files), "\n");
    var t := Join(TailLines(files), "\n");
    assert PrBody(feature, scenarios, files) == a + ['\n'] + (f + ['\n'] + t);
    HeadLinesSplit(feature, scenarios, |files|);
    ListLinesSplit(files);
    TailLinesSplit(files);
    SplitThree(a, f, t, HeadLines(feature, scenarios, |files|), ListLines(files), TailLines(files));
  }

  /** Three blocks of lines joined by line breaks split into their lines. */
  lemma SplitThree(a: string, f: string, t: string, h: seq<string>, l: seq<string>, u: seq<string>)
    requires Split(a, '\n') == h && Split(f, '\n') == l && Split(t, '\n') == u
    ensures Split(a + ['\n'] + (f + ['\n'] + t), '\n') == h + l + u
  {
    SplitAround(a, '\n', f + ['\n'] + t);
    SplitAround(f, '\n', t);
  }

  /** The file count, the bullets and the `pytest` line, by line number. */
  lemma PrBodyLineFacts(feature: string, scenarios: int, files: seq<string>)
    requires '\n' !in feature
    requires forall i :: 0 <= i < |files| ==> '\n' !in files[i]
    ensures var lines := Split(PrBody(feature, scenarios, files), '\n');
      |lines| == 28 + |ListLines(files)|
      && lines[7] == "- **Files Generated**: " + NatToString(|files|)
      && (files != [] ==> lines[10..10 + |files|] == MapSeq(Bullet, files))
      && lines[17 + |ListLines(files)|] == "pytest " + Join(files, " ") + " -v"
  {
    var h, l, t := HeadLines(feature, scenarios, |files|), ListLines(files), TailLines(files);
    PrBodyLines(feature, scenarios, files);
    HeadLineCount(feature, scenarios, |files|);
    TailLinePytest(files);
    LinesAt(h, l, t);
  }

  lemma HeadLineCount(feature: string, scenarios: int, n: nat)
    ensures |HeadLines(feature, scenarios, n)| == 10
    ensures HeadLines(feature, scenarios, n)[7] == "- **Files Generated**: " + NatToString(n)
  {
  }

  lemma TailLinePytest(files: seq<string>)
    ensures |TailLines(files)| == 18
    ensures TailLines(files)[7] == "pytest " + Join(files, " ") + " -v"
  {
  }

  lemma LinesAt(h: seq<string>, l: seq<string>, t: seq<string>)
    requires |h| == 10 && |t| == 18
    ensures var lines := h + l + t;
      |lines| == 28 + |l| && lines[7] == h[7] && lines[10..10 + |l|] == l && lines[17 + |l|] == t[7]
  {
  }

  /** The `pytest` arguments give the file list back when no file name
      contains a space. */
  lemma PytestArgsRoundTrip(files: seq<string>)
    requires |files| >= 1
    requires forall i :: 0 <= i < |files| ==> ' ' !in files[i]
    ensures Split(Join(files, " "), ' ') == files
  {
    SplitJoin(files, ' ');
  }
}
