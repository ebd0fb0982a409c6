/** The tools of the GitHub agent: creating a branch, committing files,
    pushing a branch and opening a pull request. Each returns one message
    string for the language model to read.

    The repository in the working directory is an input describing how each
    git operation would turn out; the agent that decides which tools to call
    is not modelled. */
module GithubAgent {
  import opened Text
  import opened Scan
  import opened Pieces
  import opened Decimal
  import opened GitUtils

  /** A tool's message and the git operations it performed. */
  datatype ToolReply = ToolReply(message: string, steps: seq<Step>)

  // The longer texts are split only for line length.
  const NotRepoForBranch := "Error: Not a Git repository. " + "Please initialize Git first."
  const DirtyRepo := "Error: Repository has uncommitted " + "changes. Please commit or stash " + "them first."
  const NotRepo := "Error: Not a Git repository."

  /** `create_git_branch`: the branch is named like `generate_branch_name`
      names it; a dirty repository is refused before any checkout, and on
      success the reply is the bare branch name. */
  function CreateGitBranch(s: GithubSettings, suffix: string, t: LocalTime, repo: Repo): (r: ToolReply)
    ensures repo.NotARepo? ==> r == ToolReply(NotRepoForBranch, [])
    ensures repo.ARepo? && repo.dirty ==> r == ToolReply(DirtyRepo, [])
    ensures repo.ARepo? && !repo.dirty ==> r.steps == [Checkout(BranchName(s, suffix, t))]
    ensures repo.ARepo? && !repo.dirty && repo.checkout.None? ==> r.message == BranchName(s, suffix, t)
    ensures repo.ARepo? && !repo.dirty && repo.checkout.Some?
      ==> r.message == "Error creating branch: " + repo.checkout.value
  {
    var name := BranchName(s, suffix, t);
    match repo
    case NotARepo => ToolReply(NotRepoForBranch, [])
    case ARepo(dirty, checkout, _, _, _) =>
      if dirty then ToolReply(DirtyRepo, [])
      else
        match checkout
        case None => ToolReply(name, [Checkout(name)])
        case Some(e) => ToolReply("Error creating branch: " + e, [Checkout(name)])
  }

  /** Under a prefix that does not start with `E` (the default starts with
      `t`), the reply is the branch name exactly when a clean repository
      checked the branch out: every other reply is an error message. */
  lemma BranchReplyIsName(s: GithubSettings, suffix: string, t: LocalTime, repo: Repo)
    requires |s.branchPrefix| > 0 && s.branchPrefix[0] != 'E'
    ensures CreateGitBranch(s, suffix, t, repo).message == BranchName(s, suffix, t)
      <==> repo.ARepo? && !repo.dirty && repo.checkout.None?
  {
    var name := BranchName(s, suffix, t);
    assert name[0] == name[..|s.branchPrefix| + 1][0] == s.branchPrefix[0];
    var m := CreateGitBranch(s, suffix, t, repo).message;
    match repo
    case NotARepo => assert m[0] == NotRepoForBranch[0] == 'E';
    case ARepo(dirty, checkout, _, _, _) =>
      if dirty {
        assert m[0] == DirtyRepo[0] == 'E';
      } else if checkout.Some? {
        assert m[0] == 'E';
      }
  }

  /** The file list of `commit_files`: the comma-separated entries, each
      stripped. */
  function ParseFileList(files: string): (r: seq<string>)
    ensures |r| == |Split(files, ',')|
    ensures forall i :: 0 <= i < |r| ==> ',' !in r[i]
    ensures forall i :: 0 <= i < |r| ==> r[i] == Strip(Split(files, ',')[i]) && Strip(r[i]) == r[i]
  {
    var pieces := Split(files, ',');
    var r := MapSeq(Strip, pieces);
    assert forall i :: 0 <= i < |r| ==> ',' !in r[i] && Strip(r[i]) == r[i] by {
      forall i | 0 <= i < |r| ensures ',' !in r[i] && Strip(r[i]) == r[i] {
        StripByKeepsOut(pieces[i], IsSpace, ',');
        StripByIdempotent(pieces[i], IsSpace);
      }
    }
    r
  }

  /** `commit_files`: stages the parsed list and commits; the reply counts
      the entries of the list and carries the short hash. */
  function CommitFiles(files: string, message: string, repo: Repo): (r: ToolReply)
    ensures repo.NotARepo? ==> r == ToolReply(NotRepo, [])
    ensures repo.ARepo? && repo.add.Some?
      ==> r == ToolReply("Error committing files: " + repo.add.value, [Stage(ParseFileList(files))])
    ensures repo.ARepo? && repo.add.None? && repo.commit.CommitRaised?
      ==> r == ToolReply("Error committing files: " + repo.commit.message,
                         [Stage(ParseFileList(files)), CommitAs(message)])
    ensures repo.ARepo? && repo.add.None? && repo.commit.Committed?
      ==> (r.steps == [Stage(ParseFileList(files)), CommitAs(message)]
        && r.message == "Committed " + NatToString(|ParseFileList(files)|)
             + " API test file(s) with hash " + Take(repo.commit.hexsha, 8))
  {
    match repo
    case NotARepo => ToolReply(NotRepo, [])
    case ARepo(_, _, add, commit, _) =>
      var list := ParseFileList(files);
      match add
      case Some(e) => ToolReply("Error committing files: " + e, [Stage(list)])
      case None =>
        match commit
        case CommitRaised(e) => ToolReply("Error committing files: " + e, [Stage(list), CommitAs(message)])
        case Committed(sha) =>
          ToolReply("Committed " + NatToString(|list|) + " API test file(s) with hash " + Take(sha, 8),
                    [Stage(list), CommitAs(message)])
  }

  function PrefixSpace(x: string): string { " " + x }

  /** Splitting a `", "` join on commas leaves every entry after the first
      with its leading space. */
  lemma {:induction false} SplitCommaJoin(p: string, xs: seq<string>)
    requires |xs| >= 1
    requires ',' !in p
    requires forall i :: 0 <= i < |xs| ==> ',' !in xs[i]
    ensures Split(p + Join(xs, ", "), ',') == [p + xs[0]] + MapSeq(PrefixSpace, xs[1..])
    decreases |xs|
  {
    if |xs| == 1 {
      assert ',' !in p + xs[0];
      SplitWithoutSeparator(p + xs[0], ',');
    } else {
      var rest := Join(xs[1..], ", ");
      assert p + Join(xs, ", ") == (p + xs[0]) + [','] + (" " + rest) by {
        assert Join(xs, ", ") == xs[0] + ", " + rest;
      }
      assert ',' !in p + xs[0];
      SplitAtSeparator(p + xs[0], ',', " " + rest);
      SplitCommaJoin(" ", xs[1..]);
      assert MapSeq(PrefixSpace, xs[1..]) == [" " + xs[1]] + MapSeq(PrefixSpace, xs[2..]) by {
        PrefixSpaceTail(xs);
      }
    }
  }

  lemma PrefixSpaceTail(xs: seq<string>)
    requires |xs| >= 2
    ensures MapSeq(PrefixSpace, xs[1..]) == [" " + xs[1]] + MapSeq(PrefixSpace, xs[2..])
  {
    assert xs[1..][1..] == xs[2..];
  }

  /** An entry without surrounding whitespace is its own strip. */
  predicate Stripped(x: string) {
    |x| == 0 || (!IsSpace(x[0]) && !IsSpace(x[|x| - 1]))
  }

  /** The pieces of a `", "` join: the first entry, then the others with
      their leading space. */
  lemma SplitCommaList(xs: seq<string>)
    requires |xs| >= 1
    requires forall i :: 0 <= i < |xs| ==> ',' !in xs[i]
    ensures Split(Join(xs, ", "), ',') == [xs[0]] + MapSeq(PrefixSpace, xs[1..])
  {
    SplitCommaJoin([], xs);
    assert [] + Join(xs, ", ") == Join(xs, ", ");
    assert [] + xs[0] == xs[0];
  }

  /** One entry, bare or after its `", "` separator, strips back to itself. */
  lemma StripEntry(x: string)
    requires Stripped(x)
    ensures Strip(x) == x && Strip(PrefixSpace(x)) == x
  {
    assert Strip(x) == x by {
      StripByFixed(x, IsSpace);
    }
    assert Strip(PrefixSpace(x)) == Strip(x) by {
      assert IsSpace(' ');
      assert PrefixSpace(x) == [' '] + x;
      StripBySkipsHead(' ', x, IsSpace);
    }
  }

  /** Stripping the pieces of a `", "` join gives the entries back. */
  lemma StripPieces(xs: seq<string>)
    requires |xs| >= 1
    requires forall i :: 0 <= i < |xs| ==> Stripped(xs[i])
    ensures MapSeq(Strip, [xs[0]] + MapSeq(PrefixSpace, xs[1..])) == xs
  {
    var pieces := [xs[0]] + MapSeq(PrefixSpace, xs[1..]);
    var r := MapSeq(Strip, pieces);
    forall i | 0 <= i < |xs| ensures r[i] == xs[i] {
      StripEntry(xs[i]);
      if i > 0 {
        assert pieces[i] == PrefixSpace(xs[i]);
      }
    }
  }

  /** The agent joins the files with `", "` and the tool parses them back:
      the list is recovered when no entry contains a comma or has
      surrounding whitespace. */
  lemma FileListRoundTrip(xs: seq<string>)
    requires |xs| >= 1
    requires forall i :: 0 <= i < |xs| ==> ',' !in xs[i] && Stripped(xs[i])
    ensures ParseFileList(Join(xs, ", ")) == xs
  {
    SplitCommaList(xs);
    StripPieces(xs);
  }

  /** `push_branch`: on success the reply names the branch it was given. */
  function PushBranchTool(branch: string, repo: Repo): (r: ToolReply)
    ensures repo.NotARepo? ==> r == ToolReply(NotRepo, [])
    ensures repo.ARepo? ==> r.steps == [PushBranch(branch)]
    ensures repo.ARepo? && repo.push.None?
      ==> r.message == "Successfully pushed API test branch '" + branch + "' to origin"
    ensures repo.ARepo? && repo.push.Some? ==> r.message == "Error pushing branch: " + repo.push.value
  {
    match repo
    case NotARepo => ToolReply(NotRepo, [])
    case ARepo(_, _, _, _, push) =>
      match push
      case None => ToolReply("Successfully pushed API test branch '" + branch + "' to origin", [PushBranch(branch)])
      case Some(e) => ToolReply("Error pushing branch: " + e, [PushBranch(branch)])
  }

  const GhMissing := "Error: GitHub CLI (gh) " + "is not installed. " + "Install with: brew install gh"
  const GhLoggedOut := "Error: GitHub CLI is not " + "authenticated. Run: gh auth login"
  const PrCreated := "Pull Request for API tests " + "created successfully: "

  /** The pull-request tool: the same gating as `create_pull_request`, with
      its own messages; the standard error of a failed run is not stripped. */
  function CreatePrTool(s: GithubSettings, title: string, body: string, base: string, env: GhEnv): (r: ToolReply)
    ensures !env.installed ==> r == ToolReply(GhMissing, [Gh(AskInstalled)])
    ensures env.installed && !env.authenticated ==> r == ToolReply(GhLoggedOut, [Gh(AskInstalled), Gh(AskAuthenticated)])
    ensures env.installed && env.authenticated
      ==> r.steps == [Gh(AskInstalled), Gh(AskAuthenticated), Gh(RunGh(PrArgv(s, title, body, base)))]
    ensures env.installed && env.authenticated && env.run.Exited? && env.run.code == 0
      ==> r.message == PrCreated + Strip(env.run.stdout)
    ensures env.installed && env.authenticated && env.run.Exited? && env.run.code != 0
      ==> r.message == "Error creating PR: " + env.run.stderr
    ensures env.installed && env.authenticated && env.run.TimedOut? ==> r.message == "Error: PR creation timed out"
    ensures env.installed && env.authenticated && env.run.Raised?
      ==> r.message == "Error creating PR: " + env.run.message
  {
    if !env.installed then ToolReply(GhMissing, [Gh(AskInstalled)])
    else if !env.authenticated then ToolReply(GhLoggedOut, [Gh(AskInstalled), Gh(AskAuthenticated)])
    else
      var steps := [Gh(AskInstalled), Gh(AskAuthenticated), Gh(RunGh(PrArgv(s, title, body, base)))];
      match env.run
      case Exited(code, out, err) =>
        if code == 0 then ToolReply(PrCreated + Strip(out), steps)
        else ToolReply("Error creating PR: " + err, steps)
      case TimedOut => ToolReply("Error: PR creation timed out", steps)
      case Raised(e) => ToolReply("Error creating PR: " + e, steps)
  }

  /** The tool and `GitUtils.create_pull_request` gate identically: the
      tool runs `gh` exactly when the direct path does, with the same
      command line, and succeeds exactly when it does. */
  lemma PrToolAgreesWithDirect(s: GithubSettings, title: string, body: string, base: string, env: GhEnv)
    ensures var tool := CreatePrTool(s, title, body, base, env);
      var direct := CreatePullRequest(s, title, body, base, env);
      tool.steps == GhSteps(direct.probes)
      && (direct.ok <==> tool.message == PrCreated + direct.message)
  {
    var tool := CreatePrTool(s, title, body, base, env);
    var direct := CreatePullRequest(s, title, body, base, env);
    assert (PrCreated + direct.message)[0] == 'P';
    if !env.installed {
      assert tool.message[0] == GhMissing[0] == 'E';
    } else if !env.authenticated {
      assert tool.message[0] == GhLoggedOut[0] == 'E';
    } else if !direct.ok {
      assert tool.message[0] == 'E';
    }
  }
}
