# AI test generator: a Dafny model of its deterministic core

The repository turns plain-text API test scenarios into pytest files. A
CrewAI crew of language-model agents writes and reviews the code. The
program can also push the file to a new git branch and open a GitHub pull
request. This project models the deterministic logic around that pipeline:

- **Extractor**: how `TestGeneratorCrew._extract_code_from_result` finds
  one code string in the reviewer's reply. It tries five strategies in
  order: a fenced `json` block, a brace-free `final_code` object, a regex on
  the `final_code` value, a `python` block, and a marker heuristic. Each
  strategy has its own unescape set.
- **Naming**: the feature name found in the scenario, the `test_<slug>.py`
  file name, the branch suffix, and `ParsedScenario.to_test_name` and
  `to_class_name`.
- **Schemas**: the `StepType` enum and the field defaults of
  `GeneratedTest`, `PRMetadata` and `WorkflowResult`.
- **FileHandler**: path resolution, relative paths, and reads and writes
  over a map-based file system.
- **GitUtils** and **GithubAgent**: branch names, the outcome shapes of the
  git steps, the gating of `gh pr create`, the pull-request description, and
  the agent tools.
- **Publisher**: `_push_to_github` as a gated sequence that returns a
  `PRMetadata` and the trace of steps it attempted. Also `_run_github_agent`,
  which scans the agent's reply for a pull-request URL and otherwise falls
  back to the direct path.
- **Workflow**: `generate_tests` and `generate_from_file`.

Every regular expression of the core is modelled by hand. Each one gets:

- a declarative predicate saying what a match is;
- a search function whose contract says which match Python's `re` module
  reports: the leftmost start, and greedy or lazy ends.

The modules Text, Scan, Pieces, Rewrite and Decimal give the Python string
built-ins the core uses: `lower`, `strip`, `isspace` and `isalnum` on ASCII,
`split`, `join`, `replace`, `re.sub` with a fixed pattern, `str(int)` and
`int(str)`.

These are parameters of the model rather than part of it:

- the language-model crew and the GitHub agent, given as their reply text
  or the exception they raise;
- `json.loads`, as a function from text to a decoded value;
- `compile`, as a function from code to an outcome;
- GitPython, the `gh` tool and the local clock, as records of scripted
  outcomes.

## Model

| member | source | states |
|---|---|---|
| Schemas.ParseStepType | src/models/schemas.py:8-15 | a lookup by value finds the member whose value is the text, and fails only when no member has that value |
| Schemas.StepTypeRoundTrip | src/models/schemas.py:8-15 | looking up a member's own value gives that member back |
| Schemas.NewGeneratedTest | src/models/schemas.py:168-180 | a new `GeneratedTest` keeps its file name and content and defaults to one test, valid, with no review notes |
| Schemas.NewPRMetadata | src/models/schemas.py:183-203 | a new `PRMetadata` is unsuccessful, targets `main`, and has no URL, number, files or error |
| Schemas.NewWorkflowResult | src/models/schemas.py:206-234 | a new `WorkflowResult` is successful, with no tests, metadata, errors or warnings |
| Schemas.ToTestName | src/models/schemas.py:74-79 | the name is `test_` followed by lower-case alphanumerics and underscores; it has one underscore per space or underscore of the scenario name, and its other characters are the name's alphanumerics, lower-cased and in order; the exact name of space-separated words is `Schemas.TestNameOfWords` |
| Schemas.TestNameBodyChars | src/models/schemas.py:76-78 | every character after the prefix is a lower-case letter, a digit or `_` |
| Schemas.TestNameBodyCount | src/models/schemas.py:76-78 | the underscores after the prefix number exactly the spaces plus underscores of the scenario name |
| Schemas.TestNameBodyLetters | src/models/schemas.py:76-78 | with underscores removed, the part after the prefix is the lower-cased name's alphanumerics in order |
| Schemas.TestNameBodyAppend | src/models/schemas.py:76-78 | the body is computed character by character: the body of a concatenation is the concatenation of the bodies |
| Schemas.TestNameBodyAlnum | src/models/schemas.py:76-78 | an alphanumeric word passes into the body whole, lower-cased |
| Schemas.TestNameBodyJoin | src/models/schemas.py:75-78 | non-empty alphanumeric words joined by single spaces give the lower-cased words joined by single underscores |
| Schemas.TestNameOfWords | src/models/schemas.py:74-79 | for a scenario name of non-empty alphanumeric words joined by single spaces, the test name is `test_` followed by the lower-cased words joined by `_`, one underscore between each pair |
| Schemas.UserLogsInTestName | src/models/schemas.py:74-79 | the scenario name `User logs in` gives `test_user_logs_in` |
| Schemas.ToClassName | src/models/schemas.py:81-86 | the name is `Test` followed by alphanumerics only, so it holds no whitespace; ignoring case, they are exactly the feature name's alphanumerics |
| Text.Capitalize | src/models/schemas.py:84 | `str.capitalize` on ASCII: the first character upper-cased and the rest lower-cased, the same length, alphanumerics staying alphanumeric and nothing else becoming one |
| Pieces.WordsOfJoin | src/models/schemas.py:83 | `split()` of a single-space join of non-empty, whitespace-free words gives back the words |
| Schemas.ClassNameOfWords | src/models/schemas.py:81-86 | for a feature name of non-empty alphanumeric words joined by single spaces, the class name is `Test` followed by each word capitalised (first letter upper, the rest lower), in order |
| Schemas.LoginPageClassName | src/models/schemas.py:81-86 | the feature name `login page` gives `TestLoginPage` |
| Extractor.JsonFenceSearch | src/crew/test_crew.py:225 | the match reported for the fenced-json pattern: it is a match, no match starts earlier, and its lazy end is the shortest from that start; there is none only when no match exists |
| Extractor.BraceSearch | src/crew/test_crew.py:244 | the leftmost brace-free object holding `"final_code"`; the end of a match is fixed by its start; none only when no match exists |
| Extractor.ValueAt | src/crew/test_crew.py:259-263 | from a given start: the value group begins as late as the greedy quote run allows and ends at the first closing quote; none only when no match starts there |
| Extractor.ValueSearch | src/crew/test_crew.py:259-263 | the leftmost `final_code` value match, with the group chosen as `re` chooses it; none only when no match exists |
| Extractor.PyBlockSearch | src/crew/test_crew.py:273-277 | the leftmost `python` block, closed at the first fence after it; none only when no match exists |
| Extractor.CleanJsonOfWrapped | src/crew/test_crew.py:229-230 | removing the opening `json` tag and the closing fence from a fenced block gives back the object text |
| Extractor.FieldOf | src/crew/test_crew.py:233-234 | the `final_code` member is found exactly when the decoded value is an object with that key |
| Extractor.FromJsonFence | src/crew/test_crew.py:225-241 | strategy 1: no fenced block means no answer; otherwise the block's cleaned text is decoded, a string `final_code` gives that string unescaped and stripped, another `final_code` value raises into the fallback, and a missing key or a decode failure gives no answer |
| Extractor.FromBraces | src/crew/test_crew.py:244-253 | strategy 2: no brace-free object means no answer; otherwise the matched object is decoded, a string `final_code` gives that string with strategy 2's unescapes, stripped, another value raises into the fallback, and a missing key or a decode failure gives no answer |
| Extractor.FromValue | src/crew/test_crew.py:259-270 | strategy 3 answers exactly when the value regex matches, with the leftmost match's group, unescaped and stripped |
| Extractor.FromPyBlock | src/crew/test_crew.py:273-279 | strategy 4 answers exactly when a `python` block is present, with the text between the leftmost block's tag and its first closing fence, stripped |
| Extractor.MarkerFallback | src/crew/test_crew.py:284-286 | the cleaned text contains no code fence |
| Extractor.MarkerFallbackKeepsMarker | src/crew/test_crew.py:282-286 | the cleaned text still contains the marker that triggered it, so it is not empty |
| Extractor.MarkerFallbackIdempotent | src/crew/test_crew.py:284-286 | cleaning cleaned text changes nothing |
| Extractor.SubJsonBlockAbsent | src/crew/test_crew.py:285 | on text without a fence, removing fenced-json blocks changes nothing |
| Extractor.FromMarker | src/crew/test_crew.py:282-286 | strategy 5 answers exactly when `import pytest` or `def test_` occurs, with the marker-cleaned text, which is non-empty and stripped |
| Extractor.FromText | src/crew/test_crew.py:258-288 | strategies 3 to 5 in order: a value match decides, else a `python` block decides, else the marker heuristic; nothing exactly when none of the three applies |
| Extractor.ExtractCode | src/crew/test_crew.py:213-288 | the answer follows the source's order: a string from strategy 1 wins; a raise in strategy 1 goes straight to strategies 3-5; a strategy-1 miss lets a strategy-2 string win, otherwise strategies 3-5 decide; the code is stripped; a marker guarantees an answer |
| Extractor.ValueBeatsLaterStrategies | src/crew/test_crew.py:258-279 | with no fenced block and no brace-free object, a value match gives the answer, ahead of a `python` block and the markers |
| Extractor.PyBlockBeatsMarker | src/crew/test_crew.py:273-286 | with no earlier pattern present, a `python` block gives the answer, ahead of the markers |
| Extractor.MarkerIsLast | src/crew/test_crew.py:282-288 | with none of the four patterns present, a marker makes the cleaned text the answer |
| Extractor.UnescapeDiffers | src/crew/test_crew.py:237-269 | the unescape sets differ: strategy 1 turns `\"` into a quote and strategy 2 does not; only strategy 3 turns `\'` into a quote; strategy 2 still turns `\n` into a newline |
| Extractor.UnescapePlain | src/crew/test_crew.py:237-269 | text without a backslash passes every unescape set unchanged |
| Extractor.FencedJsonWins | src/crew/test_crew.py:225-239 | a reply that opens with a fenced `json` block, whose object has no backtick and decodes to a string `final_code`, yields that string, unescaped and stripped, whatever follows, including a later `python` block |
| Extractor.BareValueFound | src/crew/test_crew.py:259-270 | a reply that is only a `"final_code": "v"` member with a plain value yields `v` unescaped by strategy 3's set and stripped, whatever `json.loads` says |
| Extractor.EmptyValueFound | src/crew/test_crew.py:259-270 | an empty `final_code` value yields the empty string, not "no answer" |
| Naming.FeatureSearch | src/crew/test_crew.py:300 | the match `Feature:\s*(.+)` reports: the leftmost tag, whitespace taken as far as the greedy run allows, and the rest of the line; none only when no match exists |
| Naming.FeatureAt | src/crew/test_crew.py:300 | from the first tag, the group chosen as `re` chooses it, or no match anywhere |
| Naming.FeatureAtEnd | src/crew/test_crew.py:300 | the same once the whitespace run is known |
| Naming.FeatureGroup | src/crew/test_crew.py:300-306 | a `Feature:` match gives the group, the rest of its line after the whitespace; with none, the first line of the stripped scenario cut to 50 characters; the text lies on one line |
| Naming.FeatureName | src/crew/test_crew.py:290-306 | the stripped group of the leftmost `Feature:` match, or else the stripped 50-character cut of the first line; on one line, with no surrounding whitespace |
| Naming.FeatureNameOfHeader | src/crew/test_crew.py:300-302 | a scenario starting `Feature: <name>` gives back the name |
| Naming.FeatureNameAfter | src/crew/test_crew.py:300-302 | after any lines with no `Feature:` tag, a `Feature:` line with whitespace and then a name starting with a non-space gives the stripped name |
| Naming.FeatureNameOfLine | src/crew/test_crew.py:300-302 | the first tag, followed by a whitespace run, a non-space and the rest of the line up to a newline, gives that rest, stripped |
| Naming.CollapseRuns | src/crew/test_crew.py:319 | after the substitution every character is `[a-z0-9_]`, no two underscores are adjacent, and the result starts with `_` exactly when the input starts outside `[a-z0-9]`; where the underscores go is fixed by `Naming.CollapseRunsSplit` |
| Naming.CollapseRunsKeepsAlnum | src/crew/test_crew.py:319 | without underscores, the result is the input's `[a-z0-9]` characters in order |
| Naming.Slug | src/crew/test_crew.py:318-320 | the slug holds only `[a-z0-9_]`, no `__`, and no leading or trailing `_`; the exact slug of space-separated words is `Naming.SlugOfWords` |
| Naming.SlugKeepsAlnum | src/crew/test_crew.py:318-320 | without underscores, the slug is the lower-cased name's alphanumerics in order |
| Naming.SlugIdempotent | src/crew/test_crew.py:318-320 | the slug of a slug is itself |
| Naming.CollapseRunsSplit | src/crew/test_crew.py:319 | a maximal run outside `[a-z0-9]` between two parts (each empty or ending, respectively starting, in `[a-z0-9]`) becomes exactly one `_` at that place, with each part collapsed on its own |
| Naming.CollapseJoin | src/crew/test_crew.py:319 | non-empty `[a-z0-9]` words joined by single spaces become the words joined by single underscores |
| Naming.SlugOfWords | src/crew/test_crew.py:318-320 | for a feature name of non-empty alphanumeric words joined by single spaces, the slug is the lower-cased words joined by `_` |
| Naming.SlugOfCollapsed | src/crew/test_crew.py:320 | a collapsed name with no `_` at either end is not changed by the strip |
| Naming.FilenameOfLoginPage | src/crew/test_crew.py:318-322 | `Login Page` gives `test_login_page.py` |
| Naming.SlugOfLoginPage | src/crew/test_crew.py:318-320 | `Login Page` gives the slug `login_page` |
| Naming.TestFilename | src/crew/test_crew.py:308-322 | the file name is `test_` + slug + `.py` |
| Naming.FilenameOfLoginName | src/crew/test_crew.py:318-322 | `Login` gives `test_login.py` |
| Naming.FilenameOfLogin | src/crew/test_crew.py:290-322 | a scenario headed `Feature: Login` is saved as `test_login.py` |
| Naming.FilenameWithoutAlnum | src/crew/test_crew.py:318-322 | a name with no ASCII letter or digit gives `test_.py` |
| Naming.BranchSuffix | src/crew/test_crew.py:403 | the suffix is as long as the first 20 characters; each is kept lower-cased when alphanumeric and becomes `-` otherwise |
| FileHandler.ParsePath | src/utils/file_handler.py:144 | a parsed path has only proper components and is absolute exactly when the text starts with `/` |
| FileHandler.PathRoundTrip | src/utils/file_handler.py:144 | printing a well-formed path and parsing it again gives the same path |
| FileHandler.Resolve | src/utils/file_handler.py:135-147 | absolute paths are returned unchanged; relative paths are appended to the base |
| FileHandler.Resolved | src/utils/file_handler.py:17 | a base path without `..` resolves to the working directory joined with it |
| FileHandler.DefaultBaseIsCwd | src/utils/file_handler.py:11-17 | the default base `.` is the working directory |
| FileHandler.GetRelativePath | src/utils/file_handler.py:120-133 | the answer names the same file, and it is relative exactly when the file lies inside the base |
| FileHandler.ReadFile | src/utils/file_handler.py:19-37 | the contents with `\r\n` and lone `\r` turned into `\n`, as a text-mode `open` reads them, or `None` exactly when the file is missing or cannot be opened |
| FileHandler.Universal | src/utils/file_handler.py:31 | the text-mode read leaves no `\r`, never lengthens the text, and passes text without `\r` unchanged |
| FileHandler.UniversalIdempotent | src/utils/file_handler.py:31 | translating already-read text again changes nothing |
| FileHandler.UniversalCrLf | src/utils/file_handler.py:31 | `\r\n` after `\r`-free text reads as a single `\n` |
| FileHandler.UniversalCr | src/utils/file_handler.py:31 | a `\r` not followed by `\n` reads as `\n` |
| FileHandler.WriteFile | src/utils/file_handler.py:39-60 | the write succeeds exactly when no ancestor is a file and the target is not a directory or unwritable; on success only that file changes, otherwise no file changes; parent directories are created |
| FileHandler.ReadAfterWrite | src/utils/file_handler.py:19-60 | after a successful write, reading the same path gives the content with its line ends translated, so exactly the content when it holds no `\r` |
| FileHandler.WriteFrame | src/utils/file_handler.py:39-60 | a write leaves every other path as it was |
| FileHandler.WriteKeepsValid | src/utils/file_handler.py:49-57 | a write keeps the file system a tree: every file's ancestors are directories, and no path is both |
| FileHandler.EnsureDirectory | src/utils/file_handler.py:74-90 | succeeds exactly when the path and its ancestors are not files; it then exists with its ancestors; files are untouched |
| FileHandler.OsJoin | src/utils/file_handler.py:171 | an absolute second part replaces the first; otherwise the result starts with the first part and ends with the second |
| FileHandler.JoinAppendsParts | src/utils/file_handler.py:171 | the joined path's components are those of the directory followed by those of the name |
| FileHandler.SaveGeneratedTest | src/utils/file_handler.py:150-176 | the returned path is the join of the output directory and the file name, whether or not the write succeeded; when the name is a plain component and nothing blocks the target (no file above it, not a directory, not unwritable) the file reads back as the content with its line ends translated; otherwise either it does or no file changed |
| FileHandler.DirectoryKeepsTargetFree | src/utils/file_handler.py:165-173 | creating the output directory cannot block the file to be written inside it |
| FileHandler.SavedInOutputDir | src/utils/file_handler.py:165-176 | the saved file lies in the output directory under the working directory |
| GitUtils.Two | src/utils/git_utils.py:88 | a two-digit field reads back as its number |
| GitUtils.Four | src/utils/git_utils.py:88 | a four-digit year reads back as its number |
| GitUtils.Stamp | src/utils/git_utils.py:88 | `%Y%m%d-%H%M%S`: 15 characters, a hyphen at position 8, and each field reads back as the clock's value |
| GitUtils.StampInjective | src/utils/git_utils.py:88 | two different local times never give the same stamp |
| GitUtils.BranchName | src/utils/git_utils.py:78-92 | `prefix-suffix-stamp`, or `prefix-stamp` for an empty suffix |
| GitUtils.BranchNameInjective | src/utils/git_utils.py:78-92 | equal branch names mean equal suffixes and equal times |
| GitUtils.CreateBranch | src/utils/git_utils.py:63-76 | succeeds exactly when checkout does not raise, and reports the branch or the error |
| GitUtils.StageFiles | src/utils/git_utils.py:94-107 | on success, the message reports the number of files staged |
| GitUtils.Commit | src/utils/git_utils.py:109-122 | on success, the message is the first 8 characters of the commit hash |
| GitUtils.Push | src/utils/git_utils.py:124-141 | succeeds exactly when the push does not raise, and names the branch pushed |
| GitUtils.PrArgv | src/utils/git_utils.py:170-181 | the `gh` arguments carry the prefixed title and the base branch |
| GitUtils.GhRunReply | src/utils/git_utils.py:183-191 | exit 0 gives success with stripped stdout; another exit code gives stripped stderr; a timeout gives its fixed message |
| GitUtils.CreatePullRequest | src/utils/git_utils.py:143-191 | missing `gh` fails before authentication is asked; unauthenticated fails before `gh pr create` runs; otherwise the run's answer is mapped as above |
| GitUtils.AuthNotConsulted | src/utils/git_utils.py:161-165 | when `gh` is missing, nothing else about the environment changes the answer |
| GitUtils.PrBodyLines | src/utils/git_utils.py:230-275 | split into lines, the description is its header lines, one bullet per file in order, then its closing lines |
| GitUtils.PrBodyLineFacts | src/utils/git_utils.py:245-265 | the files-generated line carries the file count, the bullets list each file once in order, and the `pytest` line joins the files with single spaces |
| GitUtils.PytestArgsRoundTrip | src/utils/git_utils.py:265 | the `pytest` arguments give back the file list when no file name contains a space |
| GithubAgent.CreateGitBranch | src/agents/github_agent.py:58-93 | not a repository, or a dirty tree, gives its error and performs no checkout; otherwise it checks out `prefix[-suffix]-stamp` and reports it or the error |
| GithubAgent.BranchReplyIsName | src/agents/github_agent.py:58-93 | the tool answers with the branch name exactly when it is a clean repository and checkout succeeds |
| GithubAgent.ParseFileList | src/agents/github_agent.py:119 | one entry per comma-separated piece, each the stripped piece at the same position; no entry holds a comma or surrounding whitespace |
| GithubAgent.CommitFiles | src/agents/github_agent.py:102-132 | stages the parsed list, commits with the message, and reports the list's length and the short hash, or the first error |
| GithubAgent.SplitCommaList | src/agents/github_agent.py:119 | splitting a `", "` join on commas gives the first entry, then the others each with a leading space |
| GithubAgent.FileListRoundTrip | src/agents/github_agent.py:119 | parsing a `", "` join, as src/tasks/test_generation_tasks.py:291 builds it, gives back any list of stripped, comma-free names |
| GithubAgent.PushBranchTool | src/agents/github_agent.py:141-164 | a successful push reports the branch it was given |
| GithubAgent.CreatePrTool | src/agents/github_agent.py:173-220 | checks `gh` installed, then authenticated, then runs it with the prefixed title, and embeds stripped stdout on success |
| GithubAgent.PrToolAgreesWithDirect | src/agents/github_agent.py:173-220 | the tool takes the same `gh` steps as `create_pull_request` and succeeds exactly when it does |
| Decimal.DigitsRoundTrip | src/crew/test_crew.py:481 | reading back the decimal digits of a number gives the number |
| Publisher.PullSearch | src/crew/test_crew.py:479 | the leftmost `/pull/` followed by a digit, with its greedy digit run; none only when absent |
| Publisher.PullNumber | src/crew/test_crew.py:478-481 | a number is found exactly when `/pull/<digits>` occurs |
| Publisher.PullNumberOfUrl | src/crew/test_crew.py:478-481 | a URL ending `/pull/<n>`, with no earlier `/pull/<digit>`, gives back `n` |
| Publisher.Failure | src/crew/test_crew.py:494-501 | a failure record keeps the branch, title, body, files and error, and leaves success, URL, number and base branch at their defaults |
| Publisher.GitFailure | src/crew/test_crew.py:407-458 | the first failing git step and its message; none exactly when all four succeed |
| Publisher.OpenPr | src/crew/test_crew.py:463-501 | the PR step's answer is mapped onto the record: success, URL, number and base branch on success; the failure record otherwise |
| Publisher.PushToGithub | src/crew/test_crew.py:372-501 | the steps taken are a prefix of branch, stage, commit, push, then the `gh` steps; a failure at a step takes no later step and reports that step's error; the files are the input list; failure keeps URL, number and base at their defaults; success needs every git step to succeed |
| Publisher.DirectIgnoresDirty | src/crew/test_crew.py:391-458 | the direct path gives the same answer whether or not the working tree is dirty |
| Publisher.UrlPull | src/crew/test_crew.py:549 | from a URL start, the greedy non-space run backs off to its last `/pull/<digit>` |
| Publisher.UrlSearch | src/crew/test_crew.py:549 | the leftmost GitHub pull-request URL and its greedy end; none only when absent |
| Publisher.FindPrUrl | src/crew/test_crew.py:549-550 | the URL found is the text of that match |
| Publisher.FindsPrUrl | src/crew/test_crew.py:549-550 | a reply holding `https://github.com/<path>/pull/<n>`, preceded by nothing or by whitespace after text with no URL, and followed by the end or whitespace, yields exactly that URL |
| Publisher.UrlIsGreedy | src/crew/test_crew.py:549 | the match from the URL's start uses the URL's own `/pull/` and no later one, when the digits are followed by the end or whitespace |
| Publisher.UrlIsLeftmost | src/crew/test_crew.py:549 | no match starts in text before the URL when that text has no URL of its own and ends in whitespace |
| Publisher.AgentBranch | src/crew/test_crew.py:553-554 | the branch is the leftmost `test/auto-generated` in the reply and the non-space run after it; otherwise `test/auto-generated-<feature>` |
| Publisher.RunGithubAgent | src/crew/test_crew.py:503-582 | a PR URL in the reply gives success with that URL, its number, the reply's branch, the title, the body, the base and the files, and takes no step; no URL, or an agent error, gives exactly the direct path's answer and steps |
| Publisher.AgentReportsPr | src/crew/test_crew.py:549-571 | an agent reply holding `https://github.com/<path>/pull/<n>` is reported as successful with that URL and number `n` |
| Workflow.CrewCode | src/crew/test_crew.py:184-191 | the code is the extracted code, or the raw reply when extraction finds nothing or only the empty string |
| Workflow.ProcessCrewResult | src/crew/test_crew.py:182-211 | a test is produced unless `compile` raises something other than `SyntaxError`; it holds the crew code, the generated file name, one test, the generator note, and validity exactly when the code compiles |
| Workflow.FencedReplyBecomesTest | src/crew/test_crew.py:182-206 | a fenced `json` reply becomes a test whose content is the unescaped `final_code` |
| Workflow.SaveGeneratedFiles | src/crew/test_crew.py:339-370 | the single saved path is the output directory joined with the file name; when the name is a plain component and nothing blocks the target, that file reads back as the content with its line ends translated, and otherwise either it does or no file changed |
| Workflow.SaveGeneratedFilesAsWritten | src/crew/test_crew.py:348-362 | as written, the test file is saved and then the `page_object_content` read raises |
| Workflow.Inline | src/crew/test_crew.py:82-87 | the inline result record: `inline`, one scenario, successful, empty |
| Workflow.AfterTest | src/crew/test_crew.py:137-155 | a produced test is saved and recorded; the pull-request metadata is set exactly when publishing is asked for and the agent starts; an exception while its task or crew is built fails the run with that message, keeping the test and no metadata |
| Workflow.GenerateTests | src/crew/test_crew.py:66-166 | success exactly when the crew answers, a test is produced and the agent (if asked for) starts; a crew error or no test gives one error and leaves files and git untouched; a produced test is saved and recorded, and its only possible error is the agent-start exception |
| Workflow.PublishesSavedTest | src/crew/test_crew.py:137-155 | once the agent starts, publishing is given the saved path and the scenario's feature name, and its answer becomes the metadata |
| Workflow.SuccessIgnoresPublishing | src/crew/test_crew.py:137-164 | tests and files never depend on whether or how publishing happens; success and errors do not either, as long as the agent starts whenever it is asked for |
| Workflow.AgentStartFailureKeepsTest | src/crew/test_crew.py:137-162 | when building the agent's task or crew raises (src/crew/test_crew.py:523-536, outside the agent's own handler), the run fails with that message, yet the test stays recorded and written and no step is taken |
| Workflow.GenerateTestsAsWritten | src/crew/test_crew.py:135-162 | as written, a produced test is saved, then the run fails with the attribute error |
| Workflow.AsWrittenNeverSucceeds | src/crew/test_crew.py:135-162 | as written, no run succeeds or publishes, while the corrected workflow succeeds on the same inputs |
| Workflow.GenerateFromFile | src/crew/test_crew.py:584-591 | an unreadable file gives the read error; otherwise the inline workflow's result, with the input file recorded |
| Workflow.ScenarioLineEndsTranslated | src/crew/test_crew.py:584-591 | a scenario file whose `Feature:` line ends in a lone `\r` is read with `\n` there, so the feature name is the rest of that line |

## Left out

- Language-model crews, agents, prompts and task construction: replies are inputs. For the main crew, an exception raised while building tasks or the crew is not distinguished from one raised by `kickoff`; both reach the same handler. For the GitHub agent they are distinguished (`World.agentStart`).
- `json.loads` and `compile` are function parameters. Only what the extractor does with their answers is modelled.
- GitPython, `subprocess`, `gh` and their timeouts are scripted outcome records. `is_git_repo` is a yes/no input.
- The GitHub agent's own tool calls are not part of the step trace. Only its reply text is used.
- `datetime.now()` is an input of type local time. Years are taken to be four digits (1000 to 9999), as `%Y` prints them then.
- Characters beyond ASCII count as neither space nor alphanumeric, and `lower` leaves them unchanged. Python's Unicode case mapping and `isalnum` are not modelled.
- FileHandler.WriteFile: files are keyed by the lexically resolved path, so `a/../b` and `b` are different entries. The operating system resolves `..` only through directories that exist, which the map-based file system does not track.
- Schemas.ToClassName: its own contract fixes the class name only up to case. The exact capitalisation is proved (`Schemas.ClassNameOfWords`) for names made of alphanumeric words separated by single spaces, not for names with punctuation or runs of whitespace.
- Text-mode writes are taken as POSIX writes them: `\n` is stored as it is. The Windows translation to `\r\n` is not modelled.
- `FileHandler.Resolved`: states the resolved base only for base paths without `..`. `Path.resolve` follows symbolic links, which the map-based file system does not have.
- `pathlib`'s handling of a leading `//` is not modelled.
- `list_files`, `file_exists`, `check_git_status`, `checkout_branch`, `get_status_summary`, `get_current_branch`, `get_untracked_files` and `get_remote_url` are outside the modelled core.
- `_validate_python_code` is modelled only through the `compile` parameter's three outcomes.
- The verbose `print` calls, `main.py` and the settings loader are left out. The two prefixes from src/config/settings.py:28-29 are a settings record.
- The corrected `_save_generated_files` treats the page-object file as absent, because `GeneratedTest` declares no such field.
- In this code, branch timestamps use local time, not UTC.
- Only the agent tool checks for a dirty working tree; the direct path does not (`Publisher.DirectIgnoresDirty`).
- On the direct path (`Publisher.OpenPr`; src/utils/git_utils.py:183-184, src/crew/test_crew.py:473-492), a `gh` run that succeeds but prints nothing is reported as a success whose URL is the empty string. Nothing checks that the URL is non-empty, and the model keeps that.

## Findings

| source | as written | input that shows it | evidently intended | confidence | as-written member | corrected member |
|---|---|---|---|---|---|---|
| src/crew/test_crew.py:362 | `_save_generated_files` reads `test.page_object_content`, which `GeneratedTest` (src/models/schemas.py:168-180) does not declare. The `AttributeError` is caught at line 160, so the run fails after the test file is written, and nothing is published | any crew reply from which a test is produced | the test is saved and recorded, the run succeeds, and publishing runs when asked for | not executed | Workflow.AsWrittenNeverSucceeds | Workflow.GenerateTests |
