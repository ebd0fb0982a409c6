/** The test-generation workflow of `TestGeneratorCrew`: the crew's reply
    becomes a `GeneratedTest`, the test is written under the output
    directory, and, when asked, it is published as a pull request. The
    language-model crew, the GitHub agent and Python's `compile` are
    parameters: only what the workflow does with their answers is modelled. */
module Workflow {
  import opened Text
  import opened Scan
  import opened Rewrite
  import opened Naming
  import opened Schemas
  import opened Extractor
  import opened FileHandler
  import opened GitUtils
  import opened Publisher

  /** What `compile(code, '<string>', 'exec')` does with the code: it
      accepts it, raises `SyntaxError` (caught by the validator), or raises
      something else, such as the `ValueError` for a NUL character, which
      escapes the validator. */
  datatype Compiled = Compiles | SyntaxError | CompileRaised

  /** What `crew.kickoff()` does: it returns a result whose `str` is the
      reviewer's text, or it raises. */
  datatype CrewOutcome = CrewSaid(text: string) | CrewRaised(message: string)

  /** The crew object's own configuration. Its file handler is built with the
      default base, the working directory. */
  datatype Crew = Crew(cwd: Base, outputDir: string, settings: GithubSettings)

  /** Everything outside the program that publishing consults: the message
      of an exception raised while the GitHub agent's task and crew are
      built (before `_run_github_agent` enters its handler), the agent's
      answer, the local clock, the repository and the `gh` tool. */
  datatype World = World(agentStart: Option<string>, agent: AgentOutcome, clock: LocalTime,
                         repo: Repo, gh: GhEnv)

  /** Publishing is asked for and building the agent's task or crew raises. */
  predicate StartFails(push: bool, w: World) {
    push && w.agentStart.Some?
  }

  /** A workflow run: the result record, the file system afterwards and the
      git and `gh` steps taken. */
  datatype Run = Run(result: WorkflowResult, fs: Fs, steps: seq<Step>)

  const GeneratorNote: string := "Generated by AI Test Generator"
  const NoTestCode: string := "Failed to generate test code"
  const UnreadableFile: string := "Could not read file: "

  // ---------------------------------------------------------------------
  // _process_crew_result
  // ---------------------------------------------------------------------

  /** The code kept from the crew's text: the extracted code, or the whole
      text when extraction finds nothing or finds only the empty string.
      So the code is empty only when the reply itself is. */
  function CrewCode(raw: string, decode: string -> Decoded): (c: string)
    ensures c == raw || (ExtractCode(raw, decode) == Some(c) && c != [] && Strip(c) == c)
    ensures ExtractCode(raw, decode).None? ==> c == raw
    ensures ExtractCode(raw, decode) == Some(c) || c == raw
    ensures c == [] ==> raw == []
  {
    match ExtractCode(raw, decode)
    case Some(code) => if code == [] then raw else code
    case None => raw
  }

  /** `_process_crew_result`: a test named after the scenario's feature,
      holding the kept code, counted as one test and marked valid exactly
      when the code compiles. A compiler error other than `SyntaxError`
      escapes the validator and the handler turns it into no test at all. */
  function ProcessCrewResult(raw: string, scenario: string, decode: string -> Decoded,
                             compile: string -> Compiled): (r: Option<GeneratedTest>)
    ensures r.None? <==> compile(CrewCode(raw, decode)) == CompileRaised
    ensures r.Some? ==> r.value.content == CrewCode(raw, decode)
    ensures r.Some? ==> r.value.filename == TestFilename(FeatureName(scenario))
    ensures r.Some? ==> r.value.testCount == 1 && r.value.reviewNotes == [GeneratorNote]
    ensures r.Some? ==> (r.value.isValid <==> compile(r.value.content) == Compiles)
  {
    var code := CrewCode(raw, decode);
    var filename := TestFilename(FeatureName(scenario));
    match compile(code)
    case CompileRaised => None
    case outcome => Some(GeneratedTest(filename, code, 1, outcome == Compiles, [GeneratorNote]))
  }

  /** A reply opening with a fenced JSON object whose `final_code` is a
      string that is not blank gives a test holding that code, unescaped
      and stripped. */
  lemma FencedReplyBecomesTest(ws: string, body: string, rest: string, scenario: string,
                               decode: string -> Decoded, compile: string -> Compiled, v: string)
    requires AllIn(ws, 0, |ws|, IsSpace)
    requires |body| >= 2 && body[0] == '{' && body[|body| - 1] == '}' && NoTick(body)
    requires FieldOf(decode(body)) == Some(JString(v))
    requires Strip(UnescapeFenced(v)) != []
    requires compile(Strip(UnescapeFenced(v))) != CompileRaised
    ensures var r := ProcessCrewResult(JsonOpen + ws + body + "\n" + Fence + rest, scenario, decode, compile);
      r.Some? && r.value.content == Strip(UnescapeFenced(v))
      && r.value.filename == TestFilename(FeatureName(scenario))
  {
    FencedJsonWins(ws, body, rest, decode, v);
  }

  // ---------------------------------------------------------------------
  // _save_generated_files
  // ---------------------------------------------------------------------

  /** `_save_generated_files` as the test record allows it: the output
      directory is created, the main file is written there, and its path is
      the one path reported. The file holds the test's content unless the
      write failed, in which case no file changed. */
  function SaveGeneratedFiles(fs: Fs, c: Crew, test: GeneratedTest): (r: (Fs, seq<string>))
    ensures r.1 == [OsJoin(c.outputDir, test.filename)]
    ensures ReadFile(r.0, c.cwd, r.1[0]) == Some(Universal(test.content)) || r.0.files == fs.files
    ensures IsPart(test.filename) && SaveTargetFree(fs, c.cwd, OsJoin(c.outputDir, test.filename)) ==>
      ReadFile(r.0, c.cwd, r.1[0]) == Some(Universal(test.content))
  {
    var made := EnsureDirectory(fs, Resolved(c.cwd, "."), c.outputDir).0;
    var saved := SaveGeneratedTest(made, c.cwd, c.outputDir, test.filename, test.content);
    assert IsPart(test.filename) && SaveTargetFree(fs, c.cwd, OsJoin(c.outputDir, test.filename))
      ==> SaveTargetFree(made, c.cwd, OsJoin(c.outputDir, test.filename)) by {
      DefaultBaseIsCwd(c.cwd);
      if IsPart(test.filename) && SaveTargetFree(fs, c.cwd, OsJoin(c.outputDir, test.filename)) {
        DirectoryKeepsTargetFree(fs, c.cwd, c.outputDir, test.filename);
      }
    }
    assert made.files == fs.files;
    (saved.0, [saved.1])
  }

  /** The message pydantic gives when code reads a field the model does
      not declare. */
  const PageObjectMissing: string := "'GeneratedTest' object has no attribute 'page_object_content'"

  /** The paths `_save_generated_files` reports, or the exception it raises. */
  datatype Saved = Saved(paths: seq<string>) | SaveRaised(message: string)

  /** What `_save_generated_files` does as written: it writes the main file
      and then reads `page_object_content`, a field `GeneratedTest` does not
      have, which raises. The files written so far stay written. */
  function SaveGeneratedFilesAsWritten(fs: Fs, c: Crew, test: GeneratedTest): (r: (Fs, Saved))
    ensures r.0 == SaveGeneratedFiles(fs, c, test).0
    ensures r.1 == SaveRaised(PageObjectMissing)
  {
    var saved := SaveGeneratedFiles(fs, c, test);
    (saved.0, SaveRaised(PageObjectMissing))
  }

  // ---------------------------------------------------------------------
  // generate_tests
  // ---------------------------------------------------------------------

  /** The record `generate_tests` starts from. */
  function Inline(): (w: WorkflowResult)
    ensures w.inputFile == "inline" && w.scenariosCount == 1
    ensures w.success && w.generatedTests == [] && w.prMetadata == None && w.errors == []
  {
    NewWorkflowResult("inline", 1)
  }

  /** The part of `generate_tests` after a test came out of the reply: the
      test is saved and recorded, and the run succeeds; when asked, the
      saved paths are published through the GitHub agent and its record is
      kept, whatever it says. An exception while the agent's task or crew
      is built escapes to the outer handler: the run then fails with its
      message, keeping the recorded test and no metadata. */
  function AfterTest(fs: Fs, c: Crew, scenario: string, test: GeneratedTest,
                     push: bool, base: string, w: World): (r: Run)
    ensures !StartFails(push, w) ==>
      r.result == Inline().(generatedTests := [test], prMetadata := r.result.prMetadata)
    ensures StartFails(push, w) ==>
      r == Run(Inline().(success := false, generatedTests := [test], errors := [w.agentStart.value]),
               SaveGeneratedFiles(fs, c, test).0, [])
    ensures r.fs == SaveGeneratedFiles(fs, c, test).0
    ensures !push ==> r.result.prMetadata == None && r.steps == []
    ensures push && w.agentStart.None? ==>
      r.result.prMetadata.Some? && r.result.prMetadata.value.files == SaveGeneratedFiles(fs, c, test).1
  {
    var saved := SaveGeneratedFiles(fs, c, test);
    var done := Inline().(generatedTests := [test]);
    if push && w.agentStart.Some? then
      Run(done.(success := false, errors := [w.agentStart.value]), saved.0, [])
    else if push then
      var pr := RunGithubAgent(c.settings, saved.1, FeatureName(scenario), base,
                               w.agent, w.clock, w.repo, w.gh);
      Run(done.(prMetadata := Some(pr.0)), saved.0, pr.1)
    else Run(done, saved.0, [])
  }

  /** `generate_tests`, with the secondary-file read removed. The run fails
      with the crew's exception, or with the fixed message when no test
      came out of the reply, and then nothing is written or published.
      Otherwise the test is saved and recorded; the outcome of publishing
      never changes the run's success, except that an exception while the
      agent's task or crew is built fails the run after the test is
      recorded. */
  function GenerateTests(fs: Fs, c: Crew, scenario: string, crew: CrewOutcome,
                         decode: string -> Decoded, compile: string -> Compiled,
                         push: bool, base: string, w: World): (r: Run)
    ensures r.result.inputFile == "inline" && r.result.scenariosCount == 1
    ensures r.result.warnings == []
    ensures crew.CrewRaised? ==>
      r == Run(Inline().(success := false, errors := [crew.message]), fs, [])
    ensures crew.CrewSaid? && ProcessCrewResult(crew.text, scenario, decode, compile).None? ==>
      r == Run(Inline().(success := false, errors := [NoTestCode]), fs, [])
    ensures crew.CrewSaid? && ProcessCrewResult(crew.text, scenario, decode, compile).Some? ==>
      var test := ProcessCrewResult(crew.text, scenario, decode, compile).value;
      r.result.generatedTests == [test] && r.fs == SaveGeneratedFiles(fs, c, test).0
      && r.result.errors == (if StartFails(push, w) then [w.agentStart.value] else [])
    ensures r.result.success <==>
      crew.CrewSaid? && ProcessCrewResult(crew.text, scenario, decode, compile).Some?
      && !StartFails(push, w)
    ensures !r.result.success && !StartFails(push, w) ==>
      r.fs == fs && r.steps == [] && r.result.prMetadata == None
      && r.result.generatedTests == [] && |r.result.errors| == 1
  {
    match crew
    case CrewRaised(message) => Run(Inline().(success := false, errors := [message]), fs, [])
    case CrewSaid(text) =>
      match ProcessCrewResult(text, scenario, decode, compile)
      case None => Run(Inline().(success := false, errors := [NoTestCode]), fs, [])
      case Some(test) => AfterTest(fs, c, scenario, test, push, base, w)
  }

  /** When publishing is requested, the record is the one the GitHub agent
      step returns for the saved path, the scenario's feature and the base
      branch. */
  lemma PublishesSavedTest(fs: Fs, c: Crew, scenario: string, text: string,
                           decode: string -> Decoded, compile: string -> Compiled,
                           base: string, w: World)
    requires ProcessCrewResult(text, scenario, decode, compile).Some?
    requires w.agentStart.None?
    ensures var test := ProcessCrewResult(text, scenario, decode, compile).value;
      var path := OsJoin(c.outputDir, test.filename);
      var pr := RunGithubAgent(c.settings, [path], FeatureName(scenario), base,
                               w.agent, w.clock, w.repo, w.gh);
      var r := GenerateTests(fs, c, scenario, CrewSaid(text), decode, compile, true, base, w);
      r.result.prMetadata == Some(pr.0) && r.steps == pr.1
  {
  }

  /** Success depends on the crew alone once the agent has started:
      publishing or not, and whatever the repository, the agent and `gh`
      do, the run succeeds or fails alike. The recorded tests and the test
      file never depend on publishing. */
  lemma SuccessIgnoresPublishing(fs: Fs, c: Crew, scenario: string, crew: CrewOutcome,
                                 decode: string -> Decoded, compile: string -> Compiled,
                                 push: bool, base: string, w: World,
                                 push': bool, base': string, w': World)
    ensures var r := GenerateTests(fs, c, scenario, crew, decode, compile, push, base, w);
      var r' := GenerateTests(fs, c, scenario, crew, decode, compile, push', base', w');
      r.fs == r'.fs && r.result.generatedTests == r'.result.generatedTests
      && (!StartFails(push, w) && !StartFails(push', w') ==>
            r.result.success == r'.result.success && r.result.errors == r'.result.errors)
  {
  }

  /** A test was produced and publishing was asked for, but building the
      agent's task or crew raised: the run fails with that message, yet the
      test stays recorded and written, and no pull request is attempted. */
  lemma AgentStartFailureKeepsTest(fs: Fs, c: Crew, scenario: string, text: string,
                                   decode: string -> Decoded, compile: string -> Compiled,
                                   base: string, w: World, msg: string)
    requires ProcessCrewResult(text, scenario, decode, compile).Some?
    requires w.agentStart == Some(msg)
    ensures var test := ProcessCrewResult(text, scenario, decode, compile).value;
      var r := GenerateTests(fs, c, scenario, CrewSaid(text), decode, compile, true, base, w);
      !r.result.success && r.result.errors == [msg] && r.result.generatedTests == [test]
      && r.result.prMetadata == None && r.steps == [] && r.fs == SaveGeneratedFiles(fs, c, test).0
  {
  }

  /** `generate_tests` as written: once a test exists, saving it raises
      after the main file is written, the handler records the exception's
      text, and the test is neither recorded nor published. */
  function GenerateTestsAsWritten(fs: Fs, c: Crew, scenario: string, crew: CrewOutcome,
                                  decode: string -> Decoded, compile: string -> Compiled,
                                  push: bool, base: string, w: World): (r: Run)
    ensures crew.CrewRaised? || ProcessCrewResult(crew.text, scenario, decode, compile).None? ==>
      r == GenerateTests(fs, c, scenario, crew, decode, compile, push, base, w)
    ensures crew.CrewSaid? && ProcessCrewResult(crew.text, scenario, decode, compile).Some? ==>
      r.result == Inline().(success := false, errors := [PageObjectMissing]) && r.steps == []
      && r.fs == GenerateTests(fs, c, scenario, crew, decode, compile, push, base, w).fs
  {
    match crew
    case CrewRaised(_) => GenerateTests(fs, c, scenario, crew, decode, compile, push, base, w)
    case CrewSaid(text) =>
      match ProcessCrewResult(text, scenario, decode, compile)
      case None => GenerateTests(fs, c, scenario, crew, decode, compile, push, base, w)
      case Some(test) =>
        var saved := SaveGeneratedFilesAsWritten(fs, c, test);
        Run(Inline().(success := false, errors := [saved.1.message]), saved.0, [])
  }

  /** As written, no run succeeds and none opens a pull request, even when
      the crew produced a test; the intended workflow succeeds then, unless
      the agent fails to start. */
  lemma AsWrittenNeverSucceeds(fs: Fs, c: Crew, scenario: string, crew: CrewOutcome,
                               decode: string -> Decoded, compile: string -> Compiled,
                               push: bool, base: string, w: World)
    ensures var r := GenerateTestsAsWritten(fs, c, scenario, crew, decode, compile, push, base, w);
      !r.result.success && r.result.prMetadata == None && r.steps == []
    ensures (crew.CrewSaid? && ProcessCrewResult(crew.text, scenario, decode, compile).Some?
             && !StartFails(push, w)) ==>
      GenerateTests(fs, c, scenario, crew, decode, compile, push, base, w).result.success
  {
  }

  // ---------------------------------------------------------------------
  // generate_from_file
  // ---------------------------------------------------------------------

  /** `generate_from_file`: an unreadable scenario file gives a failed
      record naming it with no scenarios; otherwise the run is the one on
      the file's text, with the file named as input. */
  function GenerateFromFile(fs: Fs, c: Crew, inputFile: string, crew: CrewOutcome,
                            decode: string -> Decoded, compile: string -> Compiled,
                            push: bool, base: string, w: World): (r: Run)
    ensures r.result.inputFile == inputFile
    ensures ReadFile(fs, c.cwd, inputFile).None? ==>
      r == Run(WorkflowResult(inputFile, 0, [], None, false, [UnreadableFile + inputFile], []), fs, [])
    ensures ReadFile(fs, c.cwd, inputFile).Some? ==> (
      var inline := GenerateTests(fs, c, ReadFile(fs, c.cwd, inputFile).value, crew, decode, compile, push, base, w);
      r.result == inline.result.(inputFile := inputFile) && r.fs == inline.fs && r.steps == inline.steps)
  {
    match ReadFile(fs, c.cwd, inputFile)
    case None => Run(WorkflowResult(inputFile, 0, [], None, false, [UnreadableFile + inputFile], []), fs, [])
    case Some(scenario) =>
      var inline := GenerateTests(fs, c, scenario, crew, decode, compile, push, base, w);
      inline.(result := inline.result.(inputFile := inputFile))
  }

  /** A scenario file whose `Feature:` line ends in a lone `\r` is read
      with a `\n` there, so the feature is the name on that line: for
      `Feature: A\rScenario: B\n` it is `A`. */
  lemma ScenarioLineEndsTranslated(fs: Fs, c: Crew, inputFile: string, name: string, rest: string)
    requires |name| > 0 && NotSpace(name[0]) && NotSpace(name[|name| - 1])
    requires '\n' !in name && '\r' !in name && !(|rest| > 0 && rest[0] == '\n')
    requires ReadAt(fs, Resolve(c.cwd, inputFile)) == Some(FeatureTag + " " + name + "\r" + rest)
    ensures ReadFile(fs, c.cwd, inputFile) == Some(FeatureTag + " " + name + "\n" + Universal(rest))
    ensures FeatureName(ReadFile(fs, c.cwd, inputFile).value) == name
  {
    var head := FeatureTag + " " + name;
    assert ReadFile(fs, c.cwd, inputFile) == Some(head + "\n" + Universal(rest)) by {
      assert '\r' !in head by {
        assert forall k :: 0 <= k < |name| ==> head[9 + k] == name[k];
      }
      UniversalCr(head, rest);
    }
    FeatureNameOfHeader(name, Universal(rest));
  }
}
