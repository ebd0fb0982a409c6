/** The records of the test generator: parsed scenarios, generated test
    files, pull-request metadata and the workflow result, with the field
    defaults their declarations give, and the two name normalisers of a
    parsed scenario. */
module Schemas {
  import opened Text
  import opened Pieces

  /** The kinds of scenario step, each with its string value. */
  datatype StepType = Given | When | Then | And | But

  function StepValue(t: StepType): string {
    match t
    case Given => "given"
    case When => "when"
    case Then => "then"
    case And => "and"
    case But => "but"
  }

  /** Enum lookup by value, as validation of a `step_type` field does. */
  function ParseStepType(s: string): (r: Option<StepType>)
    ensures r.Some? ==> StepValue(r.value) == s
    ensures r.None? ==> forall t: StepType :: StepValue(t) != s
  {
    if s == "given" then Some(Given)
    else if s == "when" then Some(When)
    else if s == "then" then Some(Then)
    else if s == "and" then Some(And)
    else if s == "but" then Some(But)
    else None
  }

  lemma StepTypeRoundTrip(t: StepType)
    ensures ParseStepType(StepValue(t)) == Some(t)
  {
  }

  datatype TestStep = TestStep(
    stepType: StepType,
    description: string,
    action: Option<string>,
    target: Option<string>,
    value: Option<string>)

  datatype ParsedScenario = ParsedScenario(
    featureName: string,
    scenarioName: string,
    description: Option<string>,
    steps: seq<TestStep>,
    tags: seq<string>)

  /** A generated test file. */
  datatype GeneratedTest = GeneratedTest(
    filename: string,
    content: string,
    testCount: int,
    isValid: bool,
    reviewNotes: seq<string>)

  /** A `GeneratedTest` built from its two required fields. */
  function NewGeneratedTest(filename: string, content: string): (t: GeneratedTest)
    ensures t.filename == filename && t.content == content
    ensures t.testCount == 1 && t.isValid && t.reviewNotes == []
  {
    GeneratedTest(filename, content, 1, true, [])
  }

  /** The outcome of publishing a change as a pull request. */
  datatype PRMetadata = PRMetadata(
    branchName: string,
    title: string,
    body: string,
    baseBranch: string,
    files: seq<string>,
    prUrl: Option<string>,
    prNumber: Option<nat>,
    success: bool,
    errorMessage: Option<string>)

  const DefaultBaseBranch: string := "main"

  /** A `PRMetadata` built from its three required fields. */
  function NewPRMetadata(branchName: string, title: string, body: string): (m: PRMetadata)
    ensures m.branchName == branchName && m.title == title && m.body == body
    ensures m.baseBranch == "main" && m.files == []
    ensures m.prUrl == None && m.prNumber == None
    ensures !m.success && m.errorMessage == None
  {
    PRMetadata(branchName, title, body, DefaultBaseBranch, [], None, None, false, None)
  }

  /** The result of one workflow run. */
  datatype WorkflowResult = WorkflowResult(
    inputFile: string,
    scenariosCount: int,
    generatedTests: seq<GeneratedTest>,
    prMetadata: Option<PRMetadata>,
    success: bool,
    errors: seq<string>,
    warnings: seq<string>)

  /** A `WorkflowResult` built from its two required fields. */
  function NewWorkflowResult(inputFile: string, scenariosCount: int): (w: WorkflowResult)
    ensures w.inputFile == inputFile && w.scenariosCount == scenariosCount
    ensures w.success && w.generatedTests == [] && w.prMetadata == None
    ensures w.errors == [] && w.warnings == []
  {
    WorkflowResult(inputFile, scenariosCount, [], None, true, [], [])
  }

  predicate IsIdentChar(c: char) { IsAlnum(c) || c == '_' }

  function SpaceToUnderscore(c: char): char { if c == ' ' then '_' else c }

  /** The part of `to_test_name` after `test_`: lower-case, spaces to
      underscores, then only alphanumerics and underscores kept. */
  function TestNameBody(name: string): string {
    Filter(MapSeq(SpaceToUnderscore, Lower(name)), IsIdentChar)
  }

  lemma TestNameBodyCons(name: string)
    requires |name| > 0
    ensures var c := SpaceToUnderscore(ToLower(name[0]));
      TestNameBody(name) == (if IsIdentChar(c) then [c] else []) + TestNameBody(name[1..])
  {
    var u := MapSeq(SpaceToUnderscore, Lower(name));
    assert u[1..] == MapSeq(SpaceToUnderscore, Lower(name[1..]));
  }

  /** `ParsedScenario.to_test_name`: `test_` and a body of lower-case
      alphanumerics and underscores, with one underscore for every space or
      underscore of the scenario name, and, underscores aside, exactly the
      name's alphanumerics lower-cased. */
  function ToTestName(sc: ParsedScenario): (r: string)
    ensures |r| >= 5 && r[..5] == "test_"
    ensures forall i :: 5 <= i < |r| ==> IsLowerAlnum(r[i]) || r[i] == '_'
    ensures Count(r[5..], '_') == Count(sc.scenarioName, ' ') + Count(sc.scenarioName, '_')
    ensures Filter(r[5..], NotUnderscore) == Filter(Lower(sc.scenarioName), IsAlnum)
  {
    var body := TestNameBody(sc.scenarioName);
    TestNameBodyChars(sc.scenarioName);
    TestNameBodyCount(sc.scenarioName);
    TestNameBodyLetters(sc.scenarioName);
    var r := "test_" + body;
    assert r[5..] == body;
    r
  }

  lemma {:induction false} TestNameBodyChars(name: string)
    ensures var b := TestNameBody(name);
      forall i :: 0 <= i < |b| ==> IsLowerAlnum(b[i]) || b[i] == '_'
    decreases |name|
  {
    if name != [] {
      TestNameBodyCons(name);
      TestNameBodyChars(name[1..]);
      LowerKeepsAlnum(name[0]);
    }
  }

  lemma {:induction false} TestNameBodyCount(name: string)
    ensures Count(TestNameBody(name), '_') == Count(name, ' ') + Count(name, '_')
    decreases |name|
  {
    if name != [] {
      TestNameBodyCons(name);
      TestNameBodyCount(name[1..]);
      CountStep(name, TestNameBody(name), TestNameBody(name[1..]));
    }
  }

  /** One step of `TestNameBodyCount`: a body made of the first character's
      contribution and a rest with the right count has the right count. */
  lemma CountStep(name: string, body: string, rest: string)
    requires name != []
    requires var c := SpaceToUnderscore(ToLower(name[0]));
      body == (if IsIdentChar(c) then [c] else []) + rest
    requires Count(rest, '_') == Count(name[1..], ' ') + Count(name[1..], '_')
    ensures Count(body, '_') == Count(name, ' ') + Count(name, '_')
  {
    var c := SpaceToUnderscore(ToLower(name[0]));
    var head: string := if IsIdentChar(c) then [c] else [];
    assert Count(body, '_') == Count(head, '_') + Count(rest, '_') by {
      CountAppend(head, rest, '_');
    }
    HeadUnderscores(name[0]);
    assert Count(name, ' ') == Count([name[0]], ' ') + Count(name[1..], ' ') by {
      assert name == [name[0]] + name[1..];
      CountAppend([name[0]], name[1..], ' ');
    }
    assert Count(name, '_') == Count([name[0]], '_') + Count(name[1..], '_') by {
      assert name == [name[0]] + name[1..];
      CountAppend([name[0]], name[1..], '_');
    }
    RegroupCounts(Count(body, '_'), Count(head, '_'), Count(rest, '_'),
      Count(name, ' '), Count([name[0]], ' '), Count(name[1..], ' '),
      Count(name, '_'), Count([name[0]], '_'), Count(name[1..], '_'));
  }

  /** The sum of the head and tail counts, regrouped by character. */
  lemma RegroupCounts(total: int, head: int, rest: int, n: int, p: int, np: int, m: int, q: int, mq: int)
    requires total == head + rest && head == p + q && rest == np + mq
    requires n == p + np && m == q + mq
    ensures total == n + m
  {
  }

  /** One character of a scenario name gives an underscore exactly when it
      is a space or an underscore. */
  lemma HeadUnderscores(x: char)
    ensures var c := SpaceToUnderscore(ToLower(x));
      Count(if IsIdentChar(c) then [c] else [], '_') == Count([x], ' ') + Count([x], '_')
  {
    var c := SpaceToUnderscore(ToLower(x));
    assert c == '_' <==> x == ' ' || x == '_';
  }

  lemma {:induction false} TestNameBodyLetters(name: string)
    ensures Filter(TestNameBody(name), NotUnderscore) == Filter(Lower(name), IsAlnum)
    decreases |name|
  {
    if name != [] {
      TestNameBodyCons(name);
      TestNameBodyLetters(name[1..]);
      LowerKeepsAlnum(name[0]);
      LowerCons(name);
      var c := SpaceToUnderscore(ToLower(name[0]));
      var head: string := if IsIdentChar(c) then [c] else [];
      FilterAppend(head, TestNameBody(name[1..]), NotUnderscore);
      assert Lower(name)[1..] == Lower(name[1..]);
    }
  }

  /** The body is computed character by character, so it splits over a
      concatenation. */
  lemma {:induction false} TestNameBodyAppend(a: string, b: string)
    ensures TestNameBody(a + b) == TestNameBody(a) + TestNameBody(b)
    decreases |a|
  {
    if a == [] {
      assert a + b == b;
    } else {
      assert (a + b)[1..] == a[1..] + b;
      TestNameBodyCons(a + b);
      TestNameBodyCons(a);
      TestNameBodyAppend(a[1..], b);
    }
  }

  /** An alphanumeric word passes into the body lower-cased and whole. */
  lemma {:induction false} TestNameBodyAlnum(w: string)
    requires forall k :: 0 <= k < |w| ==> IsAlnum(w[k])
    ensures TestNameBody(w) == Lower(w)
    decreases |w|
  {
    if w != [] {
      TestNameBodyCons(w);
      LowerKeepsAlnum(w[0]);
      LowerCons(w);
      TestNameBodyAlnum(w[1..]);
    }
  }

  /** Alphanumeric words separated by single spaces give the lower-cased
      words joined by single underscores. */
  lemma {:induction false} TestNameBodyJoin(ws: seq<string>)
    requires AlnumWords(ws)
    ensures TestNameBody(Join(ws, " ")) == Join(MapSeq(Lower, ws), "_")
    decreases |ws|
  {
    if |ws| == 1 {
      TestNameBodyAlnum(ws[0]);
    } else if |ws| > 1 {
      var rest := Join(ws[1..], " ");
      assert MapSeq(Lower, ws)[1..] == MapSeq(Lower, ws[1..]);
      assert TestNameBody(" ") == "_" by {
        TestNameBodyCons(" ");
      }
      TestNameBodyAppend(ws[0] + " ", rest);
      TestNameBodyAppend(ws[0], " ");
      TestNameBodyAlnum(ws[0]);
      TestNameBodyJoin(ws[1..]);
    }
  }

  /** For a scenario name made of alphanumeric words separated by single
      spaces, the test name is `test_` followed by the lower-cased words
      joined by single underscores: `User logs in` becomes
      `test_user_logs_in`. */
  lemma TestNameOfWords(sc: ParsedScenario, ws: seq<string>)
    requires sc.scenarioName == Join(ws, " ") && AlnumWords(ws)
    ensures ToTestName(sc) == "test_" + Join(MapSeq(Lower, ws), "_")
  {
    TestNameBodyJoin(ws);
  }

  /** `ParsedScenario(scenario_name="User logs in").to_test_name()` is
      `test_user_logs_in`. */
  lemma UserLogsInTestName(sc: ParsedScenario)
    requires sc.scenarioName == "User logs in"
    ensures ToTestName(sc) == "test_user_logs_in"
  {
    var ws := ["User", "logs", "in"];
    assert sc.scenarioName == Join(ws, " ") && AlnumWords(ws) by {
      UserLogsInWords(ws);
    }
    TestNameOfWords(sc, ws);
    assert "test_" + Join(MapSeq(Lower, ws), "_") == "test_user_logs_in" by {
      UserLogsInWords(ws);
      UserLogsInPrefixed(Join(MapSeq(Lower, ws), "_"));
    }
  }

  lemma UserLogsInPrefixed(body: string)
    requires body == "user_logs_in"
    ensures "test_" + body == "test_user_logs_in"
  {
  }

  lemma UserLogsInWords(ws: seq<string>)
    requires ws == ["User", "logs", "in"]
    ensures Join(ws, " ") == "User logs in" && AlnumWords(ws)
    ensures Join(MapSeq(Lower, ws), "_") == "user_logs_in"
  {
    assert ws[1..] == ["logs", "in"] && ws[1..][1..] == ["in"];
    assert Join(ws[1..], " ") == "logs" + " " + "in";
    assert Join(ws, " ") == "User" + " " + ("logs" + " " + "in");
    UserLogsInLowered(ws, MapSeq(Lower, ws));
  }

  lemma UserLogsInLowered(ws: seq<string>, lws: seq<string>)
    requires ws == ["User", "logs", "in"] && lws == MapSeq(Lower, ws)
    ensures Join(lws, "_") == "user_logs_in"
  {
    assert Lower("User") == "user";
    assert Lower("logs") == "logs";
    assert Lower("in") == "in";
    assert lws == ["user", "logs", "in"];
    assert lws[1..] == ["logs", "in"] && lws[1..][1..] == ["in"];
    assert Join(lws[1..], "_") == "logs" + "_" + "in";
    assert Join(lws, "_") == "user" + "_" + ("logs" + "_" + "in");
  }

  /** The part of `to_class_name` after `Test`: the capitalised
      whitespace-separated words, concatenated, alphanumerics only. */
  function ClassNameBody(name: string): string {
    Filter(Concat(MapSeq(Capitalize, Words(name))), IsAlnum)
  }

  /** `ParsedScenario.to_class_name`: `Test` and a body of alphanumerics
      only (so no whitespace), which, ignoring case, is exactly the feature
      name's alphanumerics. */
  function ToClassName(sc: ParsedScenario): (r: string)
    ensures |r| >= 4 && r[..4] == "Test"
    ensures forall i :: 4 <= i < |r| ==> IsAlnum(r[i]) && !IsSpace(r[i])
    ensures Lower(r[4..]) == Filter(Lower(sc.featureName), IsAlnum)
  {
    var name := sc.featureName;
    var body := ClassNameBody(name);
    var r := "Test" + body;
    assert r[4..] == body;
    calc {
      Lower(body);
      { LowerFilterAlnum(Concat(MapSeq(Capitalize, Words(name)))); }
      Filter(Lower(Concat(MapSeq(Capitalize, Words(name)))), IsAlnum);
      { LowerConcatCapitalize(Words(name)); }
      Filter(Lower(Concat(Words(name))), IsAlnum);
      { WordsConcat(name); }
      Filter(Lower(Filter(name, NotSpace)), IsAlnum);
      { LowerFilterNotSpace(name); }
      Filter(Filter(Lower(name), NotSpace), IsAlnum);
      { FilterNotSpaceThenAlnum(Lower(name)); }
      Filter(Lower(name), IsAlnum);
    }
    r
  }

  /** For a feature name made of alphanumeric words separated by single
      spaces, the class name is `Test` followed by each word capitalised:
      `"login page"` becomes `TestLoginPage`. */
  lemma ClassNameOfWords(sc: ParsedScenario, ws: seq<string>)
    requires sc.featureName == Join(ws, " ") && AlnumWords(ws)
    ensures ToClassName(sc) == "Test" + Concat(MapSeq(Capitalize, ws))
  {
    assert forall i :: 0 <= i < |ws| ==> IsWord(ws[i]);
    WordsOfJoin(ws);
    CapitalizedKept(ws);
  }

  /** Capitalised alphanumeric words survive the alphanumeric filter whole. */
  lemma {:induction false} CapitalizedKept(ws: seq<string>)
    requires AlnumWords(ws)
    ensures Filter(Concat(MapSeq(Capitalize, ws)), IsAlnum) == Concat(MapSeq(Capitalize, ws))
    decreases |ws|
  {
    if ws != [] {
      var m := MapSeq(Capitalize, ws);
      assert m[1..] == MapSeq(Capitalize, ws[1..]);
      CapitalizedKept(ws[1..]);
      FilterAll(m[0], IsAlnum);
      FilterAppend(m[0], Concat(m[1..]), IsAlnum);
    }
  }

  /** `ParsedScenario(feature_name="login page").to_class_name()` is
      `TestLoginPage`. */
  lemma LoginPageClassName(sc: ParsedScenario)
    requires sc.featureName == "login page"
    ensures ToClassName(sc) == "TestLoginPage"
  {
    var ws := ["login", "page"];
    assert sc.featureName == Join(ws, " ") && AlnumWords(ws) by {
      assert Join(ws, " ") == "login page";
    }
    ClassNameOfWords(sc, ws);
    assert "Test" + Concat(MapSeq(Capitalize, ws)) == "TestLoginPage" by {
      LoginPageWords(ws);
      LoginPagePrefixed(Concat(MapSeq(Capitalize, ws)));
    }
  }

  lemma LoginPagePrefixed(body: string)
    requires body == "LoginPage"
    ensures "Test" + body == "TestLoginPage"
  {
  }

  lemma LoginPageWords(ws: seq<string>)
    requires ws == ["login", "page"]
    ensures Concat(MapSeq(Capitalize, ws)) == "LoginPage"
  {
    assert Capitalize("login") == "Login" by {
      assert Lower("ogin") == "ogin";
    }
    assert Capitalize("page") == "Page" by {
      assert Lower("age") == "age";
    }
    assert MapSeq(Capitalize, ws) == ["Login", "Page"];
    assert Concat(["Login", "Page"]) == "Login" + Concat(["Page"]);
  }
}
