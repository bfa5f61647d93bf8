/**
 * What the parser's state machine guarantees about whole lines and whole
 * documents: how the driver treats blank lines, comments and language
 * pragmas, what each kind of line does to the document in each state, and how
 * the line counter follows the input.
 */
module MachineLaws {
  import opened Wrappers
  import opened Text
  import opened Errors
  import opened Document
  import opened Detectors
  import opened Machine

  // ---------------------------------------------------------------------------
  // The driver

  /** A blank line only advances the line counter. */
  lemma FeedBlankLine(env: Env, c: Config, raw: string)
    requires Inv(c) && Strip(raw) == []
    ensures Feed(env, c, raw) == Ok(c.(line := c.line + 1))
  {
  }

  /** A comment is never given to a handler: at most it switches the keywords, or fails to. */
  lemma FeedCommentLine(env: Env, c: Config, raw: string)
    requires Inv(c) && StartsWith(Strip(raw), "#")
    ensures Feed(env, c, raw).Ok? ==> Feed(env, c, raw).value == c.(line := c.line + 1, keywords := Feed(env, c, raw).value.keywords)
    ensures Feed(env, c, raw).Err? ==> Feed(env, c, raw).error.LanguageNotSupported?
  {
  }

  /** A language pragma switches to the keywords of that language, or fails when the language is unknown. */
  lemma FeedLanguagePragma(env: Env, c: Config, code: string)
    requires Inv(c) && code != [] && Stripped(LanguagePragma + code)
    ensures code in env.languages ==>
      Feed(env, c, LanguagePragma + code) == Ok(c.(line := c.line + 1, keywords := env.languages[code]))
    ensures code !in env.languages ==>
      Feed(env, c, LanguagePragma + code) == Err(LanguageNotSupported(code))
  {
    var line := LanguagePragma + code;
    assert line[..|LanguagePragma|] == LanguagePragma;
    assert line[..1] == "#";
    assert line[|LanguagePragma|..] == code;
  }

  /** Once there is a feature, a line with a feature header fails, whatever the state. */
  lemma FeedSecondFeature(env: Env, c: Config, raw: string)
    requires Inv(c) && c.feature.Some?
    requires !StartsWith(Strip(raw), "#") && Truthy(DetectFeature(c.keywords, Strip(raw)))
    ensures Feed(env, c, raw) == Err(MultipleFeatures)
  {
  }

  /** A line the handler refuses fails as a syntax error at that line's number. */
  lemma FeedRefusedLine(env: Env, c: Config, raw: string)
    requires Inv(c) && Strip(raw) != [] && !StartsWith(Strip(raw), "#")
    requires !(c.feature.Some? && Truthy(DetectFeature(c.keywords, Strip(raw))))
    requires Dispatch(env, c.(line := c.line + 1), Strip(raw)).Rejected?
    ensures Feed(env, c, raw) == Err(SyntaxError(env.path, c.line + 1))
    ensures c.state.AtFeature?
  {
  }

  /** Every line, including blank lines and comments, advances the line counter by one. */
  lemma {:induction false} RunCountsEveryLine(env: Env, c: Config, lines: seq<string>)
    requires Inv(c)
    ensures Run(env, c, lines).Ok? ==> Run(env, c, lines).value.line == c.line + |lines|
    decreases |lines|
  {
    if lines != [] {
      match Feed(env, c, lines[0])
      case Ok(c') => RunCountsEveryLine(env, c', lines[1..]);
      case Err(_) =>
    }
  }

  /** Parsing two pieces of a document one after the other is parsing the whole. */
  lemma {:induction false} RunConcat(env: Env, c: Config, a: seq<string>, b: seq<string>)
    requires Inv(c)
    ensures Run(env, c, a + b) == match Run(env, c, a)
      case Ok(c') => Run(env, c', b)
      case Err(e) => Err(e)
    decreases |a|
  {
    if a == [] {
      assert a + b == b;
    } else {
      assert (a + b)[0] == a[0];
      assert (a + b)[1..] == a[1..] + b;
      match Feed(env, c, a[0])
      case Ok(c') => RunConcat(env, c', a[1..], b);
      case Err(_) =>
    }
  }

  /** Blank lines change nothing but the line counter. */
  lemma {:induction false} RunBlankLines(env: Env, c: Config, lines: seq<string>)
    requires Inv(c)
    requires forall i :: 0 <= i < |lines| ==> Strip(lines[i]) == []
    ensures Run(env, c, lines) == Ok(c.(line := c.line + |lines|))
    decreases |lines|
  {
    if lines != [] {
      FeedBlankLine(env, c, lines[0]);
      var c' := c.(line := c.line + 1);
      RunBlankLines(env, c', lines[1..]);
    }
  }

  /** A document of blank lines has no feature, which is an error. */
  lemma BlankDocumentHasNoFeature(env: Env, language: string, lines: seq<string>)
    requires LoadLanguage(env, language).Ok?
    requires forall i :: 0 <= i < |lines| ==> Strip(lines[i]) == []
    ensures ParseDocument(env, language, lines) == Err(NoFeature(env.path))
  {
    RunBlankLines(env, Initial(env.languages[language]), lines);
  }

  /** A feature header as the first line opens the feature on line 1, with no tags or variables. */
  lemma FeedFeatureHeader(env: Env, kw: Keywords, sentence: string)
    requires sentence != [] && Stripped(sentence)
    requires var line := kw.feature + Delimiter + " " + sentence;
      Stripped(line) && line[0] != '#'
    ensures Feed(env, Initial(kw), kw.feature + Delimiter + " " + sentence)
      == Ok(Initial(kw).(line := 1, state := AtScenario,
                         feature := Some(Feature(env.featureId, kw.feature, sentence, env.path, 1, [], [], [], []))))
  {
    var line := kw.feature + Delimiter + " " + sentence;
    DetectHeaderAnySpace(kw.feature, " ", sentence);
    FeedHeaderLine(env, kw, line, sentence);
  }

  /** The step of `FeedFeatureHeader` on any stripped first line whose feature header is known. */
  lemma FeedHeaderLine(env: Env, kw: Keywords, line: string, sentence: string)
    requires sentence != [] && Stripped(line) && line != [] && line[0] != '#'
    requires DetectHeader(kw.feature, line) == Some(sentence)
    ensures Feed(env, Initial(kw), line)
      == Ok(Initial(kw).(line := 1, state := AtScenario,
                         feature := Some(Feature(env.featureId, kw.feature, sentence, env.path, 1, [], [], [], []))))
  {
    var c := Initial(kw);
    assert Strip(line) == line;
    assert !StartsWith(line, "#") by {
      assert line[..1] == [line[0]];
    }
    var c1 := c.(line := 1);
    var f := Feature(env.featureId, kw.feature, sentence, env.path, 1, [], [], [], []);
    var c2 := c1.(feature := Some(f), state := AtScenario);
    FeatureHeaderOpens(env, c1, line);
    assert Dispatch(env, c1, line) == Done(c2);
    assert Route(env, c1, line) == Ok(c2);
    assert Classify(env, c1, line) == Ok(c2);
  }

  /** A document of one feature header parses to a feature with that sentence, on line 1, and nothing else. */
  lemma SingleFeatureHeader(env: Env, language: string, sentence: string)
    requires LoadLanguage(env, language).Ok?
    requires sentence != [] && Stripped(sentence)
    requires var line := env.languages[language].feature + Delimiter + " " + sentence;
      Stripped(line) && line[0] != '#'
    ensures ParseDocument(env, language, [env.languages[language].feature + Delimiter + " " + sentence])
      == Ok(Feature(env.featureId, env.languages[language].feature, sentence, env.path, 1, [], [], [], []))
  {
    var kw := env.languages[language];
    var line := kw.feature + Delimiter + " " + sentence;
    var c := Initial(kw);
    assert Start(env, language) == Ok(c);
    FeedFeatureHeader(env, kw, sentence);
    var f := Feature(env.featureId, kw.feature, sentence, env.path, 1, [], [], [], []);
    var c2 := c.(line := 1, state := AtScenario, feature := Some(f));
    assert [line][1..] == [];
    assert Run(env, c, [line]) == Ok(c2);
  }

  // ---------------------------------------------------------------------------
  // Scenario-family headers

  /**
   * A scenario-family header whose sentence is taken fails and changes
   * nothing; one whose sentence is new appends exactly one scenario, with the
   * next identifier and the buffered tags, preconditions and variables, empties
   * the buffers and moves to the step state.
   */
  lemma ScenarioHeaderAppendsOne(env: Env, c: Config, line: string)
    requires Inv(c) && c.feature.Some? && !c.state.AtStepText?
    requires DetectScenarioFamily(c.keywords, line).Some?
    ensures var h := DetectScenarioFamily(c.keywords, line).value;
      var f := c.feature.value;
      var o := HandleScenario(env, c, line);
      && (HasScenario(f, h.sentence) <==> o.Raised?)
      && (o.Raised? ==> o.error == DuplicateScenario(h.sentence, f.sentence) && Apply(c, o) == c)
      && (o.Done? ==>
            && o.cfg.feature.Some?
            && |o.cfg.feature.value.scenarios| == |f.scenarios| + 1
            && o.cfg.feature.value.scenarios[..|f.scenarios|] == f.scenarios
            && Last(o.cfg.feature.value).id == |f.scenarios| + 1 + (if f.scenarios == [] then 0 else Expansion(Last(f)))
            && Last(o.cfg.feature.value).sentence == h.sentence
            && Last(o.cfg.feature.value).kind == h.kind
            && Last(o.cfg.feature.value).steps == []
            && Last(o.cfg.feature.value).tags == c.tags
            && Last(o.cfg.feature.value).preconditions == c.preconditions
            && Last(o.cfg.feature.value).variables == c.variables
            && o.cfg.feature.value.description == f.description
            && o.cfg.tags == [] && o.cfg.preconditions == [] && o.cfg.variables == []
            && o.cfg.state.AtStep?)
  {
    var f := c.feature.value;
    var h := DetectScenarioFamily(c.keywords, line).value;
    if !HasScenario(f, h.sentence) {
      assert (f.scenarios + [NewScenario(env, c, f, h)])[..|f.scenarios|] == f.scenarios;
    }
  }

  /** `<scenario keyword>: <sentence>` in the scenario state starts a plain scenario with that sentence, unless it is taken. */
  lemma ScenarioLine(env: Env, c: Config, sentence: string)
    requires Inv(c) && c.state.AtScenario?
    requires sentence != [] && Stripped(sentence)
    ensures var f := c.feature.value;
      var o := HandleScenario(env, c, c.keywords.scenario + Delimiter + " " + sentence);
      && (HasScenario(f, sentence) ==> o == Raised(DuplicateScenario(sentence, f.sentence)))
      && (!HasScenario(f, sentence) ==>
            o == Done(c.(feature := Some(f.(scenarios := f.scenarios + [
                    Scenario(NextScenarioId(f.scenarios), c.keywords.scenario, sentence, env.path, c.line,
                             c.tags, c.preconditions, c.variables, [], Plain)])),
                  tags := [], preconditions := [], variables := [], state := AtStep)))
  {
    DetectHeaderAnySpace(c.keywords.scenario, " ", sentence);
  }

  /**
   * `<loop keyword> <n>:<rest>`, when it is neither a scenario nor an outline
   * header, starts a loop of `n` iterations whose sentence is the rest
   * stripped, unless that sentence is taken.
   */
  lemma LoopLine(env: Env, c: Config, n: nat, rest: string)
    requires Inv(c) && c.state.AtScenario?
    requires var line := c.keywords.scenarioLoop + " " + NatToString(n) + Delimiter + rest;
      !Truthy(DetectScenario(c.keywords, line)) && !Truthy(DetectScenarioOutline(c.keywords, line))
    requires !HasScenario(c.feature.value, Strip(rest))
    ensures var f := c.feature.value;
      var o := HandleScenario(env, c, c.keywords.scenarioLoop + " " + NatToString(n) + Delimiter + rest);
      o == Done(c.(feature := Some(f.(scenarios := f.scenarios + [
              Scenario(NextScenarioId(f.scenarios), c.keywords.scenarioLoop, Strip(rest), env.path, c.line,
                       c.tags, c.preconditions, c.variables, [], Loop(c.keywords.iterations, n))])),
            tags := [], preconditions := [], variables := [], state := AtStep))
  {
    DetectScenarioLoopRoundTrip(c.keywords, NatToString(n), rest);
    NatToStringRoundTrip(n);
  }

  /** In the scenario state a line that is neither a header nor a tag becomes feature description. */
  lemma DescriptionLine(env: Env, c: Config, line: string)
    requires Inv(c) && c.state.AtScenario?
    requires DetectScenarioFamily(c.keywords, line).None? && DetectTag(line).None?
    ensures var f := c.feature.value;
      HandleScenario(env, c, line) == Done(c.(feature := Some(f.(description := f.description + [line]))))
  {
  }

  // ---------------------------------------------------------------------------
  // The step state

  /** A header or a tag in the step state is handled exactly as in the scenario state. */
  lemma StepStateRedispatches(env: Env, c: Config, line: string)
    requires Inv(c) && c.state.AtStep?
    requires DetectScenarioFamily(c.keywords, line).Some? || DetectTag(line).Some?
    ensures HandleStep(env, c, line) == HandleScenario(env, c, line)
  {
  }

  /**
   * A plain tag in the step state is buffered and the state stays the step
   * state: the lines after it are still steps of the current scenario.
   */
  lemma TagInStepState(env: Env, c: Config, name: string)
    requires Inv(c) && c.state.AtStep?
    requires name != [] && forall i :: 0 <= i < |name| ==> IsNameChar(name[i])
    requires name != "precondition" && name != "variable"
    requires DetectScenarioFamily(c.keywords, "@" + name).None?
    ensures HandleStep(env, c, "@" + name) == Done(c.(tags := c.tags + [Tag(name, None)]))
  {
    DetectTagWithoutArgument(name, []);
    assert "@" + name + [] == "@" + name;
  }

  /** Any other line appends one step to the last scenario, numbered after all its steps and runnable only in a plain scenario. */
  lemma StepLine(env: Env, c: Config, line: string)
    requires Inv(c) && c.state.AtStep?
    requires DetectScenarioFamily(c.keywords, line).None? && DetectTag(line).None?
    requires !DetectStepText(line) && !DetectTable(line) && !DetectExamples(c.keywords, line)
    ensures var f := c.feature.value;
      var s := Last(f);
      var o := HandleStep(env, c, line);
      && o.Done? && o.cfg == c.(feature := o.cfg.feature)
      && o.cfg.feature.value.scenarios[..|f.scenarios| - 1] == f.scenarios[..|f.scenarios| - 1]
      && Last(o.cfg.feature.value) == s.(steps := s.steps + [Step(AllStepCount(s) + 1, line, env.path, c.line, s.kind.Plain?, [], [])])
  {
  }

  /**
   * A table row after a step, however its cells are spaced and whatever
   * follows its last `|`, adds its stripped cells to the last step's table and
   * changes nothing else.
   */
  lemma TableRowLine(env: Env, c: Config, inner: seq<string>, trail: string)
    requires Inv(c) && c.state.AtStep? && HasOpenScenario(c)
    requires inner != [] && '|' !in trail
    requires forall i :: 0 <= i < |inner| ==> '|' !in inner[i]
    requires DetectScenarioFamily(c.keywords, Row([], inner, trail)).None?
    requires Last(c.feature.value).steps != []
    ensures var f := c.feature.value;
      var s := Last(f);
      var step := s.steps[|s.steps| - 1];
      HandleStep(env, c, Row([], inner, trail))
        == Done(c.(feature := Some(WithLast(f, WithLastStep(s, step.(table := step.table + [StripAll(inner)]))))))
  {
    TableRowShape(inner, trail);
    assert HandleStep(env, c, Row([], inner, trail)) == HandleTable(env, c, Row([], inner, trail));
    SplitRowOf([], inner, trail);
  }

  /** A table row before the first step of a scenario fails. */
  lemma TableRowWithoutStep(env: Env, c: Config, line: string)
    requires Inv(c) && c.state.AtStep? && DetectTable(line)
    requires DetectScenarioFamily(c.keywords, line).None?
    requires Last(c.feature.value).steps == []
    ensures HandleStep(env, c, line) == Raised(TableWithoutStep(c.line))
  {
  }

  /** `"""s"""` after a step adds `s` stripped to its raw text and stays in the step state. */
  lemma OneLineStepText(env: Env, c: Config, s: string)
    requires Inv(c) && c.state.AtStep? && s != []
    requires DetectScenarioFamily(c.keywords, TextDelimiter + s + TextDelimiter).None?
    requires Last(c.feature.value).steps != []
    ensures var f := c.feature.value;
      var sc := Last(f);
      var step := sc.steps[|sc.steps| - 1];
      HandleStep(env, c, TextDelimiter + s + TextDelimiter)
        == Done(c.(feature := Some(WithLast(f, WithLastStep(sc, step.(rawText := step.rawText + [Strip(s)]))))))
  {
    ScanOneLineBlock(s);
    var line := TextDelimiter + s + TextDelimiter;
    assert line[..3] == TextDelimiter;
  }

  /** A lone delimiter after a step opens a block without adding text. */
  lemma OpenStepText(env: Env, c: Config)
    requires Inv(c) && c.state.AtStep?
    requires DetectScenarioFamily(c.keywords, TextDelimiter).None?
    ensures HandleStep(env, c, TextDelimiter) == Done(c.(state := AtStepText, inStepText := true))
  {
    assert TextDelimiter[3..] == [];
  }

  /** Inside a block, a line ending with the delimiter closes it, adding what precedes the delimiter when not empty. */
  lemma CloseStepText(env: Env, c: Config, s: string)
    requires Inv(c) && c.state.AtStepText?
    ensures var o := HandleStepText(env, c, s + TextDelimiter);
      && (s == [] ==> o == Done(c.(state := AtStep, inStepText := false)))
      && (s != [] && Last(c.feature.value).steps != [] ==>
            var f := c.feature.value;
            var sc := Last(f);
            var step := sc.steps[|sc.steps| - 1];
            o == Done(c.(state := AtStep, inStepText := false,
                         feature := Some(WithLast(f, WithLastStep(sc, step.(rawText := step.rawText + [Strip(s)])))))))
  {
    var line := s + TextDelimiter;
    assert line[|line| - 3..] == TextDelimiter;
    assert line[..|line| - 3] == s;
  }

  // ---------------------------------------------------------------------------
  // Examples

  /** The examples keyword in the step state enters the examples state and changes nothing else. */
  lemma ExamplesLine(env: Env, c: Config, line: string)
    requires Inv(c) && c.state.AtStep?
    requires DetectScenarioFamily(c.keywords, line).None? && DetectTag(line).None?
    requires !DetectStepText(line) && !DetectTable(line) && DetectExamples(c.keywords, line)
    ensures HandleStep(env, c, line) == Done(c.(state := AtExamples))
  {
  }

  /** The row after the examples keyword, however spaced, becomes the outline's header of stripped names. */
  lemma ExamplesHeaderLine(env: Env, c: Config, lead: string, inner: seq<string>, trail: string)
    requires Inv(c) && c.state.AtExamples?
    requires inner != [] && '|' !in lead && '|' !in trail
    requires forall i :: 0 <= i < |inner| ==> '|' !in inner[i]
    requires Last(c.feature.value).kind.Outline?
    ensures var f := c.feature.value;
      var s := Last(f);
      HandleExamples(env, c, Row(lead, inner, trail))
        == Done(c.(feature := Some(WithLast(f, s.(kind := s.kind.(examplesHeader := StripAll(inner))))), state := AtExamplesRow))
  {
    SplitRowOf(lead, inner, trail);
  }

  /**
   * A row in the examples-row state, when not a scenario header, becomes the
   * outline's next example of stripped cells, at this line.
   */
  lemma ExamplesRowLine(env: Env, c: Config, lead: string, inner: seq<string>, trail: string)
    requires Inv(c) && c.state.AtExamplesRow?
    requires inner != [] && '|' !in lead && '|' !in trail
    requires forall i :: 0 <= i < |inner| ==> '|' !in inner[i]
    requires DetectScenarioFamily(c.keywords, Row(lead, inner, trail)).None?
    ensures var f := c.feature.value;
      var s := Last(f);
      HandleExamplesRow(env, c, Row(lead, inner, trail))
        == Done(c.(feature := Some(WithLast(f, s.(kind := s.kind.(examples := s.kind.examples + [Example(StripAll(inner), env.path, c.line)]))))))
  {
    SplitRowOf(lead, inner, trail);
  }
}
