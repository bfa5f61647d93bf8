/**
 * The feature-file parser as an object whose fields change line by line.
 * Every handler method is proved to do what the handler function of the same
 * state in `Machine` describes, and `Parse` is proved to compute `Machine.Run`
 * followed by the end-of-input check.
 */
module Parser {
  import opened Wrappers
  import opened Text
  import opened Errors
  import opened Document
  import opened Detectors
  import opened Machine

  class FeatureParser {
    const env: Env
    var keywords: Keywords
    var state: State
    var currentLine: nat
    var tags: seq<Tag>
    var preconditions: seq<Scenario>
    var variables: seq<Variable>
    var inStepText: bool
    var feature: Option<Feature>

    /** The fields as a configuration of the state machine. */
    function Snapshot(): Config
      reads this
    {
      Config(keywords, state, currentLine, tags, preconditions, variables, inStepText, feature)
    }

    ghost predicate Valid()
      reads this
    {
      Inv(Snapshot())
    }

    /** A parser in the feature state at line 0, with empty buffers and no feature. */
    constructor (env: Env, keywords: Keywords)
      ensures this.env == env
      ensures Snapshot() == Initial(keywords) && Valid()
    {
      this.env := env;
      this.keywords := keywords;
      state := AtFeature;
      currentLine := 0;
      tags := [];
      preconditions := [];
      variables := [];
      inStepText := false;
      feature := None;
    }

    /** A parser for a language: fails when no language is given or it has no keyword table. */
    static method Create(env: Env, language: string) returns (r: Result<FeatureParser, ParseError>)
      ensures r.Ok? <==> Start(env, language).Ok?
      ensures r.Err? ==> r.error == Start(env, language).error
      ensures r.Ok? ==> fresh(r.value) && r.value.env == env && r.value.Snapshot() == Start(env, language).value
    {
      if language == [] {
        return Err(LanguageNotGiven);
      }
      if language !in env.languages {
        return Err(LanguageNotSupported(language));
      }
      var parser := new FeatureParser(env, env.languages[language]);
      return Ok(parser);
    }

    /** Switches to the keywords of a language named by a pragma. */
    method LoadLanguage(code: string) returns (r: Result<(), ParseError>)
      modifies this
      ensures r.Ok? <==> Machine.LoadLanguage(env, code).Ok?
      ensures r.Err? ==> r.error == Machine.LoadLanguage(env, code).error
      ensures r.Ok? ==> Snapshot() == old(Snapshot()).(keywords := env.languages[code])
      ensures r.Err? ==> Snapshot() == old(Snapshot())
    {
      if code == [] {
        return Err(LanguageNotGiven);
      }
      if code !in env.languages {
        return Err(LanguageNotSupported(code));
      }
      keywords := env.languages[code];
      return Ok(());
    }

    /** Sets every field from a configuration. */
    method Store(c: Config)
      modifies this
      ensures Snapshot() == c
    {
      keywords, state, currentLine, tags, preconditions, variables, inStepText, feature :=
        c.keywords, c.state, c.line, c.tags, c.preconditions, c.variables, c.inStepText, c.feature;
    }

    /** Buffers a tag, and the variable or precondition it carries. */
    method PushTag(tag: Tag, resolvePreconditions: bool) returns (v: Result<bool, ParseError>)
      modifies this
      ensures v == VerdictOf(OutcomeOf(BufferTag(env, old(Snapshot()), tag, resolvePreconditions)))
      ensures v.Ok? ==> Snapshot() == BufferTag(env, old(Snapshot()), tag, resolvePreconditions).value
      ensures feature == old(feature) && state == old(state) && currentLine == old(currentLine)
    {
      var before := Snapshot();
      tags := tags + [tag];
      if resolvePreconditions && tag.name == "precondition" {
        var scenario := ResolvePrecondition(env, before, tag.arg);
        if scenario.Err? {
          return Err(scenario.error);
        }
        preconditions := preconditions + [scenario.value];
      } else if tag.name == "variable" {
        var variable := ParseVariable(tag.arg);
        if variable.Err? {
          return Err(variable.error);
        }
        variables := variables + [variable.value];
      }
      return Ok(true);
    }

    method ParseFeature(line: string) returns (v: Result<bool, ParseError>)
      requires Valid() && state.AtFeature?
      modifies this
      ensures v == VerdictOf(HandleFeature(env, old(Snapshot()), line))
      ensures v.Ok? ==> Snapshot() == Apply(old(Snapshot()), HandleFeature(env, old(Snapshot()), line))
      ensures v.Err? ==> feature == old(feature) && state == old(state) && currentLine == old(currentLine)
    {
      ghost var c := Snapshot();
      var detected := DetectFeature(keywords, line);
      if !Truthy(detected) {
        var tag := DetectTag(line);
        if tag.Some? {
          assert HandleFeature(env, c, line) == OutcomeOf(BufferTag(env, c, tag.value, false));
          v := PushTag(tag.value, false);
          return;
        }
        assert HandleFeature(env, c, line) == Rejected;
        return Ok(false);
      }
      var f := Feature(env.featureId, keywords.feature, detected.value, env.path, currentLine, tags, variables, [], []);
      var c' := Config(keywords, AtScenario, currentLine, [], preconditions, [], inStepText, Some(f));
      assert c' == c.(feature := Some(f), state := AtScenario, tags := [], variables := []);
      Store(c');
      FeatureHeaderOpens(env, c, line);
      return Ok(true);
    }

    method ParseScenario(line: string) returns (v: Result<bool, ParseError>)
      requires Valid() && feature.Some? && !state.AtStepText?
      modifies this
      ensures v == VerdictOf(HandleScenario(env, old(Snapshot()), line))
      ensures v.Ok? ==> Snapshot() == Apply(old(Snapshot()), HandleScenario(env, old(Snapshot()), line))
      ensures v.Err? ==> feature == old(feature) && state == old(state) && currentLine == old(currentLine)
    {
      ghost var c := Snapshot();
      var f := feature.value;
      var header := DetectScenarioFamily(keywords, line);
      if header.None? {
        var tag := DetectTag(line);
        if tag.Some? {
          assert HandleScenario(env, c, line) == OutcomeOf(BufferTag(env, c, tag.value, true));
          v := PushTag(tag.value, true);
          return;
        }
        var c' := Config(keywords, state, currentLine, tags, preconditions, variables, inStepText,
                         Some(f.(description := f.description + [line])));
        assert c' == c.(feature := Some(f.(description := f.description + [line])));
        Store(c');
        assert HandleScenario(env, c, line) == Done(c');
        return Ok(true);
      }
      var h := header.value;
      if HasScenario(f, h.sentence) {
        return Err(DuplicateScenario(h.sentence, f.sentence));
      }
      var id := |f.scenarios| + 1;
      if f.scenarios != [] {
        var previous := f.scenarios[|f.scenarios| - 1];
        match previous.kind
        case Outline(_, _, examples) => id := id + |examples|;
        case Loop(_, iterations) => id := id + iterations;
        case Plain =>
      }
      assert id == NextScenarioId(f.scenarios);
      var scenario := Scenario(id, h.keyword, h.sentence, env.path, currentLine, tags, preconditions, variables, [], h.kind);
      assert scenario == NewScenario(env, c, f, h);
      var c' := Config(keywords, AtStep, currentLine, [], [], [], inStepText, Some(f.(scenarios := f.scenarios + [scenario])));
      assert c' == c.(feature := Some(f.(scenarios := f.scenarios + [scenario])),
                      tags := [], preconditions := [], variables := [], state := AtStep);
      Store(c');
      assert HandleScenario(env, c, line) == Done(c');
      return Ok(true);
    }

    method ParseExamples(line: string) returns (v: Result<bool, ParseError>)
      requires Valid() && state.AtExamples?
      modifies this
      ensures v == VerdictOf(HandleExamples(env, old(Snapshot()), line))
      ensures v.Ok? ==> Snapshot() == Apply(old(Snapshot()), HandleExamples(env, old(Snapshot()), line))
      ensures v.Err? ==> feature == old(feature) && state == old(state) && currentLine == old(currentLine)
    {
      var f := feature.value;
      var outline := Last(f);
      if !outline.kind.Outline? {
        return Err(ExamplesNotSupported);
      }
      feature := Some(WithLast(f, outline.(kind := outline.kind.(examplesHeader := SplitRow(line)))));
      state := AtExamplesRow;
      return Ok(true);
    }

    method ParseExamplesRow(line: string) returns (v: Result<bool, ParseError>)
      requires Valid() && state.AtExamplesRow?
      modifies this
      ensures v == VerdictOf(HandleExamplesRow(env, old(Snapshot()), line))
      ensures v.Ok? ==> Snapshot() == Apply(old(Snapshot()), HandleExamplesRow(env, old(Snapshot()), line))
      ensures v.Err? ==> feature == old(feature) && state == old(state) && currentLine == old(currentLine)
    {
      if DetectScenarioFamily(keywords, line).Some? {
        v := ParseScenario(line);
        return;
      }
      var f := feature.value;
      var outline := Last(f);
      var example := Example(SplitRow(line), env.path, currentLine);
      feature := Some(WithLast(f, outline.(kind := outline.kind.(examples := outline.kind.examples + [example]))));
      return Ok(true);
    }

    method ParseTable(line: string) returns (v: Result<bool, ParseError>)
      requires Valid() && state.AtStep?
      modifies this
      ensures v == VerdictOf(HandleTable(env, old(Snapshot()), line))
      ensures v.Ok? ==> Snapshot() == Apply(old(Snapshot()), HandleTable(env, old(Snapshot()), line))
      ensures v.Err? ==> feature == old(feature) && state == old(state) && currentLine == old(currentLine)
    {
      var f := feature.value;
      var scenario := Last(f);
      if scenario.steps == [] {
        return Err(TableWithoutStep(currentLine));
      }
      var step := scenario.steps[|scenario.steps| - 1];
      feature := Some(WithLast(f, WithLastStep(scenario, step.(table := step.table + [SplitRow(line)]))));
      return Ok(true);
    }

    method ParseStepText(line: string) returns (v: Result<bool, ParseError>)
      requires state.AtStepText? && HasOpenScenario(Snapshot()) && DistinctSentences(feature.value.scenarios)
      requires inStepText || DetectStepText(line)
      modifies this
      ensures v == VerdictOf(HandleStepText(env, old(Snapshot()), line))
      ensures v.Ok? ==> Snapshot() == Apply(old(Snapshot()), HandleStepText(env, old(Snapshot()), line))
      ensures v.Err? ==> feature == old(feature) && state == old(state) && currentLine == old(currentLine)
    {
      ghost var c := Snapshot();
      ghost var scan := ScanStepText(inStepText, line);
      var text := line;
      var open := inStepText;
      var next := state;
      if StartsWith(text, TextDelimiter) && !open {
        open := true;
        text := text[|TextDelimiter|..];
      }
      if EndsWith(text, TextDelimiter) && open {
        next := AtStep;
        open := false;
        text := text[..|text| - |TextDelimiter|];
      }
      assert scan == TextLine(open, next.AtStep?, text);
      ghost var c' := c.(inStepText := open, state := next);
      if text == [] {
        state := next;
        inStepText := open;
        assert HandleStepText(env, c, line) == Done(c');
        return Ok(true);
      }
      var f := feature.value;
      var scenario := Last(f);
      if scenario.steps == [] {
        return Err(StepTextWithoutStep(currentLine));
      }
      var step := scenario.steps[|scenario.steps| - 1];
      feature := Some(WithLast(f, WithLastStep(scenario, step.(rawText := step.rawText + [Strip(text)]))));
      state := next;
      inStepText := open;
      assert HandleStepText(env, c, line) == Done(c'.(feature := feature));
      return Ok(true);
    }

    method ParseStep(line: string) returns (v: Result<bool, ParseError>)
      requires Valid() && state.AtStep?
      modifies this
      ensures v == VerdictOf(HandleStep(env, old(Snapshot()), line))
      ensures v.Ok? ==> Snapshot() == Apply(old(Snapshot()), HandleStep(env, old(Snapshot()), line))
      ensures v.Err? ==> feature == old(feature) && currentLine == old(currentLine)
    {
      if DetectScenarioFamily(keywords, line).Some? || DetectTag(line).Some? {
        v := ParseScenario(line);
        return;
      }
      if DetectStepText(line) {
        state := AtStepText;
        v := ParseStepText(line);
        return;
      }
      if DetectTable(line) {
        v := ParseTable(line);
        return;
      }
      if DetectExamples(keywords, line) {
        state := AtExamples;
        return Ok(true);
      }
      var f := feature.value;
      var scenario := Last(f);
      var notRunnable := scenario.kind.Outline? || scenario.kind.Loop?;
      var step := Step(AllStepCount(scenario) + 1, line, env.path, currentLine, !notRunnable, [], []);
      feature := Some(WithLast(f, scenario.(steps := scenario.steps + [step])));
      return Ok(true);
    }

    /** The handler of the current state. */
    method ParseContext(line: string) returns (v: Result<bool, ParseError>)
      requires Valid()
      modifies this
      ensures v == VerdictOf(Dispatch(env, old(Snapshot()), line))
      ensures v.Ok? ==> Snapshot() == Apply(old(Snapshot()), Dispatch(env, old(Snapshot()), line))
      ensures v.Err? ==> feature == old(feature) && currentLine == old(currentLine)
    {
      match state
      case AtFeature => v := ParseFeature(line);
      case AtScenario => v := ParseScenario(line);
      case AtStep => v := ParseStep(line);
      case AtExamples => v := ParseExamples(line);
      case AtExamplesRow => v := ParseExamplesRow(line);
      case AtStepText => v := ParseStepText(line);
    }

    /**
     * One physical line: counts it, skips it when blank, applies a language
     * pragma and skips any other comment, refuses a second feature header, and
     * otherwise hands it to the current state's handler.
     */
    method FeedLine(raw: string) returns (r: Result<(), ParseError>)
      requires Valid()
      modifies this
      ensures r.Ok? <==> Feed(env, old(Snapshot()), raw).Ok?
      ensures r.Err? ==> r.error == Feed(env, old(Snapshot()), raw).error
      ensures r.Ok? ==> Snapshot() == Feed(env, old(Snapshot()), raw).value
    {
      ghost var c := Snapshot();
      var counted := Config(keywords, state, currentLine + 1, tags, preconditions, variables, inStepText, feature);
      assert counted == c.(line := c.line + 1);
      Store(counted);
      var line := Strip(raw);
      assert Feed(env, c, raw) == Classify(env, counted, line);
      r := ClassifyLine(line);
    }

    /** A stripped line: what `Machine.Classify` describes. */
    method ClassifyLine(line: string) returns (r: Result<(), ParseError>)
      requires Valid()
      modifies this
      ensures r.Ok? <==> Classify(env, old(Snapshot()), line).Ok?
      ensures r.Err? ==> r.error == Classify(env, old(Snapshot()), line).error
      ensures r.Ok? ==> Snapshot() == Classify(env, old(Snapshot()), line).value
    {
      if line == [] {
        return Ok(());
      }
      if StartsWith(line, "#") {
        var language := DetectLanguage(line);
        if language.Some? && language.value != [] {
          r := LoadLanguage(language.value);
          return;
        }
        return Ok(());
      }
      r := RouteLine(line);
    }

    /** A line that is neither blank nor a comment: what `Machine.Route` describes. */
    method RouteLine(line: string) returns (r: Result<(), ParseError>)
      requires Valid()
      modifies this
      ensures r.Ok? <==> Route(env, old(Snapshot()), line).Ok?
      ensures r.Err? ==> r.error == Route(env, old(Snapshot()), line).error
      ensures r.Ok? ==> Snapshot() == Route(env, old(Snapshot()), line).value
    {
      if feature.Some? && Truthy(DetectFeature(keywords, line)) {
        return Err(MultipleFeatures);
      }
      var handled := ParseContext(line);
      if handled.Err? {
        return Err(handled.error);
      }
      if !handled.value {
        return Err(SyntaxError(env.path, currentLine));
      }
      return Ok(());
    }

    /**
     * Parses the lines of a document: the parser ends where `Machine.Run`
     * ends, and the result is its feature or the first error.
     */
    method Parse(lines: seq<string>) returns (r: Result<Feature, ParseError>)
      requires Valid()
      modifies this
      ensures r == Finish(env, Run(env, old(Snapshot()), lines))
      ensures Run(env, old(Snapshot()), lines).Ok? ==> Snapshot() == Run(env, old(Snapshot()), lines).value
    {
      var i := 0;
      while i < |lines|
        invariant 0 <= i <= |lines|
        invariant Valid()
        invariant Run(env, old(Snapshot()), lines) == Run(env, Snapshot(), lines[i..])
      {
        ghost var before := Snapshot();
        ghost var rest := lines[i..];
        assert rest[0] == lines[i] && rest[1..] == lines[i + 1..];
        assert Run(env, before, rest) == match Feed(env, before, lines[i])
          case Ok(c') => Run(env, c', lines[i + 1..])
          case Err(e) => Err(e);
        var fed := FeedLine(lines[i]);
        if fed.Err? {
          return Err(fed.error);
        }
        i := i + 1;
      }
      assert lines[i..] == [];
      if feature.None? {
        return Err(NoFeature(env.path));
      }
      return Ok(feature.value);
    }
  }

  /** Parses a document in a language from scratch: the result `Machine.ParseDocument` describes. */
  method ParseFeatureFile(env: Env, language: string, lines: seq<string>) returns (r: Result<Feature, ParseError>)
    ensures r == ParseDocument(env, language, lines)
  {
    var created := FeatureParser.Create(env, language);
    if created.Err? {
      return Err(created.error);
    }
    var parser := created.value;
    r := parser.Parse(lines);
  }
}
