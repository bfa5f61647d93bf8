/**
 * The feature-file parser as a state machine over values: a configuration
 * (the parser's fields), one handler per state, and the driver that feeds the
 * lines of a document through them. The class `Parser.FeatureParser` updates
 * its fields in place and is proved to follow these functions.
 */
module Machine {
  import opened Wrappers
  import opened Text
  import opened Errors
  import opened Document
  import opened Detectors

  /** The parser states; the state decides which handler gets the next line. */
  datatype State = AtFeature | AtScenario | AtStep | AtExamples | AtExamplesRow | AtStepText

  /** The parser's fields: keywords, state, line counter, pending buffers, step-text flag and the feature. */
  datatype Config = Config(
    keywords: Keywords,
    state: State,
    line: nat,
    tags: seq<Tag>,
    preconditions: seq<Scenario>,
    variables: seq<Variable>,
    inStepText: bool,
    feature: Option<Feature>)

  /** What parsing another feature file for a precondition gives. */
  datatype Resolution =
    | Parsed(feature: Feature)
    | RecursionLimit          // the host ran out of recursion depth: the preconditions form a cycle
    | Failed(error: ParseError)

  /**
   * What the parser is given: the keyword table of every known language, the
   * parser of other feature files (named relative to the current one), the
   * feature's identifier and the path of the file.
   */
  datatype Env = Env(
    languages: map<string, Keywords>,
    resolve: (string, string) -> Resolution,
    featureId: int,
    path: string)

  /** What a handler does with a line: accepts it, returns false, or raises. */
  datatype Outcome = Done(cfg: Config) | Rejected | Raised(error: ParseError)

  /** The handler's return value: true, false, or the error it raises. */
  function VerdictOf(o: Outcome): Result<bool, ParseError> {
    match o
    case Done(_) => Ok(true)
    case Rejected => Ok(false)
    case Raised(e) => Err(e)
  }

  /** The configuration after the handler: its own when it accepts, unchanged otherwise. */
  function Apply(c: Config, o: Outcome): Config {
    if o.Done? then o.cfg else c
  }

  // ---------------------------------------------------------------------------
  // The document being built

  function Last(f: Feature): Scenario
    requires f.scenarios != []
  {
    f.scenarios[|f.scenarios| - 1]
  }

  /** The feature with its last scenario replaced. */
  function WithLast(f: Feature, s: Scenario): Feature
    requires f.scenarios != []
  {
    f.(scenarios := f.scenarios[..|f.scenarios| - 1] + [s])
  }

  /** The scenario with its last step replaced. */
  function WithLastStep(s: Scenario, step: Step): Scenario
    requires s.steps != []
  {
    s.(steps := s.steps[..|s.steps| - 1] + [step])
  }

  /** No two scenarios of a feature share a sentence. */
  predicate DistinctSentences(scenarios: seq<Scenario>) {
    forall i, j :: 0 <= i < j < |scenarios| ==> scenarios[i].sentence != scenarios[j].sentence
  }

  lemma WithLastKeepsDistinct(f: Feature, s: Scenario)
    requires f.scenarios != [] && DistinctSentences(f.scenarios)
    requires s.sentence == Last(f).sentence
    ensures DistinctSentences(WithLast(f, s).scenarios)
  {
    var g := WithLast(f, s);
    assert forall i :: 0 <= i < |g.scenarios| ==> g.scenarios[i].sentence == f.scenarios[i].sentence;
  }

  lemma AppendKeepsDistinct(f: Feature, s: Scenario)
    requires DistinctSentences(f.scenarios) && !HasScenario(f, s.sentence)
    ensures DistinctSentences(f.scenarios + [s])
  {
  }

  predicate HasOpenScenario(c: Config) {
    c.feature.Some? && c.feature.value.scenarios != []
  }

  /**
   * What every reachable configuration satisfies: a feature exists exactly
   * outside the feature state; the step-text flag is set exactly in the
   * step-text state; the states inside a scenario have one; an examples row
   * belongs to an outline; and no two scenarios share a sentence.
   */
  predicate Inv(c: Config) {
    && (c.state.AtFeature? <==> c.feature.None?)
    && (c.inStepText <==> c.state.AtStepText?)
    && (c.state.AtStep? || c.state.AtExamples? || c.state.AtExamplesRow? || c.state.AtStepText? ==> HasOpenScenario(c))
    && (c.state.AtExamplesRow? ==> Last(c.feature.value).kind.Outline?)
    && (c.feature.Some? ==> DistinctSentences(c.feature.value.scenarios))
  }

  /** A handler that accepts keeps the line counter and the keywords. */
  predicate Keeps(c: Config, o: Outcome) {
    o.Done? ==> o.cfg.line == c.line && o.cfg.keywords == c.keywords
  }

  // ---------------------------------------------------------------------------
  // Languages

  /** The keywords of a language: none given, or not known, is an error. */
  function LoadLanguage(env: Env, code: string): (r: Result<Keywords, ParseError>)
    ensures r.Ok? <==> code != [] && code in env.languages
    ensures r.Ok? ==> r.value == env.languages[code]
    ensures code == [] ==> r == Err(LanguageNotGiven)
    ensures code != [] && code !in env.languages ==> r == Err(LanguageNotSupported(code))
  {
    if code == [] then Err(LanguageNotGiven)
    else if code !in env.languages then Err(LanguageNotSupported(code))
    else Ok(env.languages[code])
  }

  /** The configuration of a fresh parser: the feature state, line 0, empty buffers, no feature. */
  function Initial(keywords: Keywords): (c: Config)
    ensures Inv(c) && c.line == 0 && c.feature.None?
  {
    Config(keywords, AtFeature, 0, [], [], [], false, None)
  }

  /** A fresh parser for a language, or the error loading it raises. */
  function Start(env: Env, language: string): (r: Result<Config, ParseError>)
    ensures r.Ok? <==> LoadLanguage(env, language).Ok?
    ensures r.Ok? ==> r.value == Initial(env.languages[language])
    ensures r.Err? ==> r.error == LoadLanguage(env, language).error
  {
    match LoadLanguage(env, language)
    case Ok(kw) => Ok(Initial(kw))
    case Err(e) => Err(e)
  }

  // ---------------------------------------------------------------------------
  // Tags

  /**
   * The scenario a `@precondition` argument names: the argument must have the
   * form `<file>.feature: <sentence>`, the file must parse, and its feature
   * must have a scenario with that sentence.
   */
  function ResolvePrecondition(env: Env, c: Config, arg: Option<string>): (r: Result<Scenario, ParseError>)
    ensures ParsePreconditionArgument(arg).Err? ==> r == Err(ParsePreconditionArgument(arg).error)
    ensures ParsePreconditionArgument(arg).Ok? ==>
      var file := ParsePreconditionArgument(arg).value.0;
      var sentence := ParsePreconditionArgument(arg).value.1;
      && (env.resolve(env.path, file).RecursionLimit? ==> r == Err(PreconditionCycle(env.path, file, sentence, c.line)))
      && (env.resolve(env.path, file).Failed? ==> r == Err(env.resolve(env.path, file).error))
      && (env.resolve(env.path, file).Parsed? ==>
            var other := env.resolve(env.path, file).feature;
            && (r.Ok? <==> HasScenario(other, sentence))
            && (r.Ok? ==> r.value in other.scenarios && r.value.sentence == sentence)
            && (r.Err? ==> r.error == NoSuchPrecondition(sentence, other.path)))
  {
    match ParsePreconditionArgument(arg)
    case Err(e) => Err(e)
    case Ok((file, sentence)) =>
      match env.resolve(env.path, file)
      case RecursionLimit => Err(PreconditionCycle(env.path, file, sentence, c.line))
      case Failed(e) => Err(e)
      case Parsed(other) =>
        match FindScenario(other, sentence)
        case None => Err(NoSuchPrecondition(sentence, other.path))
        case Some(s) => Ok(s)
  }

  /**
   * A tag line outside a scenario header: the tag is buffered; a `variable`
   * tag also buffers its `(name, value)`; in the scenario state a
   * `precondition` tag also buffers the scenario it names.
   */
  function BufferTag(env: Env, c: Config, tag: Tag, resolvePreconditions: bool): (r: Result<Config, ParseError>)
    ensures r.Ok? ==> r.value.(tags := c.tags, preconditions := c.preconditions, variables := c.variables) == c
    ensures r.Ok? ==> r.value.tags == c.tags + [tag]
    ensures r.Ok? && resolvePreconditions && tag.name == "precondition" ==>
      && ResolvePrecondition(env, c, tag.arg).Ok?
      && r.value.preconditions == c.preconditions + [ResolvePrecondition(env, c, tag.arg).value]
      && r.value.variables == c.variables
    ensures r.Ok? && tag.name == "variable" ==>
      && ParseVariable(tag.arg).Ok?
      && r.value.variables == c.variables + [ParseVariable(tag.arg).value]
      && r.value.preconditions == c.preconditions
    ensures r.Ok? && !(resolvePreconditions && tag.name == "precondition") && tag.name != "variable" ==>
      r.value.preconditions == c.preconditions && r.value.variables == c.variables
    ensures r.Err? && tag.name == "variable" ==> r.error == MalformedTagArgument
    ensures r.Err? ==> (resolvePreconditions && tag.name == "precondition") || tag.name == "variable"
  {
    var tagged := c.(tags := c.tags + [tag]);
    if resolvePreconditions && tag.name == "precondition" then
      match ResolvePrecondition(env, c, tag.arg)
      case Ok(s) => Ok(tagged.(preconditions := c.preconditions + [s]))
      case Err(e) => Err(e)
    else if tag.name == "variable" then
      match ParseVariable(tag.arg)
      case Ok(v) => Ok(tagged.(variables := c.variables + [v]))
      case Err(e) => Err(e)
    else Ok(tagged)
  }

  function OutcomeOf(r: Result<Config, ParseError>): Outcome {
    match r
    case Ok(c) => Done(c)
    case Err(e) => Raised(e)
  }

  // ---------------------------------------------------------------------------
  // Scenario-family headers

  /** A detected scenario header: the keyword it is stored with, its sentence and its kind. */
  datatype Header = Header(keyword: string, sentence: string, kind: ScenarioKind)

  /**
   * The scenario-family detectors in their fixed order: a scenario header with
   * a non-empty sentence, else an outline header with a non-empty sentence,
   * else a loop header (with any sentence).
   */
  function DetectScenarioFamily(kw: Keywords, line: string): (r: Option<Header>)
    ensures r.Some? <==>
      Truthy(DetectScenario(kw, line)) || Truthy(DetectScenarioOutline(kw, line)) || DetectScenarioLoop(kw, line).Some?
    ensures Truthy(DetectScenario(kw, line)) ==> r == Some(Header(kw.scenario, DetectScenario(kw, line).value, Plain))
    ensures r.Some? && r.value.kind.Outline? ==>
      && !Truthy(DetectScenario(kw, line)) && Truthy(DetectScenarioOutline(kw, line))
      && r.value == Header(kw.scenarioOutline, DetectScenarioOutline(kw, line).value, Outline(kw.examples, [], []))
    ensures r.Some? && r.value.kind.Loop? ==>
      && !Truthy(DetectScenario(kw, line)) && !Truthy(DetectScenarioOutline(kw, line))
      && var (sentence, n) := DetectScenarioLoop(kw, line).value;
         r.value == Header(kw.scenarioLoop, sentence, Loop(kw.iterations, n))
  {
    var scenario := DetectScenario(kw, line);
    if Truthy(scenario) then Some(Header(kw.scenario, scenario.value, Plain))
    else
      var outline := DetectScenarioOutline(kw, line);
      if Truthy(outline) then Some(Header(kw.scenarioOutline, outline.value, Outline(kw.examples, [], [])))
      else
        match DetectScenarioLoop(kw, line)
        case Some((sentence, n)) => Some(Header(kw.scenarioLoop, sentence, Loop(kw.iterations, n)))
        case None => None
  }

  // ---------------------------------------------------------------------------
  // The handlers, one per state

  /**
   * The feature state: a feature header with a non-empty sentence starts the
   * feature with the buffered tags and variables; a tag is buffered; anything
   * else is refused.
   */
  function HandleFeature(env: Env, c: Config, line: string): (o: Outcome)
    requires Inv(c) && c.state.AtFeature?
    ensures Keeps(c, o) && (o.Done? ==> Inv(o.cfg))
    ensures o.Rejected? <==> !Truthy(DetectFeature(c.keywords, line)) && DetectTag(line).None?
  {
    var header := DetectFeature(c.keywords, line);
    if Truthy(header) then
      var f := Feature(env.featureId, c.keywords.feature, header.value, env.path, c.line, c.tags, c.variables, [], []);
      Done(c.(feature := Some(f), state := AtScenario, tags := [], variables := []))
    else
      match DetectTag(line)
      case Some(tag) => OutcomeOf(BufferTag(env, c, tag, false))
      case None => Rejected
  }

  /** A truthy feature header opens the feature with the buffered tags and variables. */
  lemma FeatureHeaderOpens(env: Env, c: Config, line: string)
    requires Inv(c) && c.state.AtFeature? && Truthy(DetectFeature(c.keywords, line))
    ensures HandleFeature(env, c, line)
         == Done(c.(feature := Some(Feature(env.featureId, c.keywords.feature, DetectFeature(c.keywords, line).value,
                                            env.path, c.line, c.tags, c.variables, [], [])),
                    state := AtScenario, tags := [], variables := []))
  {
  }

  /** The scenario appended for a header: the next identifier and the buffered tags, preconditions and variables. */
  function NewScenario(env: Env, c: Config, f: Feature, h: Header): (s: Scenario)
    ensures s.id >= |f.scenarios| + 1
    ensures s.sentence == h.sentence && s.kind == h.kind && s.steps == [] && s.line == c.line
    ensures s.tags == c.tags && s.preconditions == c.preconditions && s.variables == c.variables
    ensures DistinctSentences(f.scenarios) && !HasScenario(f, h.sentence) ==> DistinctSentences(f.scenarios + [s])
  {
    var s := Scenario(NextScenarioId(f.scenarios), h.keyword, h.sentence, env.path, c.line, c.tags, c.preconditions, c.variables, [], h.kind);
    assert DistinctSentences(f.scenarios) && !HasScenario(f, h.sentence) ==> DistinctSentences(f.scenarios + [s]) by {
      if DistinctSentences(f.scenarios) && !HasScenario(f, h.sentence) {
        AppendKeepsDistinct(f, s);
      }
    }
    s
  }

  /**
   * The scenario state (also reached from the step and examples-row states on
   * a header): a scenario-family header appends a scenario unless its sentence
   * is already taken; a tag is buffered; anything else is feature description.
   */
  function HandleScenario(env: Env, c: Config, line: string): (o: Outcome)
    requires Inv(c) && c.feature.Some? && !c.state.AtStepText?
    ensures Keeps(c, o) && (o.Done? ==> Inv(o.cfg))
    ensures !o.Rejected?
  {
    var f := c.feature.value;
    match DetectScenarioFamily(c.keywords, line)
    case Some(h) =>
      if HasScenario(f, h.sentence) then Raised(DuplicateScenario(h.sentence, f.sentence))
      else
        var s := NewScenario(env, c, f, h);
        AppendKeepsDistinct(f, s);
        Done(c.(feature := Some(f.(scenarios := f.scenarios + [s])),
                tags := [], preconditions := [], variables := [], state := AtStep))
    case None =>
      match DetectTag(line)
      case Some(tag) => OutcomeOf(BufferTag(env, c, tag, true))
      case None => Done(c.(feature := Some(f.(description := f.description + [line]))))
  }

  /** The examples state: the line after the examples keyword is the header of the last outline. */
  function HandleExamples(env: Env, c: Config, line: string): (o: Outcome)
    requires Inv(c) && c.state.AtExamples?
    ensures Keeps(c, o) && (o.Done? ==> Inv(o.cfg))
    ensures o.Raised? <==> !Last(c.feature.value).kind.Outline?
  {
    var f := c.feature.value;
    var s := Last(f);
    if !s.kind.Outline? then Raised(ExamplesNotSupported)
    else
      WithLastKeepsDistinct(f, s.(kind := s.kind.(examplesHeader := SplitRow(line))));
      Done(c.(feature := Some(WithLast(f, s.(kind := s.kind.(examplesHeader := SplitRow(line))))),
              state := AtExamplesRow))
  }

  /** The examples-row state: a scenario-family header goes to the scenario handler, any other line is an example row. */
  function HandleExamplesRow(env: Env, c: Config, line: string): (o: Outcome)
    requires Inv(c) && c.state.AtExamplesRow?
    ensures Keeps(c, o) && (o.Done? ==> Inv(o.cfg))
    ensures !o.Rejected?
  {
    if DetectScenarioFamily(c.keywords, line).Some? then HandleScenario(env, c, line)
    else
      var f := c.feature.value;
      var s := Last(f);
      var example := Example(SplitRow(line), env.path, c.line);
      var s' := s.(kind := s.kind.(examples := s.kind.examples + [example]));
      WithLastKeepsDistinct(f, s');
      Done(c.(feature := Some(WithLast(f, s'))))
  }

  /** A table row: the last step of the last scenario gains it; without a step it is an error. */
  function HandleTable(env: Env, c: Config, line: string): (o: Outcome)
    requires Inv(c) && c.state.AtStep?
    ensures Keeps(c, o) && (o.Done? ==> Inv(o.cfg))
    ensures o.Raised? <==> Last(c.feature.value).steps == []
    ensures o.Raised? ==> o.error == TableWithoutStep(c.line)
  {
    var f := c.feature.value;
    var s := Last(f);
    if s.steps == [] then Raised(TableWithoutStep(c.line))
    else
      var step := s.steps[|s.steps| - 1];
      var s' := WithLastStep(s, step.(table := step.table + [SplitRow(line)]));
      WithLastKeepsDistinct(f, s');
      Done(c.(feature := Some(WithLast(f, s'))))
  }

  /** How one line inside (or opening) a step-text block is read. */
  datatype TextLine = TextLine(inBlock: bool, closed: bool, content: string)

  /**
   * A leading delimiter is removed only when not yet inside a block (and opens
   * it); then a trailing delimiter is removed only inside a block (and closes
   * it); what is left is the content.
   */
  function ScanStepText(inBlock: bool, line: string): (r: TextLine)
    ensures r.closed ==> !r.inBlock
    ensures !r.closed ==> r.inBlock == (inBlock || StartsWith(line, TextDelimiter))
    ensures inBlock ==> r.closed == EndsWith(line, TextDelimiter)
    ensures inBlock && !r.closed ==> r.content == line
  {
    var opens := StartsWith(line, TextDelimiter) && !inBlock;
    var open := inBlock || opens;
    var rest := if opens then line[|TextDelimiter|..] else line;
    if EndsWith(rest, TextDelimiter) && open then TextLine(false, true, rest[..|rest| - |TextDelimiter|])
    else TextLine(open, false, rest)
  }

  /** A block opened and closed on one line has the text between the delimiters as its only content. */
  lemma ScanOneLineBlock(s: string)
    ensures ScanStepText(false, TextDelimiter + s + TextDelimiter) == TextLine(false, true, s)
  {
    var line := TextDelimiter + s + TextDelimiter;
    assert line[..3] == TextDelimiter;
    var rest := line[3..];
    assert rest == s + TextDelimiter;
    assert rest[|rest| - 3..] == TextDelimiter;
    assert rest[..|rest| - 3] == s;
  }

  /** Inside a block a leading delimiter is content: a line that starts but does not end with it is kept whole. */
  lemma ScanKeepsLeadingDelimiterInside(line: string)
    requires StartsWith(line, TextDelimiter) && !EndsWith(line, TextDelimiter)
    ensures ScanStepText(true, line) == TextLine(true, false, line)
  {
  }

  /**
   * The step-text state (entered from the step state on a delimiter): the
   * line's content, when not empty, is appended stripped to the raw text of
   * the last step; a closing delimiter returns to the step state.
   */
  function HandleStepText(env: Env, c: Config, line: string): (o: Outcome)
    requires c.state.AtStepText? && HasOpenScenario(c) && DistinctSentences(c.feature.value.scenarios)
    requires c.inStepText || DetectStepText(line)
    ensures Keeps(c, o) && (o.Done? ==> Inv(o.cfg))
    ensures !o.Rejected?
    ensures o.Raised? <==> ScanStepText(c.inStepText, line).content != [] && Last(c.feature.value).steps == []
    ensures o.Done? ==> o.cfg.inStepText == ScanStepText(c.inStepText, line).inBlock
  {
    var scan := ScanStepText(c.inStepText, line);
    var c' := c.(inStepText := scan.inBlock, state := if scan.closed then AtStep else AtStepText);
    if scan.content == [] then Done(c')
    else
      var f := c.feature.value;
      var s := Last(f);
      if s.steps == [] then Raised(StepTextWithoutStep(c.line))
      else
        var step := s.steps[|s.steps| - 1];
        var s' := WithLastStep(s, step.(rawText := step.rawText + [Strip(scan.content)]));
        WithLastKeepsDistinct(f, s');
        Done(c'.(feature := Some(WithLast(f, s'))))
  }

  /** The step appended for a plain line: the next identifier counting precondition steps, runnable only in a plain scenario. */
  function NewStep(env: Env, c: Config, s: Scenario, line: string): (st: Step)
    ensures st.id > |s.steps| && st.sentence == line && st.line == c.line
    ensures st.runnable <==> s.kind.Plain?
    ensures st.table == [] && st.rawText == []
  {
    Step(AllStepCount(s) + 1, line, env.path, c.line, s.kind.Plain?, [], [])
  }

  /**
   * The step state: a scenario-family header or a tag goes to the scenario
   * handler; then a delimiter opens step text, a `|` line is a table row, the
   * examples keyword enters the examples state, and any other line is a step.
   */
  function HandleStep(env: Env, c: Config, line: string): (o: Outcome)
    requires Inv(c) && c.state.AtStep?
    ensures Keeps(c, o) && (o.Done? ==> Inv(o.cfg))
    ensures !o.Rejected?
  {
    if DetectScenarioFamily(c.keywords, line).Some? || DetectTag(line).Some? then HandleScenario(env, c, line)
    else if DetectStepText(line) then HandleStepText(env, c.(state := AtStepText), line)
    else if DetectTable(line) then HandleTable(env, c, line)
    else if DetectExamples(c.keywords, line) then Done(c.(state := AtExamples))
    else
      var f := c.feature.value;
      var s := Last(f);
      var s' := s.(steps := s.steps + [NewStep(env, c, s, line)]);
      WithLastKeepsDistinct(f, s');
      Done(c.(feature := Some(WithLast(f, s'))))
  }

  /** The handler of the current state, as a match over the state. */
  function Dispatch(env: Env, c: Config, line: string): (o: Outcome)
    requires Inv(c)
    ensures Keeps(c, o) && (o.Done? ==> Inv(o.cfg))
    ensures o.Rejected? ==> c.state.AtFeature?
  {
    match c.state
    case AtFeature => HandleFeature(env, c, line)
    case AtScenario => HandleScenario(env, c, line)
    case AtStep => HandleStep(env, c, line)
    case AtExamples => HandleExamples(env, c, line)
    case AtExamplesRow => HandleExamplesRow(env, c, line)
    case AtStepText => HandleStepText(env, c, line)
  }

  // ---------------------------------------------------------------------------
  // The driver

  /**
   * One physical line: the counter goes up, and the line is stripped and
   * handled as `Classify` says.
   */
  function Feed(env: Env, c: Config, raw: string): (r: Result<Config, ParseError>)
    requires Inv(c)
    ensures r.Ok? ==> Inv(r.value) && r.value.line == c.line + 1
  {
    Classify(env, c.(line := c.line + 1), Strip(raw))
  }

  /**
   * A stripped line: an empty line is skipped; a comment is skipped, after
   * switching language when it is a non-empty language pragma; any other line
   * is routed.
   */
  function Classify(env: Env, c: Config, line: string): (r: Result<Config, ParseError>)
    requires Inv(c)
    ensures r.Ok? ==> Inv(r.value) && r.value.line == c.line
  {
    if line == [] then Ok(c)
    else if StartsWith(line, "#") then
      match DetectLanguage(line)
      case Some(code) =>
        if code == [] then Ok(c)
        else (
          match LoadLanguage(env, code)
          case Ok(kw) => Ok(c.(keywords := kw))
          case Err(e) => Err(e))
      case None => Ok(c)
    else Route(env, c, line)
  }

  /**
   * A stripped line that is neither blank nor a comment: a second feature
   * header is an error, anything else goes to the current handler, whose
   * refusal is a syntax error at the current line.
   */
  function Route(env: Env, c: Config, line: string): (r: Result<Config, ParseError>)
    requires Inv(c)
    ensures r.Ok? ==> Inv(r.value) && r.value.line == c.line
    ensures c.feature.Some? && Truthy(DetectFeature(c.keywords, line)) ==> r == Err(MultipleFeatures)
  {
    if c.feature.Some? && Truthy(DetectFeature(c.keywords, line)) then Err(MultipleFeatures)
    else
      match Dispatch(env, c, line)
      case Done(c2) => Ok(c2)
      case Rejected => Err(SyntaxError(env.path, c.line))
      case Raised(e) => Err(e)
  }

  /** All lines in order, stopping at the first error. */
  function Run(env: Env, c: Config, lines: seq<string>): (r: Result<Config, ParseError>)
    requires Inv(c)
    ensures r.Ok? ==> Inv(r.value)
    decreases |lines|
  {
    if lines == [] then Ok(c)
    else
      match Feed(env, c, lines[0])
      case Ok(c') => Run(env, c', lines[1..])
      case Err(e) => Err(e)
  }

  /** The feature of a document, or the error that ends its parse; a document without a feature header is an error. */
  function Finish(env: Env, r: Result<Config, ParseError>): (res: Result<Feature, ParseError>)
    ensures r.Err? ==> res == Err(r.error)
    ensures r.Ok? ==> (res.Ok? <==> r.value.feature.Some?)
    ensures r.Ok? && res.Ok? ==> res.value == r.value.feature.value
    ensures r.Ok? && res.Err? ==> res.error == NoFeature(env.path)
  {
    match r
    case Err(e) => Err(e)
    case Ok(c) => if c.feature.None? then Err(NoFeature(env.path)) else Ok(c.feature.value)
  }

  /** Parsing a whole document in a language. */
  function ParseDocument(env: Env, language: string, lines: seq<string>): (res: Result<Feature, ParseError>)
    ensures LoadLanguage(env, language).Err? ==> res == Err(LoadLanguage(env, language).error)
    ensures res.Ok? ==>
      && LoadLanguage(env, language).Ok?
      && Run(env, Initial(env.languages[language]), lines).Ok?
      && Run(env, Initial(env.languages[language]), lines).value.feature == Some(res.value)
  {
    match Start(env, language)
    case Err(e) => Err(e)
    case Ok(c) => Finish(env, Run(env, c, lines))
  }
}
