/** The errors a parse can end with, one per exception the parser raises. */
module Errors {

  datatype ParseError =
    | LanguageNotGiven                      // no language code: auto-detection is not implemented
    | LanguageNotSupported(code: string)    // no keyword table for this language code
    | MultipleFeatures                      // a second feature header in one document
    | SyntaxError(path: string, line: nat)  // the handler of the current state recognised nothing
    | NoFeature(path: string)               // end of input without a feature header
    | DuplicateScenario(sentence: string, feature: string)
    | ExamplesNotSupported                  // an examples block under a scenario that is not an outline
    | TableWithoutStep(line: nat)           // a table row before the first step of a scenario
    | PreconditionFormat                    // a precondition argument not of the form `x.feature: sentence`
    | PreconditionCycle(path: string, target: string, sentence: string, line: nat)
    | NoSuchPrecondition(sentence: string, target: string)
    | MalformedTagArgument                  // a tag argument missing where the parser splits it (a crash in the source)
    | StepTextWithoutStep(line: nat)        // step text before the first step of a scenario (a crash in the source)
}

/**
 * The document tree: one feature holding its description and scenarios; a
 * scenario holding its steps and, for an outline, its examples; a step holding
 * its table and its raw text.
 */
module Document {
  import opened Wrappers

  /** A tag `@name` or `@name(argument)`. */
  datatype Tag = Tag(name: string, arg: Option<string>)

  /** A `(name, value)` pair collected from a `@variable(name: value)` tag. */
  type Variable = (string, string)

  datatype Step = Step(
    id: int,
    sentence: string,
    path: string,
    line: nat,
    runnable: bool,
    table: seq<seq<string>>,
    rawText: seq<string>)

  /** One data row of an outline's examples table. */
  datatype Example = Example(data: seq<string>, path: string, line: nat)

  /** What distinguishes a plain scenario, a scenario outline and a scenario loop. */
  datatype ScenarioKind =
    | Plain
    | Outline(exampleKeyword: string, examplesHeader: seq<string>, examples: seq<Example>)
    | Loop(iterationsKeyword: string, iterations: nat)

  datatype Scenario = Scenario(
    id: int,
    keyword: string,
    sentence: string,
    path: string,
    line: nat,
    tags: seq<Tag>,
    preconditions: seq<Scenario>,
    variables: seq<Variable>,
    steps: seq<Step>,
    kind: ScenarioKind)

  datatype Feature = Feature(
    id: int,
    keyword: string,
    sentence: string,
    path: string,
    line: nat,
    tags: seq<Tag>,
    variables: seq<Variable>,
    description: seq<string>,
    scenarios: seq<Scenario>)

  /** `sentence in feature`: some scenario of the feature has this sentence. */
  predicate HasScenario(f: Feature, sentence: string) {
    exists i :: 0 <= i < |f.scenarios| && f.scenarios[i].sentence == sentence
  }

  /** The first of `scenarios` with this sentence. */
  function FirstWithSentence(scenarios: seq<Scenario>, sentence: string): (r: Option<nat>)
    ensures r.Some? ==> r.value < |scenarios| && scenarios[r.value].sentence == sentence
    ensures r.Some? ==> forall j :: 0 <= j < r.value ==> scenarios[j].sentence != sentence
    ensures r.None? ==> forall j :: 0 <= j < |scenarios| ==> scenarios[j].sentence != sentence
  {
    if scenarios == [] then None
    else if scenarios[0].sentence == sentence then Some(0)
    else match FirstWithSentence(scenarios[1..], sentence)
      case None => None
      case Some(k) => Some(k + 1)
  }

  /** `feature[sentence]`: the first scenario of the feature with this sentence, if there is one. */
  function FindScenario(f: Feature, sentence: string): (r: Option<Scenario>)
    ensures r.Some? <==> HasScenario(f, sentence)
    ensures r.Some? ==> r.value in f.scenarios && r.value.sentence == sentence
  {
    match FirstWithSentence(f.scenarios, sentence)
    case None => None
    case Some(k) => Some(f.scenarios[k])
  }

  /** How many identifiers a scenario's expansion takes beyond its own: its rows or its iterations. */
  function Expansion(s: Scenario): nat {
    match s.kind
    case Plain => 0
    case Outline(_, _, examples) => |examples|
    case Loop(_, iterations) => iterations
  }

  /**
   * The identifier the next scenario of a feature gets: one more than the
   * number of scenarios, plus the expansion of the last scenario only.
   */
  function NextScenarioId(scenarios: seq<Scenario>): (id: int)
    ensures id >= |scenarios| + 1
  {
    |scenarios| + 1 + (if scenarios == [] then 0 else Expansion(scenarios[|scenarios| - 1]))
  }

  /** No scenario but the last one affects the next identifier. */
  lemma NextScenarioIdOnlyLast(a: seq<Scenario>, b: seq<Scenario>, last: Scenario)
    requires |a| == |b|
    ensures NextScenarioId(a + [last]) == NextScenarioId(b + [last])
    ensures NextScenarioId(a + [last]) == |a| + 2 + Expansion(last)
  {
  }

  /**
   * Identifiers are not kept apart from the rows of earlier outlines: after an
   * outline with at least two rows and an outline with at least one, the next
   * scenario's identifier falls below the identifier of the second outline's
   * last row (rows take `outline.id + i`).
   */
  lemma NextScenarioIdMayReuseRowId(before: seq<Scenario>, a: Scenario, b: Scenario)
    requires a.kind.Outline? && |a.kind.examples| >= 2
    requires b.kind.Outline? && |b.kind.examples| >= 1
    requires b.id == NextScenarioId(before + [a])
    ensures NextScenarioId(before + [a, b]) <= b.id + |b.kind.examples| - 1
  {
  }

  /** The total of a sequence of counts. */
  function Sum(counts: seq<nat>): nat {
    if counts == [] then 0 else Sum(counts[..|counts| - 1]) + counts[|counts| - 1]
  }

  /**
   * `scenario.all_steps` counted: the steps of its preconditions (each with
   * their own preconditions' steps) followed by its own steps.
   */
  function AllStepCount(s: Scenario): (n: nat)
    ensures n >= |s.steps|
    decreases s
  {
    Sum(seq(|s.preconditions|, i requires 0 <= i < |s.preconditions| => AllStepCount(s.preconditions[i])))
      + |s.steps|
  }
}
