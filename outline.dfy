/**
 * Scenario outlines: a templated scenario whose steps mention `<column>`
 * placeholders, and the concrete scenarios built from it, one per example row.
 */
module ScenarioOutlines {
  import opened Wrappers
  import opened Text
  import opened Document

  // ---------------------------------------------------------------------------
  // The mapping of one example row

  /** An ordered mapping from column name to cell, as a Python dict keeps it. */
  type Mapping = seq<(string, string)>

  function Min(a: nat, b: nat): nat {
    if a <= b then a else b
  }

  /** `zip(header, data)`: the pairs up to the shorter of the two. */
  function Zip(header: seq<string>, data: seq<string>): (pairs: Mapping)
    ensures |pairs| == Min(|header|, |data|)
    ensures forall i :: 0 <= i < |pairs| ==> pairs[i] == (header[i], data[i])
  {
    seq(Min(|header|, |data|), i requires 0 <= i < Min(|header|, |data|) => (header[i], data[i]))
  }

  /** Setting a key: an existing key keeps its place and takes the new value, a new key goes last. */
  function Insert(m: Mapping, key: string, value: string): (r: Mapping)
    ensures |r| == |m| || |r| == |m| + 1
  {
    if m == [] then [(key, value)]
    else if m[0].0 == key then [(key, value)] + m[1..]
    else [m[0]] + Insert(m[1..], key, value)
  }

  /** `dict(pairs)`: the pairs set one after the other. */
  function DictOf(pairs: Mapping): Mapping {
    if pairs == [] then [] else
      var last := pairs[|pairs| - 1];
      Insert(DictOf(pairs[..|pairs| - 1]), last.0, last.1)
  }

  /** `dict(zip(header, data))`: the mapping of one example row. */
  function ZipToDict(header: seq<string>, data: seq<string>): Mapping {
    DictOf(Zip(header, data))
  }

  /** The value of the first entry with this key. */
  function Lookup(m: Mapping, key: string): Option<string> {
    if m == [] then None
    else if m[0].0 == key then Some(m[0].1)
    else Lookup(m[1..], key)
  }

  predicate DistinctKeys(m: Mapping) {
    forall i, j :: 0 <= i < j < |m| ==> m[i].0 != m[j].0
  }

  /** The value of the last pair with this key: the reference for what a dict built from the pairs holds. */
  function LastValue(pairs: Mapping, key: string): Option<string> {
    if pairs == [] then None
    else if pairs[|pairs| - 1].0 == key then Some(pairs[|pairs| - 1].1)
    else LastValue(pairs[..|pairs| - 1], key)
  }

  lemma {:induction false} InsertLookup(m: Mapping, key: string, value: string, k: string)
    ensures Lookup(Insert(m, key, value), k) == if k == key then Some(value) else Lookup(m, k)
    decreases |m|
  {
    if m != [] && m[0].0 != key {
      var r := Insert(m, key, value);
      assert r[0] == m[0] && r[1..] == Insert(m[1..], key, value);
      InsertLookup(m[1..], key, value, k);
    }
  }

  lemma {:induction false} InsertKeys(m: Mapping, key: string, value: string)
    requires DistinctKeys(m)
    ensures DistinctKeys(Insert(m, key, value))
    ensures forall i :: 0 <= i < |Insert(m, key, value)| ==>
      Insert(m, key, value)[i].0 == key || exists j :: 0 <= j < |m| && m[j].0 == Insert(m, key, value)[i].0
    decreases |m|
  {
    var r := Insert(m, key, value);
    if m == [] {
    } else if m[0].0 == key {
      assert forall i :: 1 <= i < |r| ==> r[i] == m[i];
    } else {
      var tail := Insert(m[1..], key, value);
      InsertKeys(m[1..], key, value);
      assert r == [m[0]] + tail;
      forall i | 1 <= i < |r| ensures r[i].0 != m[0].0 {
        assert r[i] == tail[i - 1];
        if tail[i - 1].0 != key {
          var j :| 0 <= j < |m[1..]| && m[1..][j].0 == tail[i - 1].0;
          assert m[j + 1].0 == r[i].0;
        }
      }
      forall i | 0 <= i < |r| && r[i].0 != key ensures exists j :: 0 <= j < |m| && m[j].0 == r[i].0 {
        if i == 0 {
          assert m[0].0 == r[i].0;
        } else {
          assert r[i] == tail[i - 1];
          var j :| 0 <= j < |m[1..]| && m[1..][j].0 == tail[i - 1].0;
          assert m[j + 1].0 == r[i].0;
        }
      }
    }
  }

  /** A dict built from pairs has each key once, and for each key the value of its last pair. */
  lemma {:induction false} DictOfLastWins(pairs: Mapping, k: string)
    ensures DistinctKeys(DictOf(pairs))
    ensures Lookup(DictOf(pairs), k) == LastValue(pairs, k)
    decreases |pairs|
  {
    if pairs != [] {
      var init := pairs[..|pairs| - 1];
      var last := pairs[|pairs| - 1];
      DictOfLastWins(init, k);
      InsertKeys(DictOf(init), last.0, last.1);
      InsertLookup(DictOf(init), last.0, last.1, k);
    }
  }

  /**
   * The mapping of a row has each column name once; a name's value is the
   * cell under its last column; columns beyond the shorter of header and row
   * play no part.
   */
  lemma ZipToDictLastWins(header: seq<string>, data: seq<string>, k: string)
    ensures DistinctKeys(ZipToDict(header, data))
    ensures Lookup(ZipToDict(header, data), k) == LastValue(Zip(header, data), k)
    ensures ZipToDict(header, data) == ZipToDict(header[..Min(|header|, |data|)], data[..Min(|header|, |data|)])
  {
    DictOfLastWins(Zip(header, data), k);
    var n := Min(|header|, |data|);
    assert Zip(header, data) == Zip(header[..n], data[..n]);
  }

  /** A header naming a column twice takes the later cell. */
  lemma DuplicateColumnTakesLaterCell(name: string, first: string, second: string)
    ensures Lookup(ZipToDict([name, name], [first, second]), name) == Some(second)
    ensures |ZipToDict([name, name], [first, second])| == 1
  {
    ZipToDictLastWins([name, name], [first, second], name);
    var pairs := Zip([name, name], [first, second]);
    assert pairs == [(name, first), (name, second)];
    assert pairs[..1] == [(name, first)];
    assert DictOf(pairs[..1]) == [(name, first)] by {
      assert pairs[..1][..0] == [];
    }
  }

  // ---------------------------------------------------------------------------
  // Substitution

  /** How a column is written in a step sentence. */
  function Placeholder(key: string): (p: string)
    ensures p != [] && p[0] == '<' && p[|p| - 1] == '>'
  {
    "<" + key + ">"
  }

  /**
   * Each entry in order replaces every occurrence of its placeholder in the
   * sentence by its value. An empty mapping, and more generally a sentence
   * holding none of the mapping's placeholders, leaves the sentence unchanged.
   */
  function Substitute(sentence: string, m: Mapping): (r: string)
    ensures m == [] ==> r == sentence
    ensures (forall i :: 0 <= i < |m| ==> !Occurs(sentence, Placeholder(m[i].0))) ==> r == sentence
    decreases |m|
  {
    if m == [] then sentence
    else
      var replaced := Replace(sentence, Placeholder(m[0].0), m[0].1);
      assert forall i :: 0 <= i < |m[1..]| ==> m[1..][i] == m[i + 1];
      assert (forall i :: 0 <= i < |m| ==> !Occurs(sentence, Placeholder(m[i].0))) ==> replaced == sentence by {
        if forall i :: 0 <= i < |m| ==> !Occurs(sentence, Placeholder(m[i].0)) {
          ReplaceAbsent(sentence, Placeholder(m[0].0), m[0].1);
        }
      }
      Substitute(replaced, m[1..])
  }

  /**
   * A sentence with one placeholder of a one-column row gets the cell in its
   * place and is otherwise unchanged.
   */
  lemma SubstituteOnePlaceholder(before: string, key: string, value: string, after: string)
    requires forall j: nat :: j < |before| ==> !OccursAt(before + Placeholder(key) + after, Placeholder(key), j)
    requires !Occurs(after, Placeholder(key))
    ensures Substitute(before + Placeholder(key) + after, [(key, value)]) == before + value + after
  {
    ReplaceFirst(before, Placeholder(key), after, value);
    ReplaceAbsent(after, Placeholder(key), value);
  }

  /** A placeholder after text without `<` and before text without it is replaced once. */
  lemma ReplaceSingle(before: string, key: string, value: string, after: string)
    requires '<' !in before
    requires !Occurs(after, Placeholder(key))
    ensures Replace(before + Placeholder(key) + after, Placeholder(key), value) == before + value + after
  {
    var p := Placeholder(key);
    forall j: nat | j < |before| ensures !OccursAt(before + p + after, p, j) {
      assert (before + p + after)[j] == before[j];
    }
    ReplaceFirst(before, p, after, value);
    ReplaceAbsent(after, p, value);
  }

  /** Text without `<` holds no placeholder. */
  lemma NoAngleNoPlaceholder(s: string, key: string)
    requires '<' !in s
    ensures !Occurs(s, Placeholder(key))
  {
    var p := Placeholder(key);
    forall j: nat | j <= |s| ensures !OccursAt(s, p, j) {
      if j + |p| <= |s| {
        assert s[j..j + |p|][0] == s[j];
      }
    }
  }

  /** Text without `<` in front of text without a placeholder adds none. */
  lemma NoAnglePrefix(mid: string, rest: string, key: string)
    requires '<' !in mid
    requires !Occurs(rest, Placeholder(key))
    ensures !Occurs(mid + rest, Placeholder(key))
  {
    var p := Placeholder(key);
    var s := mid + rest;
    forall j: nat | j <= |s| ensures !OccursAt(s, p, j) {
      if j + |p| <= |s| {
        assert s[j..j + |p|][0] == s[j];
        if j >= |mid| {
          assert s[j..j + |p|] == rest[j - |mid|..j - |mid| + |p|];
          assert !OccursAt(rest, p, j - |mid|);
        }
      }
    }
  }

  /** The placeholder of one column name does not occur in that of another, when names hold no angle brackets. */
  lemma DistinctPlaceholders(a: string, b: string, after: string)
    requires a != b
    requires '<' !in a && '>' !in a && '<' !in b && '>' !in b
    requires '<' !in after
    ensures !Occurs(Placeholder(b) + after, Placeholder(a))
  {
    var pa := Placeholder(a);
    var s := Placeholder(b) + after;
    forall j: nat | j <= |s| && j + |pa| <= |s| ensures !OccursAt(s, pa, j) {
      var w := s[j..j + |pa|];
      assert w[0] == s[j];
      if j == 0 {
        if |a| < |b| {
          assert s[|a| + 1] == Placeholder(b)[|a| + 1] == b[|a|];
          assert w[|a| + 1] == b[|a|] != pa[|a| + 1];
        } else if |a| == |b| {
          if w == pa {
            forall i | 0 <= i < |a| ensures a[i] == b[i] {
              assert w[i + 1] == b[i] && pa[i + 1] == a[i];
            }
          }
        } else {
          assert w[|b| + 1] == '>' != pa[|b| + 1];
        }
      } else if j <= |b| {
        assert s[j] == b[j - 1];
      } else if j > |b| + 1 {
        assert s[j] == after[j - |b| - 2];
      }
    }
  }

  /** The mapping of a row under two distinct column names holds both, in header order. */
  lemma ZipTwoColumns(a: string, b: string, va: string, vb: string)
    requires a != b
    ensures ZipToDict([a, b], [va, vb]) == [(a, va), (b, vb)]
  {
    var pairs := Zip([a, b], [va, vb]);
    assert pairs == [(a, va), (b, vb)];
    assert pairs[..1] == [(a, va)];
    assert pairs[..1][..0] == [];
    assert DictOf(pairs[..1]) == [(a, va)];
    assert Insert([(a, va)], b, vb) == [(a, va)] + Insert([], b, vb);
  }

  /** The first of two distinct placeholders is replaced, the second is left in place. */
  lemma ReplaceFirstOfTwo(before: string, a: string, mid: string, b: string, after: string, va: string)
    requires a != b
    requires '<' !in a && '>' !in a && '<' !in b && '>' !in b
    requires '<' !in before && '<' !in mid && '<' !in after
    ensures Replace(before + Placeholder(a) + mid + Placeholder(b) + after, Placeholder(a), va)
         == before + va + mid + Placeholder(b) + after
  {
    var pb := Placeholder(b);
    var tail := mid + pb + after;
    DistinctPlaceholders(a, b, after);
    assert tail == mid + (pb + after);
    NoAnglePrefix(mid, pb + after, a);
    assert before + Placeholder(a) + mid + pb + after == before + Placeholder(a) + tail;
    ReplaceSingle(before, a, va, tail);
    assert before + va + tail == before + va + mid + pb + after;
  }

  /** The second placeholder, after text without `<`, is replaced. */
  lemma ReplaceSecondOfTwo(front: string, b: string, after: string, vb: string)
    requires '<' !in front && '<' !in after
    ensures Replace(front + Placeholder(b) + after, Placeholder(b), vb) == front + vb + after
  {
    NoAngleNoPlaceholder(after, b);
    ReplaceSingle(front, b, vb, after);
  }

  /**
   * A sentence naming two distinct columns of a two-column row gets both
   * cells in their places and is otherwise unchanged.
   */
  lemma SubstituteTwoColumns(before: string, a: string, mid: string, b: string, after: string, va: string, vb: string)
    requires a != b
    requires '<' !in a && '>' !in a && '<' !in b && '>' !in b
    requires '<' !in before && '<' !in mid && '<' !in after && '<' !in va
    ensures Substitute(before + Placeholder(a) + mid + Placeholder(b) + after, ZipToDict([a, b], [va, vb]))
         == before + va + mid + vb + after
  {
    var sentence := before + Placeholder(a) + mid + Placeholder(b) + after;
    var front := before + va + mid;
    ZipTwoColumns(a, b, va, vb);
    ReplaceFirstOfTwo(before, a, mid, b, after, va);
    assert front + Placeholder(b) + after == before + va + mid + Placeholder(b) + after;
    ReplaceSecondOfTwo(front, b, after, vb);
    calc {
      Substitute(sentence, [(a, va), (b, vb)]);
      Substitute(Replace(sentence, Placeholder(a), va), [(b, vb)]);
      Substitute(front + Placeholder(b) + after, [(b, vb)]);
      Substitute(Replace(front + Placeholder(b) + after, Placeholder(b), vb), []);
      front + vb + after;
    }
  }

  // ---------------------------------------------------------------------------
  // The concrete scenarios

  /** A scenario built from one example row of an outline. */
  datatype ExampleScenario = ExampleScenario(
    id: int,
    keyword: string,
    sentence: string,
    path: string,
    line: nat,
    example: Example,
    steps: seq<Step>)

  /** The steps of a row: each template step's sentence substituted, numbered from 1, at the row's line. */
  function RowSteps(template: seq<Step>, m: Mapping, line: nat): seq<Step> {
    seq(|template|, j requires 0 <= j < |template| =>
      Step(j + 1, Substitute(template[j].sentence, m), template[j].path, line, false, [], []))
  }

  /**
   * The `i`-th scenario of an outline. It has identifier `id + i`, the
   * outline's sentence followed by ` - row i`, and one step per template step,
   * numbered 1..n in template order, each at the template step's path and the
   * row's line, not runnable, without table or text, and with the row's cells
   * substituted.
   */
  function Materialise(id: int, keyword: string, sentence: string, path: string, line: nat,
                       template: seq<Step>, header: seq<string>, example: Example, i: nat): (s: ExampleScenario)
    ensures s.id == id + i
    ensures s.sentence == sentence + " - row " + NatToString(i)
    ensures s.keyword == keyword && s.path == path && s.line == line && s.example == example
    ensures |s.steps| == |template|
    ensures forall j :: 0 <= j < |template| ==>
      && s.steps[j].id == j + 1
      && s.steps[j].sentence == Substitute(template[j].sentence, ZipToDict(header, example.data))
      && s.steps[j].path == template[j].path
      && s.steps[j].line == example.line
      && !s.steps[j].runnable && s.steps[j].table == [] && s.steps[j].rawText == []
  {
    ExampleScenario(id + i, keyword, sentence + " - row " + NatToString(i), path, line, example,
                    RowSteps(template, ZipToDict(header, example.data), example.line))
  }

  /** Why a column width cannot be given. */
  datatype ColumnError =
    | NoExamples     // the maximum of no widths
    | InvalidColumn  // the index is out of range for the header or for some row

  /** Python's index into a sequence of length `n`: negative indices count from the end. */
  function PyIndex(index: int, n: nat): (r: Option<nat>)
    ensures r.Some? <==> -(n as int) <= index < n
    ensures r.Some? ==> r.value < n && (r.value == index || r.value == n + index)
  {
    if 0 <= index < n then Some(index)
    else if -(n as int) <= index < 0 then Some(n + index)
    else None
  }

  /** The greatest of a non-empty list of widths. */
  function Max(xs: seq<nat>): (m: nat)
    requires xs != []
    ensures forall i :: 0 <= i < |xs| ==> xs[i] <= m
    ensures exists i :: 0 <= i < |xs| && xs[i] == m
  {
    if |xs| == 1 then xs[0]
    else
      var rest := Max(xs[1..]);
      assert forall i :: 1 <= i < |xs| ==> xs[i] == xs[1..][i - 1];
      if xs[0] >= rest then xs[0] else rest
  }

  /** The widths of one column over the rows, or none when some row is too short for the index. */
  function ColumnWidths(examples: seq<Example>, column: int): (r: Option<seq<nat>>)
    ensures r.Some? <==> forall i :: 0 <= i < |examples| ==> PyIndex(column, |examples[i].data|).Some?
    ensures r.Some? ==> |r.value| == |examples| && forall i :: 0 <= i < |examples| ==>
      r.value[i] == |examples[i].data[PyIndex(column, |examples[i].data|).value]|
  {
    if examples == [] then Some([])
    else
      match PyIndex(column, |examples[0].data|)
      case None => None
      case Some(k) =>
        match ColumnWidths(examples[1..], column)
        case None => None
        case Some(rest) => Some([|examples[0].data[k]|] + rest)
  }

  // ---------------------------------------------------------------------------
  // The outline

  class ScenarioOutline {
    const id: int
    const keyword: string
    const exampleKeyword: string
    const sentence: string
    const path: string
    const line: nat
    var steps: seq<Step>
    var examplesHeader: seq<string>
    var examples: seq<Example>
    var scenarios: seq<ExampleScenario>

    /** An outline as the parser leaves it: its template steps, header and rows, and nothing built yet. */
    constructor FromScenario(s: Scenario)
      requires s.kind.Outline?
      ensures id == s.id && keyword == s.keyword && exampleKeyword == s.kind.exampleKeyword
      ensures sentence == s.sentence && path == s.path && line == s.line
      ensures steps == s.steps && examplesHeader == s.kind.examplesHeader && examples == s.kind.examples
      ensures scenarios == []
    {
      id := s.id;
      keyword := s.keyword;
      exampleKeyword := s.kind.exampleKeyword;
      sentence := s.sentence;
      path := s.path;
      line := s.line;
      steps := s.steps;
      examplesHeader := s.kind.examplesHeader;
      examples := s.kind.examples;
      scenarios := [];
    }

    /** `sentence` with the row's cells in place of their placeholders, one mapping entry after the other. */
    static method ReplaceExamplesInSentence(sentence: string, examples: Mapping) returns (r: string)
      ensures r == Substitute(sentence, examples)
    {
      r := sentence;
      var k := 0;
      while k < |examples|
        invariant 0 <= k <= |examples|
        invariant Substitute(sentence, examples) == Substitute(r, examples[k..])
      {
        assert examples[k..][0] == examples[k] && examples[k..][1..] == examples[k + 1..];
        r := Replace(r, Placeholder(examples[k].0), examples[k].1);
        k := k + 1;
      }
    }

    /**
     * Appends one scenario per example row, in row order, to the scenarios
     * already built; the template steps, header and rows are not changed.
     */
    method BuildScenarios()
      modifies this
      ensures steps == old(steps) && examplesHeader == old(examplesHeader) && examples == old(examples)
      ensures |scenarios| == |old(scenarios)| + |examples|
      ensures scenarios[..|old(scenarios)|] == old(scenarios)
      ensures forall i :: 0 <= i < |examples| ==>
        scenarios[|old(scenarios)| + i] == Materialise(id, keyword, sentence, path, line, steps, examplesHeader, examples[i], i)
    {
      var rowId := 0;
      while rowId < |examples|
        decreases |examples| - rowId
        invariant 0 <= rowId <= |examples|
        invariant steps == old(steps) && examplesHeader == old(examplesHeader) && examples == old(examples)
        invariant |scenarios| == |old(scenarios)| + rowId
        invariant scenarios[..|old(scenarios)|] == old(scenarios)
        invariant forall i :: 0 <= i < rowId ==>
          scenarios[|old(scenarios)| + i] == Materialise(id, keyword, sentence, path, line, steps, examplesHeader, examples[i], i)
      {
        var example := examples[rowId];
        var mapping := ZipToDict(examplesHeader, example.data);
        ghost var target := Materialise(id, keyword, sentence, path, line, steps, examplesHeader, example, rowId);
        var scenario := ExampleScenario(id + rowId, keyword, sentence + " - row " + NatToString(rowId), path, line, example, []);
        var stepId := 0;
        assert |target.steps| == |steps|;
        while stepId < |steps|
          modifies {}
          invariant 0 <= stepId <= |steps| == |target.steps|
          invariant scenario == target.(steps := target.steps[..stepId])
        {
          var replaced := ReplaceExamplesInSentence(steps[stepId].sentence, mapping);
          var step := Step(stepId + 1, replaced, steps[stepId].path, example.line, false, [], []);
          assert target.steps[..stepId + 1] == target.steps[..stepId] + [step];
          scenario := scenario.(steps := scenario.steps + [step]);
          stepId := stepId + 1;
        }
        assert target.steps[..stepId] == target.steps;
        scenarios := scenarios + [scenario];
        rowId := rowId + 1;
      }
    }

    /**
     * The widest cell of a column over the header and every row. Python
     * indexing: a negative index counts from the end.
     */
    function GetColumnWidth(column: int): (r: Result<nat, ColumnError>)
      reads this
      ensures examples == [] ==> r == Err(NoExamples)
      ensures examples != [] ==>
        (r.Ok? <==> PyIndex(column, |examplesHeader|).Some?
                    && forall i :: 0 <= i < |examples| ==> PyIndex(column, |examples[i].data|).Some?)
      ensures r.Err? && examples != [] ==> r.error == InvalidColumn
      ensures r.Ok? ==> r.value >= |examplesHeader[PyIndex(column, |examplesHeader|).value]|
      ensures r.Ok? ==> forall i :: 0 <= i < |examples| ==>
        r.value >= |examples[i].data[PyIndex(column, |examples[i].data|).value]|
      ensures r.Ok? ==>
        (|| r.value == |examplesHeader[PyIndex(column, |examplesHeader|).value]|
         || exists i :: 0 <= i < |examples| && r.value == |examples[i].data[PyIndex(column, |examples[i].data|).value]|)
    {
      if examples == [] then Err(NoExamples)
      else
        match (ColumnWidths(examples, column), PyIndex(column, |examplesHeader|))
        case (Some(widths), Some(k)) =>
          var widest := Max(widths);
          var heading := |examplesHeader[k]|;
          Ok(if widest >= heading then widest else heading)
        case _ => Err(InvalidColumn)
    }
  }
}
