/**
 * The line classifiers of the feature-file parser. Each takes one stripped
 * line (and the keyword table of the current language) and says whether, and
 * how, the line starts a construct. Keywords are matched as literal text.
 */
module Detectors {
  import opened Wrappers
  import opened Text
  import opened Errors
  import opened Document

  /** The six keywords of one language. */
  datatype Keywords = Keywords(
    feature: string,
    scenario: string,
    scenarioOutline: string,
    examples: string,
    scenarioLoop: string,
    iterations: string)

  /** What separates a keyword from its sentence. */
  const Delimiter: string := ":"

  /** What opens and closes a block of step text. */
  const TextDelimiter: string := "\"\"\""

  /** What opens a language pragma; the rest of the line is the language code. */
  const LanguagePragma: string := "# language: "

  /** The header of a precondition argument ends with this, and the scenario sentence follows it. */
  const FeatureSuffix: string := ".feature: "

  /** An optional text the source treats as true: present and not empty. */
  predicate Truthy(o: Option<string>) {
    o.Some? && o.value != []
  }

  // ---------------------------------------------------------------------------
  // Headers

  /**
   * A header `<keyword>:<rest>`: matches only when the line starts with the
   * keyword immediately followed by the delimiter, and gives the rest stripped.
   * Feature, scenario and scenario-outline headers all use this.
   */
  function DetectHeader(keyword: string, line: string): (r: Option<string>)
    ensures r.Some? <==> StartsWith(line, keyword + Delimiter)
    ensures r.Some? ==> Stripped(r.value) && |r.value| < |line| - |keyword|
  {
    if StartsWith(line, keyword + Delimiter) then Some(Strip(line[|keyword| + 1..])) else None
  }

  /**
   * A header `<keyword>:` followed by any run of white space and a stripped
   * sentence is detected with exactly that sentence. Every stripped line that
   * starts with `<keyword>:` has this shape.
   */
  lemma DetectHeaderAnySpace(keyword: string, w: string, sentence: string)
    requires forall i :: 0 <= i < |w| ==> IsSpace(w[i])
    requires Stripped(sentence)
    ensures DetectHeader(keyword, keyword + Delimiter + w + sentence) == Some(sentence)
  {
    var line := keyword + Delimiter + w + sentence;
    assert line[..|keyword| + 1] == keyword + Delimiter;
    assert line[|keyword| + 1..] == w + sentence;
    StripAfterSpaces(w, sentence);
  }

  function DetectFeature(kw: Keywords, line: string): Option<string> {
    DetectHeader(kw.feature, line)
  }

  function DetectScenario(kw: Keywords, line: string): Option<string> {
    DetectHeader(kw.scenario, line)
  }

  function DetectScenarioOutline(kw: Keywords, line: string): Option<string> {
    DetectHeader(kw.scenarioOutline, line)
  }

  /**
   * `<examples keyword>:` at the start of the line: detected exactly as the
   * other headers are, with the rest of the line ignored.
   */
  predicate DetectExamples(kw: Keywords, line: string)
    ensures DetectExamples(kw, line) <==> DetectHeader(kw.examples, line).Some?
  {
    StartsWith(line, kw.examples + Delimiter)
  }

  /**
   * A loop header `<loop keyword> <digits>:<rest>` at the start of the line:
   * the rest stripped and the value of the digits.
   */
  function DetectScenarioLoop(kw: Keywords, line: string): (r: Option<(string, nat)>)
    ensures r.Some? ==> StartsWith(line, kw.scenarioLoop + " ") && Stripped(r.value.0)
  {
    var prefix := kw.scenarioLoop + " ";
    if !StartsWith(line, prefix) then None else LoopTail(line[|prefix|..])
  }

  /** What follows the loop keyword and its blank: `<digits>:<rest>`. */
  function LoopTail(after: string): (r: Option<(string, nat)>)
    ensures r.Some? ==> Stripped(r.value.0)
  {
    var n := DigitRun(after);
    if n == 0 || n == |after| || after[n] != ':' then None
    else Some((Strip(after[n + 1..]), DigitsValue(after[..n])))
  }

  /** Text after a prefix is what remains once the prefix is cut off. */
  lemma AfterPrefix(prefix: string, after: string)
    ensures StartsWith(prefix + after, prefix) && (prefix + after)[|prefix|..] == after
  {
    assert (prefix + after)[..|prefix|] == prefix;
  }

  /**
   * A loop header written as `<loop keyword> <digits>:<rest>`, with any
   * non-empty run of digits (leading zeros included), gives back the rest
   * stripped and the value of the digits.
   */
  lemma DetectScenarioLoopRoundTrip(kw: Keywords, digits: string, rest: string)
    requires digits != [] && AllDigits(digits)
    ensures DetectScenarioLoop(kw, kw.scenarioLoop + " " + digits + Delimiter + rest) == Some((Strip(rest), DigitsValue(digits)))
  {
    var prefix := kw.scenarioLoop + " ";
    var tail := digits + Delimiter + rest;
    Regroup(kw.scenarioLoop, " ", digits, Delimiter, rest);
    assert DetectScenarioLoop(kw, prefix + tail) == LoopTail(tail) by {
      AfterPrefix(prefix, tail);
    }
    LoopTailOf(digits, rest);
  }

  lemma LoopTailOf(digits: string, rest: string)
    requires digits != [] && AllDigits(digits)
    ensures LoopTail(digits + Delimiter + rest) == Some((Strip(rest), DigitsValue(digits)))
  {
    var after := digits + (Delimiter + rest);
    assert digits + Delimiter + rest == after;
    DigitRunOf(digits, Delimiter + rest);
    assert after[..|digits|] == digits;
    assert after[|digits| + 1..] == rest;
  }

  /** A detected loop header has exactly the shape `<loop keyword> <digits>:<rest>`. */
  lemma DetectScenarioLoopShape(kw: Keywords, line: string) returns (digits: string, rest: string)
    requires DetectScenarioLoop(kw, line).Some?
    ensures line == kw.scenarioLoop + " " + digits + Delimiter + rest
    ensures digits != [] && AllDigits(digits)
    ensures DetectScenarioLoop(kw, line) == Some((Strip(rest), DigitsValue(digits)))
  {
    var prefix := kw.scenarioLoop + " ";
    var after := line[|prefix|..];
    digits, rest := LoopTailShape(after);
    assert line == prefix + after by {
      assert line == line[..|prefix|] + line[|prefix|..];
    }
    Regroup(kw.scenarioLoop, " ", digits, Delimiter, rest);
    assert DetectScenarioLoop(kw, line) == LoopTail(after);
    LoopTailOf(digits, rest);
  }

  /** Concatenation regrouped: five pieces joined in two groups are the five pieces joined in order. */
  lemma Regroup(a: string, b: string, c: string, d: string, e: string)
    ensures (a + b) + (c + d + e) == a + b + c + d + e
  {
  }

  lemma LoopTailShape(after: string) returns (digits: string, rest: string)
    requires LoopTail(after).Some?
    ensures after == digits + Delimiter + rest
    ensures digits != [] && AllDigits(digits)
  {
    var n := DigitRun(after);
    digits, rest := after[..n], after[n + 1..];
    assert after[n..] == [after[n]] + after[n + 1..];
    assert after == after[..n] + after[n..];
  }

  // ---------------------------------------------------------------------------
  // Tags

  /** A character that may appear in a tag name: neither white space nor `(`. */
  predicate IsNameChar(c: char) {
    !IsSpace(c) && c != '('
  }

  /** Length of the longest prefix of `s` made of tag-name characters. */
  function NameRun(s: string): (n: nat)
    ensures n <= |s|
    ensures forall i :: 0 <= i < n ==> IsNameChar(s[i])
    ensures n < |s| ==> !IsNameChar(s[n])
  {
    if s != [] && IsNameChar(s[0]) then 1 + NameRun(s[1..]) else 0
  }

  lemma {:induction false} NameRunOf(name: string, t: string)
    requires forall i :: 0 <= i < |name| ==> IsNameChar(name[i])
    requires t == [] || !IsNameChar(t[0])
    ensures NameRun(name + t) == |name|
  {
    if name != [] {
      assert (name + t)[1..] == name[1..] + t;
      NameRunOf(name[1..], t);
    } else {
      assert name + t == t;
    }
  }

  /**
   * A tag `@<name>` optionally followed by `(<argument>)`: the name is the
   * longest run after `@` of characters other than white space and `(`, and
   * the argument runs up to the first `)`; without a closing `)` there is no
   * argument.
   */
  function DetectTag(line: string): (r: Option<Tag>)
    ensures r.Some? ==> StartsWith(line, "@")
    ensures r.Some? ==> r.value.name != [] && forall i :: 0 <= i < |r.value.name| ==> IsNameChar(r.value.name[i])
    ensures r.Some? && r.value.arg.Some? ==> ')' !in r.value.arg.value
  {
    if line == [] || line[0] != '@' then None
    else
      var n := NameRun(line[1..]);
      if n == 0 then None
      else
        var name := line[1..1 + n];
        var after := line[1 + n..];
        if after != [] && after[0] == '(' then
          match IndexOf(after[1..], ")")
          case Some(j) =>
            var arg := after[1..][..j];
            assert ')' !in arg by {
              forall k | 0 <= k < |arg| ensures arg[k] != ')' {
                assert after[1..][k..k + 1] == [arg[k]];
                assert !OccursAt(after[1..], ")", k);
              }
            }
            Some(Tag(name, Some(arg)))
          case None => Some(Tag(name, None))
        else Some(Tag(name, None))
  }

  /**
   * `@<name>(<argument>)` followed by anything is detected with that name and
   * argument; the text after the `)` is ignored.
   */
  lemma DetectTagWithArgument(name: string, arg: string, t: string)
    requires name != [] && forall i :: 0 <= i < |name| ==> IsNameChar(name[i])
    requires ')' !in arg
    ensures DetectTag("@" + name + "(" + arg + ")" + t) == Some(Tag(name, Some(arg)))
  {
    var line := "@" + name + "(" + arg + ")" + t;
    assert line[1..] == name + ("(" + arg + ")" + t);
    NameRunOf(name, "(" + arg + ")" + t);
    var after := line[1 + |name|..];
    assert after == "(" + arg + ")" + t;
    assert after[1..] == arg + ")" + t;
    var closed := arg + ")" + t;
    var found := IndexOf(closed, ")");
    assert OccursAt(closed, ")", |arg|);
    forall j: nat | j < |arg| ensures !OccursAt(closed, ")", j) {
      assert closed[j..j + 1] == [arg[j]];
    }
    assert closed[..|arg|] == arg;
    assert line[1..1 + |name|] == name;
  }

  /**
   * `@<name>` followed by nothing, or by a character that is neither a name
   * character nor `(` (a blank before a second tag, say), is detected with that
   * name and no argument; only the first tag of the line is kept.
   */
  lemma DetectTagWithoutArgument(name: string, t: string)
    requires name != [] && forall i :: 0 <= i < |name| ==> IsNameChar(name[i])
    requires t == [] || (!IsNameChar(t[0]) && t[0] != '(')
    ensures DetectTag("@" + name + t) == Some(Tag(name, None))
  {
    var line := "@" + name + t;
    assert line[1..] == name + t;
    NameRunOf(name, t);
    assert line[1..1 + |name|] == name;
    assert line[1 + |name|..] == t;
  }

  // ---------------------------------------------------------------------------
  // Tables, step text and the language pragma

  /** A table row starts with `|`; such a line is never a tag or a comment. */
  predicate DetectTable(line: string)
    ensures DetectTable(line) ==> !StartsWith(line, "@") && !StartsWith(line, "#")
  {
    StartsWith(line, "|")
  }

  /** Step text starts with the triple-quote delimiter; such a line is never a table row, a tag or a comment. */
  predicate DetectStepText(line: string)
    ensures DetectStepText(line) ==> !DetectTable(line) && !StartsWith(line, "@") && !StartsWith(line, "#")
  {
    StartsWith(line, TextDelimiter)
  }

  /** `# language: <code>` at the start of the line: the code. */
  function DetectLanguage(line: string): (r: Option<string>)
    ensures r.Some? <==> StartsWith(line, LanguagePragma)
    ensures r.Some? ==> line == LanguagePragma + r.value
  {
    if StartsWith(line, LanguagePragma) then Some(line[|LanguagePragma|..]) else None
  }

  /** Every piece stripped. */
  function StripAll(pieces: seq<string>): (r: seq<string>)
    ensures |r| == |pieces|
    ensures forall i :: 0 <= i < |r| ==> r[i] == Strip(pieces[i])
  {
    if pieces == [] then [] else [Strip(pieces[0])] + StripAll(pieces[1..])
  }

  /**
   * The cells of a `|`-delimited row: the pieces strictly between the first
   * and the last `|`, each stripped. A line with `k` bars has `k - 1` cells.
   */
  function SplitRow(line: string): (cells: seq<string>)
    ensures |cells| == if Count(line, '|') == 0 then 0 else Count(line, '|') - 1
    ensures forall i :: 0 <= i < |cells| ==> Stripped(cells[i]) && '|' !in cells[i]
  {
    var pieces := Split(line, '|');
    SplitLength(line, '|');
    if |pieces| < 2 then []
    else
      var inner := pieces[1..|pieces| - 1];
      forall i | 0 <= i < |inner| ensures '|' !in StripAll(inner)[i] {
        StripKeepsAbsent(inner[i], '|');
      }
      StripAll(inner)
  }

  /**
   * A row with any text before its first and after its last `|`, and any
   * `|`-free pieces between: `<lead>|<p1>|...|<pk>|<trail>`.
   */
  function Row(lead: string, inner: seq<string>, trail: string): string
    requires inner != []
  {
    lead + "|" + Join(inner, '|') + "|" + trail
  }

  /**
   * Whatever the spacing, the cells of a row are its pieces between the first
   * and the last `|`, each stripped; the text outside them is dropped.
   */
  lemma SplitRowOf(lead: string, inner: seq<string>, trail: string)
    requires inner != []
    requires '|' !in lead && '|' !in trail
    requires forall i :: 0 <= i < |inner| ==> '|' !in inner[i]
    ensures SplitRow(Row(lead, inner, trail)) == StripAll(inner)
  {
    var line := Row(lead, inner, trail);
    RowPieces(lead, inner, trail);
    var pieces := Split(line, '|');
    assert pieces[1..|pieces| - 1] == inner;
  }

  /** A row with nothing before its first `|` is a table row, and neither step text nor a tag. */
  lemma TableRowShape(inner: seq<string>, trail: string)
    requires inner != []
    ensures DetectTable(Row([], inner, trail))
    ensures !DetectStepText(Row([], inner, trail)) && DetectTag(Row([], inner, trail)).None?
  {
    var line := Row([], inner, trail);
    assert line == ['|'] + (Join(inner, '|') + "|" + trail);
    assert line[0] == '|';
  }

  /** The pieces of a row are its lead, its inner pieces and its trail. */
  lemma RowPieces(lead: string, inner: seq<string>, trail: string)
    requires inner != []
    requires '|' !in lead && '|' !in trail
    requires forall i :: 0 <= i < |inner| ==> '|' !in inner[i]
    ensures Split(Row(lead, inner, trail), '|') == [lead] + inner + [trail]
  {
    var middle := Join(inner, '|');
    var rest := middle + ['|'] + trail;
    assert Row(lead, inner, trail) == lead + ['|'] + rest;
    SplitAround(lead, rest, '|');
    SplitAround(middle, trail, '|');
    SplitJoin(inner, '|');
    SplitWithoutSeparator(lead, '|');
    SplitWithoutSeparator(trail, '|');
  }

  // ---------------------------------------------------------------------------
  // Tag arguments

  /**
   * A `@variable` argument `Name: Value`, split at the first `:` with both
   * sides stripped. A missing argument or a missing `:` fails.
   */
  function ParseVariable(arg: Option<string>): (r: Result<Variable, ParseError>)
    ensures r.Ok? <==> arg.Some? && ':' in arg.value
    ensures r.Err? ==> r.error == MalformedTagArgument
    ensures r.Ok? ==> Stripped(r.value.0) && Stripped(r.value.1) && ':' !in r.value.0
  {
    match arg
    case None => Err(MalformedTagArgument)
    case Some(a) =>
      OccursChar(a, ':');
      match IndexOf(a, Delimiter)
      case None => Err(MalformedTagArgument)
      case Some(k) =>
        assert ':' !in a[..k] by {
          if ':' in a[..k] {
            var j :| 0 <= j < k && a[j] == ':';
            assert OccursAt(a, Delimiter, j);
          }
        }
        StripKeepsAbsent(a[..k], ':');
        Ok((Strip(a[..k]), Strip(a[k + 1..])))
  }

  /** `name: value` with no `:` in the name splits into the stripped name and value. */
  lemma ParseVariableRoundTrip(name: string, value: string)
    requires ':' !in name
    ensures ParseVariable(Some(name + Delimiter + value)) == Ok((Strip(name), Strip(value)))
  {
    var a := name + Delimiter + value;
    assert OccursAt(a, Delimiter, |name|);
    var found := IndexOf(a, Delimiter);
    forall j: nat | j < |name| ensures !OccursAt(a, Delimiter, j) {
      assert a[j..j + 1] == [name[j]];
    }
    assert a[..|name|] == name && a[|name| + 1..] == value;
  }

  /**
   * A `@precondition` argument `<file>.feature: <sentence>`: the text up to
   * and including the first `.feature` that is followed by `: `, and the text
   * after that `: `. A missing argument fails as a malformed argument, an
   * argument without `.feature: ` as a precondition format error.
   */
  function ParsePreconditionArgument(arg: Option<string>): (r: Result<(string, string), ParseError>)
    ensures arg.None? ==> r == Err(MalformedTagArgument)
    ensures arg.Some? ==> (r == Err(PreconditionFormat) <==> !Occurs(arg.value, FeatureSuffix))
    ensures r.Ok? ==> EndsWith(r.value.0, ".feature") && arg == Some(r.value.0 + FeatureSuffix[8..] + r.value.1)
  {
    match arg
    case None => Err(MalformedTagArgument)
    case Some(a) =>
      match IndexOf(a, FeatureSuffix)
      case None => Err(PreconditionFormat)
      case Some(k) =>
        assert a[k..k + 10] == FeatureSuffix;
        assert a[k..k + 8] == FeatureSuffix[..8] == ".feature";
        assert a[..k + 8][k..] == a[k..k + 8];
        assert a == a[..k + 8] + a[k + 8..k + 10] + a[k + 10..];
        Ok((a[..k + 8], a[k + 10..]))
  }

  /**
   * `<file>.feature: <sentence>` is split into `<file>.feature` and the
   * sentence, when `.feature: ` does not already occur earlier.
   */
  lemma ParsePreconditionRoundTrip(file: string, sentence: string)
    requires !Occurs(file + ".feature:", FeatureSuffix)
    ensures ParsePreconditionArgument(Some(file + FeatureSuffix + sentence)) == Ok((file + ".feature", sentence))
  {
    var a := file + FeatureSuffix + sentence;
    var head := file + ".feature:";
    assert a[..|head|] == head;
    assert OccursAt(a, FeatureSuffix, |file|);
    var found := IndexOf(a, FeatureSuffix);
    forall j: nat | j < |file| ensures !OccursAt(a, FeatureSuffix, j) {
      assert a[j..j + 10] == head[j..j + 10];
      assert !OccursAt(head, FeatureSuffix, j);
    }
    assert a[..|file| + 8] == file + ".feature";
    assert a[|file| + 10..] == sentence;
  }
}
