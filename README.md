# radish feature-file parser and scenario outlines, in Dafny

radish is a behaviour-driven-development test runner. Scenarios are written
as Gherkin-style *feature files*. This project models two parts of it:

- **`FeatureParser`** reads a feature file line by line. It is a state
  machine with the states feature, scenario, step, step text, examples and
  examples row. It builds one `Feature` holding its `Scenario`s, `Step`s,
  step tables, step text, examples and tags. Three kinds of tag have extra
  effects:
  - `@precondition(file.feature: sentence)` imports a scenario from another
    feature file;
  - `@variable(name: value)` declares a variable;
  - any other tag is stored as it is.
- **`ScenarioOutline`** expands a scenario outline. It builds one scenario
  per examples row, replacing each `<column>` placeholder in the template
  steps with that row's cell. It also reports column widths for
  pretty-printing.

The project is organised as follows:

| file | module | contents |
|---|---|---|
| `wrappers.dfy` | `Wrappers` | `Option` and `Result` |
| `text.dfy` | `Text` | Python's `strip`, `split`, `join` and `replace` on strings, decimal digits |
| `document.dfy` | `Errors` | the errors the parser raises |
| `document.dfy` | `Document` | the document tree as datatypes, and scenario lookup and numbering |
| `detectors.dfy` | `Detectors` | the line detectors, written as explicit string functions instead of regular expressions |
| `machine.dfy` | `Machine` | each handler of the parser as a pure function over a `Config` value (a copy of the parser's fields), plus the invariant every reachable configuration keeps |
| `machine_laws.dfy` | `MachineLaws` | what the driver loop and the handlers do on each kind of line |
| `parser.dfy` | `Parser` | the class `FeatureParser`; its fields are reassigned by one method per handler, and each method is proved to change the fields exactly as the matching `Machine` function says |
| `outline.dfy` | `ScenarioOutlines` | the class `ScenarioOutline`, the `dict(zip(...))` mapping and placeholder substitution |

Two behaviours of the code may surprise a reader; the model follows the
code:

- **Scenario ids can repeat.** The code computes a new scenario's id from
  the number of scenarios, adjusted only by the scenario just before it.
  Two outlines in a row can therefore produce an id that an earlier
  outline's rows already use (`Document.NextScenarioIdMayReuseRowId`).
- **Materialised steps are not runnable.** The steps of an expanded outline
  are created with `runnable` false, and without the template step's table
  or text.

## Model

| member | source | states |
|---|---|---|
| `Document.FirstWithSentence` | radish/parser.py:336-339 | The index it returns holds a scenario with the sentence and no earlier one does; `None` means no scenario has it. |
| `Document.FindScenario` | radish/parser.py:336-339 | A scenario is found exactly when the feature contains the sentence, and the scenario found is one of the feature's scenarios with that sentence. |
| `Document.NextScenarioId` | radish/parser.py:206-212 | A new scenario's id is at least the number of existing scenarios plus one. |
| `Document.NextScenarioIdOnlyLast` | radish/parser.py:206-212 | Only the last scenario adjusts the id: it is `len + 1` plus that scenario's examples count or iterations. Two lists of equal length that end in the same scenario give the same id. |
| `Document.NextScenarioIdMayReuseRowId` | radish/parser.py:206-212 | When the outline just before outline `b` has at least two rows, the scenario after `b` gets an id no greater than `b.id + len(b.examples) - 1`, which lies inside the range of ids `b`'s rows take. |
| `Document.AllStepCount` | radish/parser.py:276-279 | The count that numbers a new step is at least the scenario's own step count. |
| `Detectors.DetectHeader` | radish/parser.py:354-394 | A header matches exactly when the line starts with the keyword followed by `:`. The sentence is stripped and shorter than the remainder. Its value is given by `DetectHeaderAnySpace`. |
| `Detectors.DetectHeaderAnySpace` | radish/parser.py:354-380 | `keyword:` followed by any run of white space and a stripped sentence is detected as exactly that sentence. This covers `Scenario:x` and `Scenario:   x`, and every stripped line that starts with the header. |
| `Detectors.DetectScenarioLoop` | radish/parser.py:410-423 | A match starts with the loop keyword and a space, and its sentence is stripped. |
| `Detectors.DetectScenarioLoopRoundTrip` | radish/parser.py:410-423 | `<loop keyword> <digits>:<rest>`, for any non-empty run of digits including leading zeros (`Loop 007: x`), is detected as `(strip(rest), int(digits))`. |
| `Detectors.DetectScenarioLoopShape` | radish/parser.py:410-423 | Every match has the form keyword, space, a non-empty digit run, `:` and a rest. It yields the stripped rest and the digits' value, which is a natural number. |
| `Detectors.DetectExamples` | radish/parser.py:396-408 | The examples keyword is detected exactly as a header with that keyword is; the rest of the line is ignored. |
| `Detectors.NameRun` | radish/parser.py:471 | The tag name is the longest prefix of characters that are neither whitespace nor `(`. |
| `Detectors.NameRunOf` | radish/parser.py:471 | A name of such characters followed by a stop character is measured exactly. |
| `Detectors.DetectTag` | radish/parser.py:462-475 | A tag line starts with `@`. Its name is non-empty and made of name characters. Its argument, if any, holds no `)`. |
| `Detectors.DetectTagWithArgument` | radish/parser.py:462-475 | `@name(arg)` followed by any text is detected as that name and argument; the text after `)` is ignored. |
| `Detectors.DetectTagWithoutArgument` | radish/parser.py:462-475 | `@name` at the end of the line, or followed by a character that is neither a name character nor `(`, is detected as that name with no argument. So `@a @b` gives only `a`. |
| `Detectors.DetectLanguage` | radish/parser.py:447-460 | A language is found exactly when the line starts with `# language: `, and it is the rest of the line. |
| `Detectors.StripAll` | radish/parser.py:234 | Every cell is stripped, one for one. |
| `Detectors.SplitRow` | radish/parser.py:282-292 | A line with k pipes gives k-1 cells, or none when there is no pipe. The cells are stripped and contain no `\|`. Their contents are given by `SplitRowOf`. |
| `Detectors.SplitRowOf` | radish/parser.py:291 | For any row `lead\|p1\|...\|pk\|trail`, whatever the spacing, the cells are `strip(p1) ... strip(pk)`; the text before the first and after the last `\|` is dropped. |
| `Detectors.DetectTable` | radish/parser.py:425-434 | A table row starts with `\|`, and is never a tag or a comment. |
| `Detectors.DetectStepText` | radish/parser.py:436-445 | Step text starts with `"""`, and is never a table row, a tag or a comment. |
| `Detectors.ParseVariable` | radish/parser.py:341-352 | It succeeds exactly when there is an argument containing `:`, giving a stripped name without `:` and a stripped value. Otherwise the tag is malformed. |
| `Detectors.ParseVariableRoundTrip` | radish/parser.py:341-352 | `name: value`, with no `:` in the name, parses to the stripped name and value. |
| `Detectors.ParsePreconditionArgument` | radish/parser.py:313-324 | A missing argument is malformed. A format error happens exactly when `.feature: ` does not occur. Otherwise the argument is `file.feature`, then `: `, then the sentence. |
| `Detectors.ParsePreconditionRoundTrip` | radish/parser.py:313-324 | `file.feature: sentence` splits at the first `.feature: `. |
| `Machine.WithLastKeepsDistinct` | radish/parser.py:276-279 | Replacing the last scenario by one with the same sentence keeps sentences distinct. |
| `Machine.AppendKeepsDistinct` | radish/parser.py:203-222 | Appending a scenario whose sentence is new keeps sentences distinct. |
| `Machine.LoadLanguage` | radish/parser.py:72-94 | The keywords load exactly when a code is given and known. No code and an unknown code are distinct errors. |
| `Machine.Initial` | radish/parser.py:52-70 | The initial configuration satisfies the invariant, starts at line 0 and has no feature. |
| `Machine.Start` | radish/parser.py:52-70 | Construction succeeds exactly when the language loads, and gives the initial configuration. |
| `Machine.ResolvePrecondition` | radish/parser.py:313-339 | A bad argument, a precondition cycle and a failure of the other file are each reported. Otherwise a scenario is returned exactly when the other feature has one with that sentence, and it is one of that feature's scenarios. |
| `Machine.BufferTag` | radish/parser.py:185-194 | The tag is appended to the buffered tags. A resolved precondition or a parsed variable is appended to its buffer, and nothing else changes. Only preconditions and variables can fail. |
| `Machine.DetectScenarioFamily` | radish/parser.py:174-201 | The detectors are tried in the order scenario, outline, loop. An empty scenario or outline sentence counts as no match. |
| `Machine.NewScenario` | radish/parser.py:206-221 | The new scenario's id is at least the scenario count plus one. It takes the header's sentence and kind, the current line and the buffered tags, preconditions and variables, and has no steps. Appended with a new sentence, it keeps the sentences distinct. |
| `Machine.HandleFeature` | radish/parser.py:141-166 | It keeps the invariant, the line and the keywords. It returns false exactly when the line is neither a feature header nor a tag. |
| `Machine.FeatureHeaderOpens` | radish/parser.py:161-166 | A feature header creates the feature with the buffered tags and variables, clears both buffers and moves to the scenario state. |
| `Machine.HandleScenario` | radish/parser.py:168-223 | It keeps the invariant, the line and the keywords, and never returns false. |
| `Machine.HandleExamples` | radish/parser.py:225-236 | It raises exactly when the last scenario is not an outline. |
| `Machine.HandleExamplesRow` | radish/parser.py:238-251 | It keeps the invariant and never returns false. |
| `Machine.HandleTable` | radish/parser.py:282-292 | It raises exactly when the last scenario has no step, and the error names the current line. |
| `Machine.ScanStepText` | radish/parser.py:300-307 | A closing delimiter leaves the block. The block is opened by a leading delimiter only from outside. Inside the block, the line closes it exactly when it ends with the delimiter. Inside an unclosed block, the line is content as it is. |
| `Machine.ScanOneLineBlock` | radish/parser.py:300-310 | `"""s"""` outside a block gives the content `s` and leaves the block closed. |
| `Machine.ScanKeepsLeadingDelimiterInside` | radish/parser.py:300-302 | Inside a block, a leading `"""` is not removed. |
| `Machine.HandleStepText` | radish/parser.py:294-311 | It raises exactly when there is content and the last scenario has no step. The in-block flag becomes the scan's result. |
| `Machine.NewStep` | radish/parser.py:276-279 | A new step's id exceeds the scenario's own step count. It holds the line as its sentence and the current line number, is runnable exactly when the scenario is plain, and has no table or text. |
| `Machine.HandleStep` | radish/parser.py:253-280 | It keeps the invariant, the line and the keywords, and never returns false. |
| `Machine.Dispatch` | radish/parser.py:129-139 | It keeps the invariant. Only the feature state can return false. |
| `Machine.Feed` | radish/parser.py:104-122 | An accepted line keeps the invariant and advances the line counter by one. |
| `Machine.Classify` | radish/parser.py:107-122 | An accepted stripped line keeps the invariant and the counter. |
| `Machine.Route` | radish/parser.py:118-122 | A second feature header, once a feature exists, is an error. |
| `Machine.Run` | radish/parser.py:103-124 | A run that succeeds ends in a configuration satisfying the invariant. |
| `Machine.Finish` | radish/parser.py:123-124 | A parse error is passed on. A finished run yields its feature, and a run that found no feature header fails with "no feature" naming the path. |
| `Machine.ParseDocument` | radish/parser.py:52-124 | An unknown or missing language is the result's error. A successful result is the feature of a successful run from the language's initial configuration. |
| `MachineLaws.FeedBlankLine` | radish/parser.py:105-108 | A blank line only advances the counter. |
| `MachineLaws.FeedCommentLine` | radish/parser.py:110-116 | A `#` line at most changes the keywords, and can only fail with an unsupported language. |
| `MachineLaws.FeedLanguagePragma` | radish/parser.py:110-116 | `# language: code` switches to that language's keywords if it is known, and fails naming the code otherwise. |
| `MachineLaws.FeedSecondFeature` | radish/parser.py:118-119 | A second feature header is refused with the multiple-features error. |
| `MachineLaws.FeedRefusedLine` | radish/parser.py:121-122 | A line the handler refuses is a syntax error at that line, and this happens only in the feature state. |
| `MachineLaws.RunCountsEveryLine` | radish/parser.py:104-105 | A successful run counts every physical line. |
| `MachineLaws.RunConcat` | radish/parser.py:104-122 | Running `a + b` is running `a`, then `b` from where `a` ended. An error in `a` stops the run. |
| `MachineLaws.RunBlankLines` | radish/parser.py:105-108 | Blank lines only advance the counter. |
| `MachineLaws.BlankDocumentHasNoFeature` | radish/parser.py:123-124 | A document of blank lines fails with "no feature". |
| `MachineLaws.FeedFeatureHeader` | radish/parser.py:161-166 | The first line `Feature: s` opens a feature with sentence `s` at line 1. |
| `MachineLaws.SingleFeatureHeader` | radish/parser.py:96-124 | A document made of only `Feature: s` parses to an empty feature with sentence `s`. |
| `MachineLaws.ScenarioHeaderAppendsOne` | radish/parser.py:203-222 | A duplicate sentence raises with the duplicate-scenario error; `Parser.FeatureParser.ParseScenario` then leaves the feature, the state and the line unchanged. Otherwise exactly one scenario is appended, earlier ones are kept and the id follows the numbering rule. The new scenario takes the buffered tags, preconditions and variables. The buffers are emptied and the state is step. |
| `MachineLaws.ScenarioLine` | radish/parser.py:168-223 | `Scenario: s` either raises on a duplicate or appends a plain scenario built from the buffers. |
| `MachineLaws.LoopLine` | radish/parser.py:199-222 | `<loop keyword> n: rest` appends a loop scenario with n iterations and the stripped rest as its sentence. |
| `MachineLaws.DescriptionLine` | radish/parser.py:196-197 | Any other line in the scenario state is appended to the feature description. |
| `MachineLaws.StepStateRedispatches` | radish/parser.py:260-262 | In the step state, a scenario-family header or a tag is handled by the scenario handler. |
| `MachineLaws.TagInStepState` | radish/parser.py:185-194 | An ordinary tag in the step state is buffered for the next scenario. |
| `MachineLaws.StepLine` | radish/parser.py:276-280 | Any other line appends one step to the last scenario only. The step is numbered from the all-steps count and is runnable exactly when the scenario is plain. |
| `MachineLaws.TableRowLine` | radish/parser.py:282-292 | A table row `\|p1\|...\|pk\|trail`, however spaced, adds `strip(p1) ... strip(pk)` to the last step's table and changes nothing else. |
| `MachineLaws.TableRowWithoutStep` | radish/parser.py:288-289 | A table row with no preceding step is an error at that line. |
| `MachineLaws.OneLineStepText` | radish/parser.py:294-311 | `"""s"""` adds `strip(s)` to the last step's text, and the state stays step. |
| `MachineLaws.OpenStepText` | radish/parser.py:264-266 | A bare `"""` enters the step-text state without adding text. |
| `MachineLaws.CloseStepText` | radish/parser.py:304-311 | `s"""` inside a block leaves it and appends `strip(s)` when `s` is non-empty. |
| `MachineLaws.ExamplesLine` | radish/parser.py:272-274 | The examples keyword moves to the examples state. |
| `MachineLaws.ExamplesHeaderLine` | radish/parser.py:225-236 | Any row `lead\|p1\|...\|pk\|trail`, however spaced, sets the outline's examples header to the stripped pieces, and the state becomes examples row. |
| `MachineLaws.ExamplesRowLine` | radish/parser.py:238-251 | Any such row that is not a scenario header appends one example of stripped cells, with the path and line. |
| `Parser.FeatureParser.constructor` | radish/parser.py:52-70 | The new parser is in the initial configuration. |
| `Parser.FeatureParser.Create` | radish/parser.py:52-70 | Construction succeeds exactly when the language loads, and the parser starts in the initial configuration. |
| `Parser.FeatureParser.LoadLanguage` | radish/parser.py:72-94 | On success only the keywords change. On error nothing changes and the error is the model's. |
| `Parser.FeatureParser.PushTag` | radish/parser.py:185-194 | Returns and stores what `Machine.BufferTag` gives. The feature, the state and the line never change, even on error. |
| `Parser.FeatureParser.ParseFeature` | radish/parser.py:141-166 | Returns `HandleFeature`'s verdict and, when it does not raise, leaves the fields as it says. When it raises, the feature, the state and the line are unchanged. |
| `Parser.FeatureParser.ParseScenario` | radish/parser.py:168-223 | The same, for `HandleScenario`: a duplicate sentence or a bad tag argument raises with the feature, the state and the line unchanged. |
| `Parser.FeatureParser.ParseExamples` | radish/parser.py:225-236 | The same, for `HandleExamples`. |
| `Parser.FeatureParser.ParseExamplesRow` | radish/parser.py:238-251 | The same, for `HandleExamplesRow`. |
| `Parser.FeatureParser.ParseTable` | radish/parser.py:282-292 | The same, for `HandleTable`. |
| `Parser.FeatureParser.ParseStepText` | radish/parser.py:294-311 | The same, for `HandleStepText`. |
| `Parser.FeatureParser.ParseStep` | radish/parser.py:253-280 | The same, for `HandleStep`, except that a raise keeps only the feature and the line: step text without a step raises after the state has moved to step text, as in the source. |
| `Parser.FeatureParser.ParseContext` | radish/parser.py:129-139 | The same, for `Dispatch`, with a raise keeping the feature and the line. |
| `Parser.FeatureParser.FeedLine` | radish/parser.py:105-122 | One iteration of the loop succeeds exactly when `Feed` does, with the same error, and leaves the fields as `Feed` gives them. |
| `Parser.FeatureParser.ClassifyLine` | radish/parser.py:107-122 | The same, for `Classify`. |
| `Parser.FeatureParser.RouteLine` | radish/parser.py:118-122 | The same, for `Route`. |
| `Parser.FeatureParser.Parse` | radish/parser.py:96-124 | The result is what `Run` then the end-of-input check give. On success the fields hold `Run`'s final configuration. |
| `Parser.ParseFeatureFile` | radish/parser.py:52-124 | Constructing a parser and parsing gives `Machine.ParseDocument`. |
| `ScenarioOutlines.Zip` | radish/scenariooutline.py:42 | There are `min(len(header), len(data))` pairs, and the i-th pairs the i-th heading with the i-th cell. |
| `ScenarioOutlines.Insert` | radish/scenariooutline.py:42 | A dictionary store keeps the size or grows it by one. |
| `ScenarioOutlines.InsertLookup` | radish/scenariooutline.py:42 | After storing, the key maps to the new value and other keys are unchanged. |
| `ScenarioOutlines.InsertKeys` | radish/scenariooutline.py:42 | Storing keeps keys distinct and keeps insertion order. |
| `ScenarioOutlines.DictOfLastWins` | radish/scenariooutline.py:42 | `dict(pairs)` has distinct keys, and each key maps to its last pair's value. |
| `ScenarioOutlines.ZipToDictLastWins` | radish/scenariooutline.py:42 | `dict(zip(h, d))` has distinct keys and each key maps to its last column's cell. Columns beyond the shorter of header and row are ignored. |
| `ScenarioOutlines.DuplicateColumnTakesLaterCell` | radish/scenariooutline.py:42 | A heading used twice gives one entry holding the later cell. |
| `ScenarioOutlines.Placeholder` | radish/scenariooutline.py:63 | A placeholder is non-empty and delimited by `<` and `>`. |
| `ScenarioOutlines.Substitute` | radish/scenariooutline.py:62-64 | An empty mapping, and any sentence holding none of the mapping's placeholders, leaves the sentence unchanged. |
| `ScenarioOutlines.SubstituteOnePlaceholder` | radish/scenariooutline.py:62-64 | A sentence with one occurrence of `<key>` gets the value in its place. |
| `ScenarioOutlines.ReplaceSingle` | radish/scenariooutline.py:63 | Python `replace` swaps the only `<key>` for the value. |
| `Text.ReplaceAbsent` | radish/scenariooutline.py:63 | `str.replace` leaves a text without the pattern unchanged. |
| `Text.ReplaceFirst` | radish/scenariooutline.py:63 | `str.replace` replaces the first occurrence, keeps the text before it and resumes the scan right after it. |
| `ScenarioOutlines.NoAngleNoPlaceholder` | radish/scenariooutline.py:63 | Text without `<` contains no placeholder. |
| `ScenarioOutlines.NoAnglePrefix` | radish/scenariooutline.py:63 | Putting text without `<` in front does not create a placeholder. |
| `ScenarioOutlines.DistinctPlaceholders` | radish/scenariooutline.py:63 | Two different bracket-free keys have placeholders that do not occur inside each other. |
| `ScenarioOutlines.ZipTwoColumns` | radish/scenariooutline.py:42 | Two distinct headings map to their own cells, in header order. |
| `ScenarioOutlines.ReplaceFirstOfTwo` | radish/scenariooutline.py:63 | Replacing the first of two placeholders leaves the second in place. |
| `ScenarioOutlines.ReplaceSecondOfTwo` | radish/scenariooutline.py:63 | The second placeholder is then replaced. |
| `ScenarioOutlines.SubstituteTwoColumns` | radish/scenariooutline.py:42-46 | A step sentence with `<a>` and `<b>` receives both cells of the row. |
| `ScenarioOutlines.Materialise` | radish/scenariooutline.py:43-48 | The i-th scenario has id `id + i` and sentence `"<sentence> - row i"`. Its steps are numbered 1..n in template order, with the template's paths, the row's line and the row's cells substituted. They are not runnable and carry no table or text. |
| `ScenarioOutlines.PyIndex` | radish/scenariooutline.py:73-75 | A Python index is valid exactly when `-n <= index < n`, and a negative one counts from the end. |
| `ScenarioOutlines.Max` | radish/scenariooutline.py:73 | The maximum bounds every element and is one of them. |
| `ScenarioOutlines.ColumnWidths` | radish/scenariooutline.py:73-75 | The widths exist exactly when the index is valid for every row, and they are those cells' lengths. |
| `ScenarioOutlines.ScenarioOutline.FromScenario` | radish/scenariooutline.py:28-33 | The outline takes the scenario's fields and starts with no materialised scenarios. |
| `ScenarioOutlines.ScenarioOutline.ReplaceExamplesInSentence` | radish/scenariooutline.py:51-64 | The loop computes the substitution of every mapping entry in order. |
| `ScenarioOutlines.ScenarioOutline.BuildScenarios` | radish/scenariooutline.py:35-49 | Exactly one scenario is appended per example row, in row order. The i-th is the materialised row i. Earlier scenarios, the steps, the header and the examples are unchanged. |
| `ScenarioOutlines.ScenarioOutline.GetColumnWidth` | radish/scenariooutline.py:66-75 | With no rows it fails. Otherwise it succeeds exactly when the index is valid for the header and every row, and the width is at least the heading's and every cell's length and equals one of them. An invalid index is a column error. |

## Left out

- Reading the file: the existence check, `io.open` and `readlines` are not modelled. The lines are a parameter.
- Language files: the loading of JSON language files is not modelled. The known languages are a map from code to keywords in `Env`. Automatic language detection (no code given) is an error.
- `os.path.join` and `dirname`: the path a precondition names is passed to the resolver unchanged, together with the current file's path.
- Precondition resolution: parsing another feature file is a parameter, `Env.resolve`. The host's recursion-depth failure becomes its `RecursionLimit` result, and that stands for a precondition cycle.
- `Machine.ResolvePrecondition`: the "no such scenario" error names the other feature's stored path rather than the joined file name.
- `after_parse` on the last scenario is not modelled. The source calls it in three places: at the end of parsing (radish/parser.py:126-127); when an examples row meets a scenario header (radish/parser.py:245-246); and when the step state meets a scenario header or a tag (radish/parser.py:260-261). Because a tag line leaves the state at step, the same scenario can be expanded once per tag line before the next header. `after_parse` is defined outside the two modelled files and is not part of this model, so the parsed scenarios are returned as the handlers built them.
- `all_steps` is not part of this model. Step numbering assumes it is the steps of the scenario's preconditions followed by its own steps.
- `Feature.__contains__` and `__getitem__` are not part of this model. They are taken as "some scenario has this sentence" and "the first scenario with this sentence".
- The "unsupported state" runtime error cannot happen, because the states form a datatype.
- After a handler raises, the parser methods promise that the feature and the line are unchanged, and all but `ParseStep` and `ParseContext` that the state is too. The tag buffers are not constrained, because the source appends a tag before its precondition or variable argument fails. `FeedLine`, `ClassifyLine` and `RouteLine` promise nothing about the fields after an error; no caller uses the parser after one.
- A `@variable` tag with no argument or no `:` crashes Python with an `AttributeError` or `ValueError`. The model reports it as `MalformedTagArgument`.
- `Detectors.ParsePreconditionArgument`: a `@precondition` tag with no argument passes `None` to `re.search`, which crashes Python with a `TypeError`. The model reports it as `MalformedTagArgument`.
- `Machine.HandleStepText`: step text with no step crashes Python with an `IndexError`; the model reports it as `StepTextWithoutStep`.
- Regular expressions are written as explicit string functions, and keywords are matched literally. The source's loop pattern inserts the loop keyword without escaping it, so a keyword holding `.`, `(`, `?` or `+` would match differently there; the model matches it as literal text. `strip` and `\s` remove the ASCII white space Python recognises: blank, tab, line feed, carriage return, vertical tab, form feed and U+001C to U+001F. Non-ASCII white space (U+0085, U+00A0, U+2000 and the like) is not modelled, and `\d` is limited to ASCII digits.
- The materialised scenario's reference to its parent outline is omitted. The steps' reference to their scenario is omitted too.
- `Parser.FeatureParser.Store`: writing all fields at once is a proof device. It has the same effect as the source's individual assignments.
- `ScenarioOutlines.ScenarioOutline.GetColumnWidth`: a column index that is not an integer (Python `TypeError`) is not modelled. With no example rows, Python raises an uncaught `ValueError` from `max`; the model returns `NoExamples` instead.
- `Machine.HandleScenario`: a `Scenario Outline:` header crashes the source as written. The outline constructor takes neither `tags` nor `preconditions` as keyword arguments, yet the parser passes both, so Python raises `TypeError`. The model follows the evidently intended behaviour: it appends the outline with the buffered tags and preconditions, as for the other scenario kinds.
