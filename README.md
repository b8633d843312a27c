# go-interpolatetext in Dafny

A model of the template engine of the Go package `interpolatetext`, together
with proofs about it.

The package cuts a template text into an ordered list of *parts*. A part is
either literal text or a *unit*. A pluggable argument parser builds a unit
from the body of each `${...}` placeholder. The text-map flavour
(`TextMapInterpolation`) has a parser that upper-cases each body into a key.
When the template is applied to a `map[string]string`, each key is looked up
in the map.

## Files

- `wrappers.dfy` (`Wrappers`): `Option`, `Result`, and one `Error` datatype.
  `Error` holds the four error values the package creates:
  - `ErrEmptyInterpolateArgument` and `ErrInterpolateArgumentParseFailed`, with their `Position` and `ParserError` fields;
  - `ErrTextMapInterpolateKeyNotFound` and `ErrCannotConvertDataIntoTextMap`.

  It also has `Other` for an error that a foreign parser or unit returns.
- `template.dfy` (`Template`): `templateBase.parseTemplate` and its reference definition.
  - `Tokenize` (with `Lex` and `LexBody`) is a grammar over the rest of the text. It carries the pending literal along.
  - `ParseTemplate` is the Go state machine as an imperative loop. That loop has the states Init, DollarSign, BraceStarted and BackSlash, and the cursors `partStart` and `partFinish`.
  - `ParseTemplate` is proved to return exactly `Tokenize`.
  - The lemmas state what `Tokenize` does on each shape of input.
- `render.dfy` (`Render`): `apply` of a part, and an *assumed* rendering of a parts sequence (see below).
- `textmap.dfy` (`TextMap`) covers the text-map flavour:
  - the key type and its `apply`;
  - the upper-casing argument parser;
  - the `TextMapInterpolation` class with its `Apply` method;
  - `NewTextMapInterpolation`;
  - the slice helpers.
- `template_scenarios.dfy` and `textmap_scenarios.dfy`: the cases of `template_test.go` and `textmap_test.go`, stated as lemmas and methods.

Parsers are total function values `string -> Result<U>`, where `U` is the
unit type. A unit's `apply` is a function `(U, D) -> (string, Option<Error>)`.
It returns a text plus an optional error, as `textMapInterpolationKey.apply`
and the test mock do. The interface declaration at `template.go:40` names a
single `string` result instead; the model follows the two implementations.
The tests' `newTemplateParseEngine(...).parse` is modelled as `parseTemplate`
called with the mock parser. The mock parser accepts every body and keeps it
unchanged.

### Rendering (assumed)

`TextMapInterpolation.Apply` delegates to `applyContent`, which is not part of
this model. `Render.RenderParts` is the behaviour assumed for it:
- the parts' `apply` results are concatenated in order;
- with `raiseError` set, the first failing part's error is the result;
- without `raiseError`, a failing part is written as `${` + its partial value + `}` and rendering goes on.

The lemmas `Render.RenderAppend`, `Render.RenderWithoutRaiseSucceeds`,
`Render.RenderRaiseFirstError` and `Render.RenderPoliciesAgree` are about this
assumed function. No source lines back them, so they have no row below.
`TextMap.TextMapInterpolation.Apply` uses two of them for its contract.

### Behaviour worth noting

The model keeps these traits of the code:
- `\` is not an escape. The BackSlash state is a sink: the machine never leaves it (`template.go:110-117`). The text up to and including the `\` becomes a literal, and every later character is dropped.
- There is no error for an unterminated placeholder. Input that ends inside `${` raises nothing: the open body becomes a trailing literal and the `${` is lost (`template.go:120-123`).
- Adjacent literals are never merged. A text cut by `${`, say, yields two literals when the body runs to the end.

## Model

| member | source | states |
|---|---|---|
| Template.ParseTemplate | template.go:62-125 | The state-machine loop returns exactly `Tokenize(text, parser)`, errors included. On success every part comes out of the text as `TokenizePartsOf` states. The loop invariant keeps `partStart <= partFinish <= idx <= len(text)` and, in each state, relates the cursors and the parts emitted so far to the rest of the grammar. |
| Template.TokenizePartsOf | template.go:81-123 | Every literal part is a non-empty contiguous slice of the template. Every unit is what the parser returned for the slice strictly between a `${` and the first `}` after it. |
| Template.InertTemplate | template.go:67-92 | A template with no backslash and no `${` parses to exactly one literal equal to the whole text, or to no parts when it is empty. Bare `{` and `}` and a `$` not followed by `{` are literal. |
| Template.InertLex | template.go:67-92 | From any point and with any pending literal, such text only extends the pending literal. |
| Template.LexPlainPrefix | template.go:69-78 | Text without `$` and `\` is copied into the pending literal and emits nothing. |
| Template.DollarStaysLiteral | template.go:89-91 | A `$` followed by anything but `{` goes back to Init. The `$` and the character after it both join the pending literal. |
| Template.LexBodyPrefix | template.go:93-94 | Inside a placeholder, text without `}` is appended to the body and emits nothing. |
| Template.Placeholder | template.go:79-109 | `a${b}rest`, with `a` plain and `b` non-empty and free of `}`: the parser gets exactly `b`. On success the parts are `a` as a literal (if non-empty), then the unit, then whatever `rest` parses to. On a parser error, parsing fails with `InterpolateArgumentParseFailed` at the index of `}`, carrying the parser's error unchanged. |
| Template.SinglePlaceholder | template_test.go:74-78 | The whole template `${x}`, with `x` non-empty and free of `}`, yields the one unit built from exactly `x`, or the parser's error at the index of `}`. |
| Template.EmptyPlaceholder | template.go:95-99 | `${}` after plain text fails with `EmptyInterpolateArgument`. Its position is the index of `}`, and no parts are returned. |
| Template.BackslashSink | template.go:110-117 | After a backslash the machine never leaves BackSlash. The text up to and including `\` is one literal, and the rest of the text (placeholders included) is dropped. |
| Template.Unterminated | template.go:120-123 | Input ending inside `${` raises no error. The text before `${` and the open body are two separate literals. |
| Template.NeverFailingParserLex | template.go:95-102 | With a parser that never fails, the only parse error is `EmptyInterpolateArgument`. |
| TemplateScenarios.CaseN0 | template_test.go:74-78 | `${ABCdEf}` parses to the single unit built from `ABCdEf`. |
| TemplateScenarios.CaseN1 | template_test.go:80-85 | `${ABCdEf}123` parses to the unit `ABCdEf`, then the literal `123`. |
| TemplateScenarios.CaseN2 | template_test.go:87-93 | `Abc${dEf}123` parses to the literal `Abc`, the unit `dEf`, then the literal `123`. |
| TemplateScenarios.EscapedDollarDropsRest | template.go:110-117 | `{dEf}123{Ghi}GK\$ABC` parses to the one literal `{dEf}123{Ghi}GK\`. |
| TemplateScenarios.EscapedPlaceholderDropped | template.go:93-117 | `123${Ghi}GK\${defghi}` parses to `123`, the unit `Ghi`, then `GK\`. The placeholder after the backslash is not parsed. |
| Render.ApplyPart | template.go:45-49 | A literal part applies to its own text with no error, for any data. A unit defers to its `apply`. |
| TextMap.ToUpper | textmap.go:41 | Upper-casing keeps the length and maps each character through ASCII upper-casing. |
| TextMap.ArgumentParser | textmap.go:40-43 | The text-map parser never fails. Its key has the body's length, is the body upper-cased character by character, and holds no lower-case letter. |
| TextMap.KeyParseIdempotent | textmap.go:40-43 | Parsing a key again gives the same key: every key is already upper case. |
| TextMap.LowerCaseKeyUnreachable | textmap.go:40-43 | No placeholder can ever produce a key holding a lower-case letter, so map entries under such keys are unreachable (`textmap.go:55-56`). |
| TextMap.TextMapParseFailsOnlyOnEmptyArgument | textmap.go:40-53 | A text-map template fails to parse only with `EmptyInterpolateArgument`. |
| TextMap.KeyApply | textmap.go:29-38 | On a map holding the key: the mapped value and no error. On a map lacking it: the key and `TextMapInterpolateKeyNotFound(key)`. On other data: the key and `CannotConvertDataIntoTextMap`. |
| TextMap.KeyApplyFailsExactlyOnMissingKey | textmap.go:29-38 | `apply` fails exactly when the data is not a text map holding the key. Whenever it fails, its partial value is the key. |
| TextMap.TextMapInterpolation.constructor | textmap.go:48 | A new template starts with no parts. |
| TextMap.TextMapInterpolation.Apply | textmap.go:57-59 | The result is the assumed rendering of the template's parts against the map. Without `raiseError` it never fails. When rendering with `raiseError` succeeds, the flag makes no difference to the text. |
| TextMap.NewTextMapInterpolationAsWritten | textmap.go:47-53 | As written: it succeeds exactly when the text parses, and passes the parse error on unchanged. A template it returns holds no parts. |
| TextMap.NewTextMapInterpolation | textmap.go:47-53 | Corrected: it succeeds exactly when the text parses, and its error can only be `EmptyInterpolateArgument`, passed on unchanged. The new template holds exactly the parsed parts. |
| TextMap.NewTextMapInterpolationSliceAsWritten | textmap.go:66-76 | As written, on top of the as-written constructor: it succeeds exactly when every text parses, with the input's length. On failure, the error is that of the first text that fails. Every template it returns holds no parts. |
| TextMap.NewTextMapInterpolationSlice | textmap.go:66-76 | Corrected, on top of the corrected constructor: it succeeds exactly when every text parses. The result has the input's length and order, each template holding its text's parts. On failure, the error is that of the first text that fails. |
| TextMap.ApplySlice | textmap.go:80-90 | It succeeds exactly when every template renders. The results have the slice's length and order, and the i-th is the rendering of the i-th template. On failure, the error is that of the first template that fails. Without `raiseError` it never fails. |
| TextMapScenarios.ParseD1 | textmap_test.go:8 | `Abc${dEf}Ghi${JK}L` parses to `Abc`, the key `DEF`, `Ghi`, the key `JK`, then `L`. |
| TextMapScenarios.ParseMno | textmap_test.go:29 | `Mno${dEf}` parses to `Mno`, then the key `DEF`. |
| TextMapScenarios.ParseJK | textmap_test.go:30 | `${JK}` parses to the key `JK`. |
| TextMapScenarios.ParseWWW | textmap_test.go:31 | `WWW` parses to the literal `WWW`. |
| TextMapScenarios.RenderD1 | textmap_test.go:12-22 | The parts of `Abc${dEf}Ghi${JK}L` render against the test map to `Abc-www-Ghi[JP-Skrt]L`. |
| TextMapScenarios.RenderMno | textmap_test.go:37-56 | The parts of `Mno${dEf}` render to `Mno-www-`. |
| TextMapScenarios.RenderJK | textmap_test.go:37-56 | The parts of `${JK}` render to `[JP-Skrt]`. |
| TextMapScenarios.RenderWWW | textmap_test.go:37-56 | The parts of `WWW` render to `WWW`. |
| TextMapScenarios.TextMapInterpolationD1 | textmap_test.go:7-24 | With the parts stored, the single-template test renders `Abc-www-Ghi[JP-Skrt]L`. |
| TextMapScenarios.TextMapInterpolationD1AsWritten | textmap_test.go:7-24 | With the code as written, the same test renders the empty text, not the expected one. |
| TextMapScenarios.ParseSliceD1 | textmap_test.go:27-36 | Corrected, with the parts stored: the four texts compile, in order, into four templates, each rendering to its expected text. |
| TextMapScenarios.TextMapInterpolationSliceD1 | textmap_test.go:26-57 | Corrected, with the parts stored: the slice test renders exactly the four expected texts, in order. |
| TextMapScenarios.TextMapInterpolationSliceD1AsWritten | textmap_test.go:26-57 | With the code as written, the slice test renders four empty texts, not the expected ones. |

## Left out

- The `Error()` methods' `fmt.Sprintf` messages (`template.go:17-19`, `template.go:35-37`, `textmap.go:13-15`) are presentation only. The error kinds and their fields are kept as `Error` constructors, which stand in for the two `newErr...` constructors.
- Go's `interface{}` data and its type assertion are replaced by the datatype `TextMap.Data` (a text map, or any other value).
- `TextMap.ToUpper`: upper-cases ASCII letters only, not Unicode case mapping as `strings.ToUpper` does.
- Positions and slices are character indices, not byte offsets. For non-ASCII text, Go's `range` gives byte offsets, and `partStart = idx + 1` in the BackSlash state can then slice through a multi-byte character. The model does not capture this.
- `applyContent` is not part of this model. `Render.RenderParts` is an assumption, and so is what `TextMap.TextMapInterpolation.Apply` and `TextMap.ApplySlice` render.
- The package has no escape handling, literal merging or unterminated-placeholder error; the model follows the code (see above).
- `reflect` type checks and the `testing.T` plumbing of the tests are left out; only their expected values are kept.
- Template.ParseTemplate: returns the parts it computes. The Go method returns only the error and drops the parts (see Findings). `TextMap.NewTextMapInterpolationAsWritten` shows what a Go caller actually gets.
- TextMap.NewTextMapInterpolationSlice: composes the corrected `TextMap.NewTextMapInterpolation`, so each template holds its parts. As written, each template holds no parts; `TextMap.NewTextMapInterpolationSliceAsWritten` models that (see Findings).

## Findings

| source | as written | input that shows it | evidently intended | confidence | as-written member | corrected member |
|---|---|---|---|---|---|---|
| template.go:63-124 | `parseTemplate` builds the parts in a local slice and returns without assigning it to `tpl.interpolateParts`. So every template built by `NewTextMapInterpolation` (`textmap.go:47-53`) has no parts and renders the empty text. | `NewTextMapInterpolation("Abc${dEf}Ghi${JK}L")`, then `Apply({DEF: "-www-", JK: "[JP-Skrt]"}, true)`, gives `""` with no error. | The parsed parts are stored in the template, and the same call renders `Abc-www-Ghi[JP-Skrt]L`, as `textmap_test.go:20` expects. | not executed | TextMapScenarios.TextMapInterpolationD1AsWritten | TextMapScenarios.TextMapInterpolationD1 |
| template.go:63-124 | The same dropped parts reach `NewTextMapInterpolationSlice` (`textmap.go:66-76`), which calls `NewTextMapInterpolation` for each text. | `NewTextMapInterpolationSlice(["Abc${dEf}Ghi${JK}L", "Mno${dEf}", "${JK}", "WWW"])`, then `Apply` with the same map and `raiseError` set, gives four empty texts with no error. | Each template holds its parts, and the slice renders `Abc-www-Ghi[JP-Skrt]L`, `Mno-www-`, `[JP-Skrt]` and `WWW`, as `textmap_test.go:45-50` expects. | not executed | TextMapScenarios.TextMapInterpolationSliceD1AsWritten | TextMapScenarios.TextMapInterpolationSliceD1 |
