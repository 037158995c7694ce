# PrintResult of SemanticKernel.PowerFx, modelled in Dafny

`PowerFxFunction` lets a Power Fx formula run as a Semantic Kernel function. The only
logic the repository owns is the static `PrintResult(FormulaValue value, bool minimal)`.
It turns an evaluated Power Fx result into display text:

- Blank, error, untyped, string, record, table and scalar values each have their own rule.
- Minimal mode shortens only the outermost value. Everything nested is rendered in full mode.
- A table's column count is the field count of its first present row.
- A table whose first row has a single field named `Value` is printed as a flat list.
- A column-width pass still runs for an aligned layout whose code is commented out (:211-256).

The model has these files:

- `formula_values.dfy` (module `FormulaValues`) holds the closed set of value kinds.
  A table row is `Present(fields)` or `Absent`, the case where `row.Value` is null.
  It also holds the two library serialisers, as function-valued fields of `Serializers`,
  and the four faults the C# code can throw.
- `rendering.dfy` (module `Rendering`) holds the specification. `Render(v, minimal, ser)` gives
  the expected text, or the fault that `PrintResult` throws. It is a pure recursive
  function, built from the same list-building step the loops perform (`Joining.JoinResults`).
- `powerfx_function.dfy` (module `PowerFx`) holds the class `PowerFxFunction`. Its constructor
  models the parameter default. Its static methods are `PrintResult` and its parts, written as
  the original's loops: the record loop, the `foreach`/`break` column count, the width pass
  over an `int` array, and the two table loops. Each method's postcondition equates its
  result with the specification.
- `rendering_facts.dfy` and `rendering_examples.dfy` hold the lemmas: the text of each kind,
  the closed forms of record and table texts, when tables fail, and worked examples.
- `joining.dfy` and `wrappers.dfy` hold the list-joining reference and `Option`/`Result`.

The code throws on some inputs, and the model makes each case a `Failure`:

- `NoErrorMessage`: full mode reads `Errors[0]` of an error value that has no errors.
- `ColumnOutOfRange`: the width pass indexes `columnWidth` past its end, because a row has
  more fields than the first present row.
- `EmptyRow`: the Value-column loop calls `Fields.First()` on a row without fields.
- `NullRowValue`: an absent row is dereferenced. The Value-column loop does this directly. The
  general loop does it by passing null to `PrintResult`, which ends in `ToExpression` on null.

A display routine might be expected never to fail and to show absent rows as `Blank()`.
This code does neither, and the model follows the code. An absent row makes every table
whose column count is above 0 (its first present row has fields) fail (`AbsentRowFails`).
A table with no present row, or whose first present row has no fields, is `Table()`.

The code calls `PrintResult(row.Value)` on each present row of a general table. That call
always takes the record branch, so the model calls that branch (`PrintRecord`) directly.
The table branch is likewise split out as `PrintTable`, with helpers for each of its loops.
The result of the width pass is never read. `PrintTable` is proved equal to `RenderTable`,
and `RenderTable` does not mention widths, so the widths cannot affect the text.
`MeasureColumns` still proves what the widths are: the widest minimal text in each column.

## Model

| member | source | states |
|---|---|---|
| `PowerFx.PowerFxFunction.PrintResult` | src/SemanticKernel.PowerFx/PowerFxFunction.cs:118-286 | the result is exactly the specified text or fault `Render(value, minimal, ser)`, for every value and mode |
| `PowerFx.PowerFxFunction.PrintRecord` | src/SemanticKernel.PowerFx/PowerFxFunction.cs:146-155 | the loop that grows `resultString` and switches the separator builds exactly `RenderRecord(fields)`, stopping at the first field whose value throws |
| `PowerFx.PowerFxFunction.PrintTable` | src/SemanticKernel.PowerFx/PowerFxFunction.cs:164-271 | the full-mode table branch yields exactly `RenderTable(rows)`, so the width array it builds has no effect on the text |
| `PowerFx.PowerFxFunction.CountColumns` | src/SemanticKernel.PowerFx/PowerFxFunction.cs:166-174 | the `foreach`/`break` loop yields the field count of the first present row, or 0 when none is present |
| `PowerFx.PowerFxFunction.MeasureColumns` | src/SemanticKernel.PowerFx/PowerFxFunction.cs:181-194 | the width pass succeeds exactly when no present row is wider than the column count; when it does, each array entry is that column's `ColumnWidth` |
| `PowerFx.PowerFxFunction.PrintValueColumn` | src/SemanticKernel.PowerFx/PowerFxFunction.cs:196-208 | the Value-column loop builds the bracketed list of each row's first field in full mode, failing on the first absent row, row without fields, or failing field |
| `PowerFx.PowerFxFunction.PrintRows` | src/SemanticKernel.PowerFx/PowerFxFunction.cs:257-270 | the general loop builds the bracketed list of each row as a full record, failing on the first absent row or failing record |
| `PowerFx.PowerFxFunction.constructor` | src/SemanticKernel.PowerFx/PowerFxFunction.cs:41-50 | the fields take the arguments; a null or empty parameter list becomes the single default `input` parameter of `DefaultParameterList` (:112-115), so the list is never empty |
| `Rendering.Render` | src/SemanticKernel.PowerFx/PowerFxFunction.cs:118-286 | minimal mode never throws, for any value |
| `Rendering.ColumnCount` | src/SemanticKernel.PowerFx/PowerFxFunction.cs:166-174 | the column count equals the field count of the first present row (whichever row that is), and is 0 when no row is present |
| `Rendering.ColumnWidthIsWidest` | src/SemanticKernel.PowerFx/PowerFxFunction.cs:181-194 | a recorded column width bounds the minimal-text length of every cell in that column and equals one of them (or is 0) |
| `Joining.JoinResultsSucceeds` | src/SemanticKernel.PowerFx/PowerFxFunction.cs:146-155 | a separator loop succeeds exactly when every item renders, and then yields the items joined by ", " in order |
| `Joining.JoinResultsFirstFailure` | src/SemanticKernel.PowerFx/PowerFxFunction.cs:148-153 | the first item that throws decides the outcome of the whole loop |
| `RenderingFacts.BlankText` | src/SemanticKernel.PowerFx/PowerFxFunction.cs:122-125 | Blank is "" when minimal and "Blank()" in full |
| `RenderingFacts.ErrorText` | src/SemanticKernel.PowerFx/PowerFxFunction.cs:126-129 | an error is "<error>" when minimal, "<Error: " + first message + ">" in full, and a fault in full mode when it has no messages |
| `RenderingFacts.UntypedText` | src/SemanticKernel.PowerFx/PowerFxFunction.cs:130-133 | untyped is "<untyped>" when minimal and the fixed notice in full |
| `RenderingFacts.TextText` | src/SemanticKernel.PowerFx/PowerFxFunction.cs:134-137 | a string is itself when minimal and exactly the library's string literal in full |
| `RenderingFacts.ScalarText` | src/SemanticKernel.PowerFx/PowerFxFunction.cs:273-283 | any other value is the compact serialiser's text, in either mode |
| `RenderingFacts.MinimalIgnoresContents` | src/SemanticKernel.PowerFx/PowerFxFunction.cs:138-163 | minimal output of every kind except strings and scalars depends only on the kind; records are "<record>" and tables "<table>" whatever they contain, even when empty |
| `RenderingFacts.RecordText` | src/SemanticKernel.PowerFx/PowerFxFunction.cs:146-155 | a full record renders exactly when all its values do, as "{" + the "name:value" entries joined by ", " in stored order + "}", with every value in full mode |
| `RenderingFacts.EmptyRecordText` | src/SemanticKernel.PowerFx/PowerFxFunction.cs:146-155 | a record without fields is "{}" |
| `RenderingFacts.FirstPresentExists` | src/SemanticKernel.PowerFx/PowerFxFunction.cs:167-174 | either no row is present or a first present row exists, which the column-count loop stops at |
| `RenderingFacts.ColumnCountZero` | src/SemanticKernel.PowerFx/PowerFxFunction.cs:166-179 | the column count is 0 exactly when no row is present or the first present row has no fields |
| `RenderingFacts.EmptyTableText` | src/SemanticKernel.PowerFx/PowerFxFunction.cs:176-179 | a full table is "Table()" exactly when its column count is 0 |
| `RenderingFacts.ValueColumnText` | src/SemanticKernel.PowerFx/PowerFxFunction.cs:196-208 | when the first row is present with a single field named Value, the table renders exactly when every row is present with one field that renders, as "[" + those fields' full texts joined by ", " + "]" |
| `RenderingFacts.GeneralTableText` | src/SemanticKernel.PowerFx/PowerFxFunction.cs:257-270 | any other table whose column count is above 0 (its first present row has fields) renders exactly when no row is wider than the first present row and every row is present and renders as a record, as "[" + the full record texts joined by ", " + "]" |
| `RenderingFacts.AbsentRowFails` | src/SemanticKernel.PowerFx/PowerFxFunction.cs:263-267 | an absent row in a table whose column count is above 0 (its first present row has fields) makes rendering fail; it is never shown as Blank() |
| `RenderingFacts.WideRowFails` | src/SemanticKernel.PowerFx/PowerFxFunction.cs:181-194 | a present row wider than the first present row makes the table fail with the width pass's out-of-range fault |
| `RenderingExamples.RecordExample` | src/SemanticKernel.PowerFx/PowerFxFunction.cs:146-155 | {Name:"Ann", Age:30} renders as "{Name:" + literal + ", Age:" + compact text + "}" |
| `RenderingExamples.ValueColumnExample` | src/SemanticKernel.PowerFx/PowerFxFunction.cs:196-208 | rows {Value:1}, {Value:2}, {Value:3} render as "[1, 2, 3]" (with the serialiser's texts) |
| `RenderingExamples.FirstRowNameDecidesExample` | src/SemanticKernel.PowerFx/PowerFxFunction.cs:197 | only the first row's field name is checked: {Value:1}, {Other:2} still renders as a flat list |
| `RenderingExamples.GeneralTableExample` | src/SemanticKernel.PowerFx/PowerFxFunction.cs:257-270 | rows {X:1, Y:2}, {X:3, Y:4} render as "[{X:1, Y:2}, {X:3, Y:4}]" (with the serialiser's texts) |

## Left out

- `InvokeAsync` (src/SemanticKernel.PowerFx/PowerFxFunction.cs:62-84) is not modelled. It is asynchronous host plumbing: it clones the context, calls the external `RecalcEngine.EvalAsync` and stores the text as `INPUT`.
- `Describe`, the obsolete properties and the `Set*` methods (:33-38, :52-60, :86-110) are not modelled. They only wrap host types or return `this`.
- The `RecalcEngine` field of the constructor is not modelled, because the evaluator is external.
- The internals of `StringValue.ToExpression()` and of `FormulaValue.ToExpression` with `UseCompactRepresentation` are not modelled. They belong to the Power Fx library. They appear as the arbitrary functions `Serializers.stringLiteral` and `Serializers.compactLiteral`, and every lemma holds for all of them. Number, date and other scalar formatting is therefore not modelled either. The `Scalar` kinds carry payloads that the renderer never inspects.
- The commented-out aligned-table branch (:211-256) is not modelled, because it is disabled.
- Exceptions are reduced to the four `Fault` kinds. Exception classes, messages and stack state are not modelled.
- A blank row and an error row are both `Absent`, because the code tests only `row.Value != null`.
- Null inputs other than absent rows are not modelled: a null top-level value, a null field value, a null error message. The value kinds of the model have no null.
- `MeasureColumns`: the widths are unbounded integers, so 32-bit `int` overflow of a width is not modelled. A width is a string length and cannot reach that bound.
- `MeasureColumns`: a width is the length of a Dafny string, counted in Unicode scalar values, while the C# `Length` counts UTF-16 code units, so a cell holding a character outside the Basic Multilingual Plane (an emoji) is one narrower in the model. The widths are never read, so the text and the faults are unaffected.
