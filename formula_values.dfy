/**
 * The evaluated Power Fx results that PrintResult renders, as a closed set of kinds,
 * and the two library serialisers it calls.
 */
module FormulaValues {

  /**
   * The scalar kinds (number, boolean, date and time, ...) that PrintResult does not
   * inspect itself: it hands them to the library's compact serialiser.
   */
  datatype Scalar =
    | Number(n: real)
    | Boolean(b: bool)
    | DateTime(ticks: int)
    | Guid(id: string)

  /** A named field of a record. */
  datatype Field = Field(name: string, value: Value)

  /**
   * A row of a table: the row's record, or no record at all (`row.Value` is null for a
   * blank or an error row).
   */
  datatype Row = Absent | Present(fields: seq<Field>)

  datatype Value =
    | Blank
    | Error(messages: seq<string>)
    | Untyped
    | Text(s: string)
    | Record(fields: seq<Field>)
    | Table(rows: seq<Row>)
    | ScalarValue(scalar: Scalar)

  /**
   * The serialisers of the Power Fx library, which this model does not see into:
   * `stringLiteral` is StringValue.ToExpression() (quoting and escaping), and
   * `compactLiteral` is FormulaValue.ToExpression with UseCompactRepresentation set.
   */
  datatype Serializers = Serializers(
    stringLiteral: string -> string,
    compactLiteral: Scalar -> string)

  /**
   * The exceptions PrintResult lets escape. Each stands for a crash of the original
   * code; none is raised on purpose.
   */
  datatype Fault =
    | NoErrorMessage     // Errors[0] of an error value with no errors
    | ColumnOutOfRange   // a row with more fields than the first present row
    | EmptyRow           // Fields.First() of a present row with no fields
    | NullRowValue       // row.Value of an absent row dereferenced

  const UntypedNotice: string :=
    "<Untyped: Use Value, Text, Boolean, or other functions to establish the type>"

  /** The field name that marks a single-column table as a plain list of values. */
  const ValueColumnName: string := "Value"
}
