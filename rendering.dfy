/**
 * What PrintResult computes, as pure functions: the expected text of a value in
 * minimal or full mode, or the fault the original code would throw on it.
 */
module Rendering {
  import opened Wrappers
  import opened Joining
  import opened FormulaValues

  /** Row `k` is the first row of `rows` that holds a record. */
  predicate IsFirstPresent(rows: seq<Row>, k: int)
  {
    0 <= k < |rows| && rows[k].Present? && forall j :: 0 <= j < k ==> rows[j].Absent?
  }

  predicate NoPresentRow(rows: seq<Row>)
  {
    forall i :: 0 <= i < |rows| ==> rows[i].Absent?
  }

  /**
   * The table's column count: the number of fields of its first present row, or 0
   * when no row is present.
   */
  function ColumnCount(rows: seq<Row>): (n: nat)
    ensures forall k :: IsFirstPresent(rows, k) ==> n == |rows[k].fields|
    ensures NoPresentRow(rows) ==> n == 0
    ensures n > 0 ==> |rows| > 0
    ensures |rows| > 0 && rows[0].Present? ==> n == |rows[0].fields|
  {
    if |rows| == 0 then 0
    else if rows[0].Present? then |rows[0].fields|
    else
      var n := ColumnCount(rows[1..]);
      assert forall k :: IsFirstPresent(rows, k) ==> k > 0 && IsFirstPresent(rows[1..], k - 1);
      n
  }

  /** Every present row has at most `columnCount` fields, so the width pass stays in range. */
  predicate RowsFit(rows: seq<Row>, columnCount: nat)
  {
    forall i :: 0 <= i < |rows| && rows[i].Present? ==> |rows[i].fields| <= columnCount
  }

  /** The single-column table whose first row's only field is named Value. */
  predicate IsValueColumn(rows: seq<Row>)
  {
    ColumnCount(rows) == 1 && rows[0].Present? && rows[0].fields[0].name == ValueColumnName
  }

  /** `open` + text + `close`, or the failure unchanged. */
  function Enclose(open: string, r: Result<string, Fault>, close: string): Result<string, Fault>
  {
    if r.Failure? then r else Success(open + r.value + close)
  }

  /** A record field as PrintResult writes it: its name, a colon and its value's text. */
  function Labeled(name: string, r: Result<string, Fault>): Result<string, Fault>
  {
    if r.Failure? then r else Success(name + ":" + r.value)
  }

  /** The text of `v`, or the fault PrintResult(v, minimal) throws. */
  function Render(v: Value, minimal: bool, ser: Serializers): (r: Result<string, Fault>)
    ensures minimal ==> r.Success?
    decreases v, 2
  {
    match v
    case Blank => Success(if minimal then "" else "Blank()")
    case Error(messages) =>
      if minimal then Success("<error>")
      else if |messages| == 0 then Failure(NoErrorMessage)
      else Success("<Error: " + messages[0] + ">")
    case Untyped => Success(if minimal then "<untyped>" else UntypedNotice)
    case Text(s) => Success(if minimal then s else ser.stringLiteral(s))
    case Record(fields) => if minimal then Success("<record>") else RenderRecord(fields, ser)
    case Table(rows) => if minimal then Success("<table>") else RenderTable(rows, ser)
    case ScalarValue(x) => Success(ser.compactLiteral(x))
  }

  /** The field entries of a record, each value in full mode. */
  function FieldTexts(fields: seq<Field>, ser: Serializers): seq<Result<string, Fault>>
    decreases fields, 0
  {
    seq(|fields|, i requires 0 <= i < |fields| =>
      Labeled(fields[i].name, Render(fields[i].value, false, ser)))
  }

  /** The full text of a record with these fields. */
  function RenderRecord(fields: seq<Field>, ser: Serializers): Result<string, Fault>
    decreases fields, 1
  {
    Enclose("{", JoinResults(FieldTexts(fields, ser)), "}")
  }

  /** The items of a single-value-column table: each row's first field, in full mode. */
  function ValueColumnTexts(rows: seq<Row>, ser: Serializers): seq<Result<string, Fault>>
    decreases rows, 0
  {
    seq(|rows|, i requires 0 <= i < |rows| =>
      match rows[i]
      case Absent => Failure(NullRowValue)
      case Present(fields) =>
        if |fields| == 0 then Failure(EmptyRow) else Render(fields[0].value, false, ser))
  }

  /** The items of any other table: each row as a record, in full mode. */
  function RowTexts(rows: seq<Row>, ser: Serializers): seq<Result<string, Fault>>
    decreases rows, 0
  {
    seq(|rows|, i requires 0 <= i < |rows| =>
      match rows[i]
      case Absent => Failure(NullRowValue)
      case Present(fields) => RenderRecord(fields, ser))
  }

  /** The full text of a table with these rows. */
  function RenderTable(rows: seq<Row>, ser: Serializers): Result<string, Fault>
    decreases rows, 1
  {
    var columnCount := ColumnCount(rows);
    if columnCount == 0 then Success("Table()")
    else if !RowsFit(rows, columnCount) then Failure(ColumnOutOfRange)
    else if IsValueColumn(rows) then Enclose("[", JoinResults(ValueColumnTexts(rows, ser)), "]")
    else Enclose("[", JoinResults(RowTexts(rows, ser)), "]")
  }

  /** The length of a value's minimal text: what the width pass measures. */
  function CellWidth(v: Value, ser: Serializers): nat
  {
    |Render(v, true, ser).value|
  }

  function Max(a: int, b: int): int { if a < b then b else a }

  /** Row `i` has a field in `column`. */
  predicate HasCell(rows: seq<Row>, i: int, column: nat)
  {
    0 <= i < |rows| && rows[i].Present? && column < |rows[i].fields|
  }

  /**
   * The width the dead width pass records for `column`: the widest minimal text in that
   * column over the present rows, 0 when no row reaches that column.
   */
  function ColumnWidth(rows: seq<Row>, column: nat, ser: Serializers): nat
  {
    if |rows| == 0 then 0
    else
      var last := rows[|rows| - 1];
      var w := ColumnWidth(rows[..|rows| - 1], column, ser);
      if last.Present? && column < |last.fields| then Max(w, CellWidth(last.fields[column].value, ser))
      else w
  }

  /** The recorded width bounds every cell of its column and is the width of one of them. */
  lemma {:induction false} ColumnWidthIsWidest(rows: seq<Row>, column: nat, ser: Serializers)
    ensures forall i :: HasCell(rows, i, column) ==>
      CellWidth(rows[i].fields[column].value, ser) <= ColumnWidth(rows, column, ser)
    ensures ColumnWidth(rows, column, ser) == 0 ||
      exists i :: (HasCell(rows, i, column) &&
                   ColumnWidth(rows, column, ser) == CellWidth(rows[i].fields[column].value, ser))
  {
    if |rows| > 0 {
      var init := rows[..|rows| - 1];
      ColumnWidthIsWidest(init, column, ser);
      assert forall i :: HasCell(rows, i, column) && i < |rows| - 1 ==> HasCell(init, i, column);
      assert forall i :: HasCell(init, i, column) ==> HasCell(rows, i, column);
    }
  }

  /** Taking one more row into account updates exactly the columns that row reaches. */
  lemma ColumnWidthStep(rows: seq<Row>, i: nat, column: nat, ser: Serializers)
    requires i < |rows|
    ensures ColumnWidth(rows[..i + 1], column, ser)
         == if HasCell(rows, i, column)
            then Max(ColumnWidth(rows[..i], column, ser), CellWidth(rows[i].fields[column].value, ser))
            else ColumnWidth(rows[..i], column, ser)
  {
    assert rows[..i + 1][..i] == rows[..i];
  }
}
