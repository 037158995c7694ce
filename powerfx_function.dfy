/**
 * The PowerFxFunction class: its constructor's parameter rule and the static
 * PrintResult renderer, written as the loops of the original and proved to compute
 * the functions of module Rendering.
 */
module PowerFx {
  import opened Wrappers
  import opened Joining
  import opened FormulaValues
  import opened Rendering

  /** A parameter the function declares to its host. */
  datatype ParameterView = ParameterView(name: string, description: string, defaultValue: string)

  /** The single `input` parameter a function declared without parameters gets. */
  function DefaultParameterList(): seq<ParameterView>
  {
    [ParameterView("input", "Input string", "")]
  }

  class PowerFxFunction {
    var expression: string
    var hasSideEffects: bool
    var name: string
    var pluginName: string
    var description: string
    var parameters: seq<ParameterView>

    /** `parameters` is None where the caller passes null. */
    constructor (expression: string, hasSideEffects: bool, name: string, skillName: string,
                 description: string, parameters: Option<seq<ParameterView>>)
      ensures this.expression == expression && this.hasSideEffects == hasSideEffects
      ensures this.name == name && this.pluginName == skillName && this.description == description
      ensures |this.parameters| > 0
      ensures parameters.Some? && |parameters.value| > 0 ==> this.parameters == parameters.value
      ensures parameters.None? || |parameters.value| == 0 ==> this.parameters == DefaultParameterList()
    {
      this.expression := expression;
      this.hasSideEffects := hasSideEffects;
      this.name := name;
      this.pluginName := skillName;
      this.description := description;
      this.parameters :=
        if parameters.None? || |parameters.value| == 0 then DefaultParameterList() else parameters.value;
    }

    /**
     * Renders an evaluated result as display text. Minimal mode only shapes this call:
     * every nested value is rendered in full mode.
     */
    static method PrintResult(value: Value, minimal: bool, ser: Serializers)
      returns (result: Result<string, Fault>)
      ensures result == Render(value, minimal, ser)
      decreases value, 2
    {
      match value
      case Blank =>
        result := Success(if minimal then "" else "Blank()");
      case Error(messages) =>
        if minimal {
          result := Success("<error>");
        } else if |messages| == 0 {
          result := Failure(NoErrorMessage);
        } else {
          result := Success("<Error: " + messages[0] + ">");
        }
      case Untyped =>
        result := Success(if minimal then "<untyped>" else UntypedNotice);
      case Text(s) =>
        result := Success(if minimal then s else ser.stringLiteral(s));
      case Record(fields) =>
        if minimal {
          result := Success("<record>");
        } else {
          result := PrintRecord(fields, ser);
        }
      case Table(rows) =>
        if minimal {
          result := Success("<table>");
        } else {
          result := PrintTable(rows, ser);
        }
      case ScalarValue(x) =>
        result := Success(ser.compactLiteral(x));
    }

    /** The full-mode record branch: "{" then "name:value" entries joined by ", " then "}". */
    static method PrintRecord(fields: seq<Field>, ser: Serializers) returns (result: Result<string, Fault>)
      ensures result == RenderRecord(fields, ser)
      decreases fields, 1
    {
      ghost var items := FieldTexts(fields, ser);
      var separator := "";
      var resultString := "{";
      for i := 0 to |fields|
        invariant JoinResults(items[..i]).Success?
        invariant resultString == "{" + JoinResults(items[..i]).value
        invariant separator == if i == 0 then "" else Separator
      {
        JoinResultsStep(items, i);
        var entry := PrintResult(fields[i].value, false, ser);
        if entry.Failure? {
          JoinResultsFirstFailure(items, i);
          return Failure(entry.error);
        }
        resultString := resultString + separator + fields[i].name + ":" + entry.value;
        separator := Separator;
      }
      assert items[..|fields|] == items;
      result := Success(resultString + "}");
    }

    /** The full-mode table branch, from the column count to the closing bracket. */
    static method PrintTable(rows: seq<Row>, ser: Serializers) returns (result: Result<string, Fault>)
      ensures result == RenderTable(rows, ser)
      decreases rows, 2
    {
      var columnCount := CountColumns(rows);
      if columnCount == 0 {
        return Success("Table()");
      }
      var fits, columnWidth := MeasureColumns(rows, columnCount, ser);
      if !fits {
        return Failure(ColumnOutOfRange);
      }
      if columnWidth.Length == 1 && rows[0].Present? && rows[0].fields[0].name == ValueColumnName {
        result := PrintValueColumn(rows, ser);
      } else {
        result := PrintRows(rows, ser);
      }
    }

    /** The column count: the field count of the first present row, found by a loop that stops there. */
    static method CountColumns(rows: seq<Row>) returns (columnCount: nat)
      ensures columnCount == ColumnCount(rows)
    {
      columnCount := 0;
      var k := 0;
      while k < |rows|
        invariant k <= |rows|
        invariant columnCount == 0 && forall j :: 0 <= j < k ==> rows[j].Absent?
      {
        if rows[k].Present? {
          columnCount := Max(columnCount, |rows[k].fields|);
          break;
        }
        k := k + 1;
      }
      assert k < |rows| ==> IsFirstPresent(rows, k);
    }

    /** A single column named Value: the first field of every row, joined by ", " inside brackets. */
    static method PrintValueColumn(rows: seq<Row>, ser: Serializers) returns (result: Result<string, Fault>)
      ensures result == Enclose("[", JoinResults(ValueColumnTexts(rows, ser)), "]")
      decreases rows, 1
    {
      ghost var items := ValueColumnTexts(rows, ser);
      var separator := "";
      var resultString := "[";
      for i := 0 to |rows|
        invariant JoinResults(items[..i]).Success?
        invariant resultString == "[" + JoinResults(items[..i]).value
        invariant separator == if i == 0 then "" else Separator
      {
        JoinResultsStep(items, i);
        if rows[i].Absent? {
          // row.Value is null
          JoinResultsFirstFailure(items, i);
          return Failure(NullRowValue);
        }
        if |rows[i].fields| == 0 {
          // Fields.First() of a row without fields
          JoinResultsFirstFailure(items, i);
          return Failure(EmptyRow);
        }
        var item := PrintResult(rows[i].fields[0].value, false, ser);
        if item.Failure? {
          JoinResultsFirstFailure(items, i);
          return Failure(item.error);
        }
        resultString := resultString + separator + item.value;
        separator := Separator;
      }
      assert items[..|rows|] == items;
      result := Success(resultString + "]");
    }

    /** Any other table: every row rendered as a record, joined by ", " inside brackets. */
    static method PrintRows(rows: seq<Row>, ser: Serializers) returns (result: Result<string, Fault>)
      ensures result == Enclose("[", JoinResults(RowTexts(rows, ser)), "]")
      decreases rows, 1
    {
      ghost var items := RowTexts(rows, ser);
      var resultString := "[";
      var separator := "";
      for i := 0 to |rows|
        invariant JoinResults(items[..i]).Success?
        invariant resultString == "[" + JoinResults(items[..i]).value
        invariant separator == if i == 0 then "" else Separator
      {
        JoinResultsStep(items, i);
        if rows[i].Absent? {
          // PrintResult(null) reaches the serialiser through a null reference
          JoinResultsFirstFailure(items, i);
          return Failure(NullRowValue);
        }
        var item := PrintRecord(rows[i].fields, ser);
        if item.Failure? {
          JoinResultsFirstFailure(items, i);
          return Failure(item.error);
        }
        resultString := resultString + separator + item.value;
        separator := Separator;
      }
      assert items[..|rows|] == items;
      result := Success(resultString + "]");
    }

    /**
     * The width pass: for each column, the widest minimal text of its cells. The result
     * does not depend on it; it only fails when a row has more fields than
     * `columnCount`, which indexes past the end of the width array.
     */
    static method MeasureColumns(rows: seq<Row>, columnCount: nat, ser: Serializers)
      returns (fits: bool, columnWidth: array<int>)
      ensures fresh(columnWidth) && columnWidth.Length == columnCount
      ensures fits == RowsFit(rows, columnCount)
      ensures fits ==> forall c :: 0 <= c < columnCount ==> columnWidth[c] == ColumnWidth(rows, c, ser)
      decreases rows, 0
    {
      columnWidth := new int[columnCount](_ => 0);
      for i := 0 to |rows|
        invariant RowsFit(rows[..i], columnCount)
        invariant forall c :: 0 <= c < columnCount ==> columnWidth[c] == ColumnWidth(rows[..i], c, ser)
      {
        if rows[i].Present? {
          var fields := rows[i].fields;
          for column := 0 to |fields|
            invariant column <= columnCount
            invariant forall c :: 0 <= c < columnCount && c < column ==>
              columnWidth[c] == ColumnWidth(rows[..i + 1], c, ser)
            invariant forall c :: 0 <= c < columnCount && column <= c ==>
              columnWidth[c] == ColumnWidth(rows[..i], c, ser)
          {
            if column >= columnWidth.Length {
              // columnWidth[column] is past the end of the array
              assert !RowsFit(rows, columnCount) by {
                assert rows[i].Present? && |rows[i].fields| > columnCount;
              }
              return false, columnWidth;
            }
            var cell := PrintResult(fields[column].value, true, ser);
            ColumnWidthStep(rows, i, column, ser);
            columnWidth[column] := Max(columnWidth[column], |cell.value|);
          }
        }
        forall c | 0 <= c < columnCount && !HasCell(rows, i, c)
          ensures ColumnWidth(rows[..i + 1], c, ser) == ColumnWidth(rows[..i], c, ser)
        {
          ColumnWidthStep(rows, i, c, ser);
        }
        assert RowsFit(rows[..i + 1], columnCount) by {
          assert forall j :: 0 <= j <= i ==> rows[..i + 1][j] == rows[j];
          assert forall j :: 0 <= j < i ==> rows[..i][j] == rows[j];
        }
      }
      assert rows[..|rows|] == rows;
      fits := true;
    }
  }
}
