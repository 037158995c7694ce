/**
 * Properties of the rendering: the fixed texts of the leaf kinds, minimal mode, and
 * the closed forms of record and table texts.
 */
module RenderingFacts {
  import opened Wrappers
  import opened Joining
  import opened FormulaValues
  import opened Rendering

  lemma BlankText(ser: Serializers)
    ensures Render(Blank, true, ser) == Success("")
    ensures Render(Blank, false, ser) == Success("Blank()")
  {
  }

  /** Only full mode reads the first error message, so only full mode can fail on an empty list. */
  lemma ErrorText(messages: seq<string>, ser: Serializers)
    ensures Render(Error(messages), true, ser) == Success("<error>")
    ensures |messages| > 0 ==> Render(Error(messages), false, ser) == Success("<Error: " + messages[0] + ">")
    ensures |messages| == 0 ==> Render(Error(messages), false, ser) == Failure(NoErrorMessage)
  {
  }

  lemma UntypedText(ser: Serializers)
    ensures Render(Untyped, true, ser) == Success("<untyped>")
    ensures Render(Untyped, false, ser)
         == Success("<Untyped: Use Value, Text, Boolean, or other functions to establish the type>")
  {
  }

  /** Minimal mode shows the raw string; full mode is exactly the library's string literal. */
  lemma TextText(s: string, ser: Serializers)
    ensures Render(Text(s), true, ser) == Success(s)
    ensures Render(Text(s), false, ser) == Success(ser.stringLiteral(s))
  {
  }

  /** Scalars are the compact serialiser's text in both modes. */
  lemma ScalarText(x: Scalar, ser: Serializers)
    ensures Render(ScalarValue(x), true, ser) == Render(ScalarValue(x), false, ser)
    ensures Render(ScalarValue(x), false, ser) == Success(ser.compactLiteral(x))
  {
  }

  predicate SameKind(v: Value, w: Value)
  {
    || (v.Blank? && w.Blank?)
    || (v.Error? && w.Error?)
    || (v.Untyped? && w.Untyped?)
    || (v.Text? && w.Text?)
    || (v.Record? && w.Record?)
    || (v.Table? && w.Table?)
    || (v.ScalarValue? && w.ScalarValue?)
  }

  /**
   * Minimal mode looks at nothing but the kind of a value (its text, for Text and
   * scalars): contents of records, tables and errors never matter.
   */
  lemma MinimalIgnoresContents(v: Value, w: Value, ser: Serializers)
    requires SameKind(v, w) && !v.Text? && !v.ScalarValue?
    ensures Render(v, true, ser) == Render(w, true, ser)
    ensures v.Record? ==> Render(v, true, ser) == Success("<record>")
    ensures v.Table? ==> Render(v, true, ser) == Success("<table>")
  {
  }

  /** The fields of a record all render in full mode. */
  predicate FieldsRender(fields: seq<Field>, ser: Serializers)
  {
    forall i :: 0 <= i < |fields| ==> Render(fields[i].value, false, ser).Success?
  }

  /** The "name:value" entries of a record whose values all render. */
  function FieldEntries(fields: seq<Field>, ser: Serializers): (entries: seq<string>)
    requires FieldsRender(fields, ser)
    ensures |entries| == |fields|
    ensures forall i :: 0 <= i < |fields| ==>
      entries[i] == fields[i].name + ":" + Render(fields[i].value, false, ser).value
  {
    seq(|fields|, i requires 0 <= i < |fields| => fields[i].name + ":" + Render(fields[i].value, false, ser).value)
  }

  /**
   * A full record is "{" + its "name:value" entries joined by ", " + "}", in stored
   * order, every value in full mode; it fails exactly when one of its values does.
   */
  lemma RecordText(fields: seq<Field>, ser: Serializers)
    ensures Render(Record(fields), false, ser).Success? <==> FieldsRender(fields, ser)
    ensures FieldsRender(fields, ser) ==>
      Render(Record(fields), false, ser) == Success("{" + Join(Separator, FieldEntries(fields, ser)) + "}")
  {
    var items := FieldTexts(fields, ser);
    JoinResultsSucceeds(items);
    assert AllSucceed(items) <==> FieldsRender(fields, ser) by {
      assert forall i :: 0 <= i < |fields| ==>
        (items[i].Success? <==> Render(fields[i].value, false, ser).Success?);
    }
    if FieldsRender(fields, ser) {
      assert Values(items) == FieldEntries(fields, ser);
    }
  }

  lemma EmptyRecordText(ser: Serializers)
    ensures Render(Record([]), false, ser) == Success("{}")
  {
    assert FieldsRender([], ser);
    RecordText([], ser);
    assert FieldEntries([], ser) == [];
    assert "{" + Join(Separator, []) + "}" == "{}";
  }

  /** Either no row is present or there is a first present row. */
  lemma {:induction false} FirstPresentExists(rows: seq<Row>)
    ensures NoPresentRow(rows) || exists k :: IsFirstPresent(rows, k)
  {
    if |rows| > 0 && rows[0].Present? {
      assert IsFirstPresent(rows, 0);
    } else if |rows| > 0 {
      var tail := rows[1..];
      FirstPresentExists(tail);
      if NoPresentRow(tail) {
        forall i | 0 <= i < |rows|
          ensures rows[i].Absent?
        {
          if i > 0 { assert rows[i] == tail[i - 1]; }
        }
      } else {
        var k :| IsFirstPresent(tail, k);
        forall j | 0 <= j < k + 1
          ensures rows[j].Absent?
        {
          if j > 0 { assert rows[j] == tail[j - 1]; }
        }
        assert IsFirstPresent(rows, k + 1);
      }
    }
  }

  /**
   * The column count is zero exactly when no row is present or the first present row
   * has no fields.
   */
  lemma ColumnCountZero(rows: seq<Row>)
    ensures ColumnCount(rows) == 0 <==>
      NoPresentRow(rows) || exists k :: IsFirstPresent(rows, k) && rows[k].fields == []
  {
    FirstPresentExists(rows);
  }

  /** A full table is Table() exactly when its column count is zero. */
  lemma EmptyTableText(rows: seq<Row>, ser: Serializers)
    ensures Render(Table(rows), false, ser) == Success("Table()") <==> ColumnCount(rows) == 0
  {
    var r := Render(Table(rows), false, ser);
    assert r == RenderTable(rows, ser);
    var columnCount := ColumnCount(rows);
    if columnCount > 0 && RowsFit(rows, columnCount) {
      var inner := if IsValueColumn(rows) then JoinResults(ValueColumnTexts(rows, ser))
                   else JoinResults(RowTexts(rows, ser));
      assert r == Enclose("[", inner, "]");
      if inner.Success? {
        assert r.value[0] == '[';
      }
    }
  }

  /** Every row of a single Value column renders: present, with one field, that field rendering. */
  predicate ValueColumnRenders(rows: seq<Row>, ser: Serializers)
  {
    forall i :: 0 <= i < |rows| ==>
      rows[i].Present? && |rows[i].fields| == 1 && Render(rows[i].fields[0].value, false, ser).Success?
  }

  /** The texts of the first fields of a single Value column that renders. */
  function ValueColumnEntries(rows: seq<Row>, ser: Serializers): (entries: seq<string>)
    requires ValueColumnRenders(rows, ser)
    ensures |entries| == |rows|
    ensures forall i :: 0 <= i < |rows| ==> entries[i] == Render(rows[i].fields[0].value, false, ser).value
  {
    seq(|rows|, i requires 0 <= i < |rows| => Render(rows[i].fields[0].value, false, ser).value)
  }

  /**
   * A table whose first row holds a single field named Value is the list of every
   * row's first field, in full mode. Later rows' field names are not looked at, but
   * every row must be present with exactly one field.
   */
  lemma ValueColumnText(rows: seq<Row>, ser: Serializers)
    requires IsValueColumn(rows)
    ensures Render(Table(rows), false, ser).Success? <==> ValueColumnRenders(rows, ser)
    ensures ValueColumnRenders(rows, ser) ==>
      Render(Table(rows), false, ser) == Success("[" + Join(Separator, ValueColumnEntries(rows, ser)) + "]")
  {
    var items := ValueColumnTexts(rows, ser);
    JoinResultsSucceeds(items);
    if RowsFit(rows, 1) {
      assert AllSucceed(items) <==> ValueColumnRenders(rows, ser) by {
        assert forall i :: 0 <= i < |rows| ==>
          (items[i].Success? <==>
            rows[i].Present? && |rows[i].fields| == 1 && Render(rows[i].fields[0].value, false, ser).Success?);
      }
      if ValueColumnRenders(rows, ser) {
        assert Values(items) == ValueColumnEntries(rows, ser);
      }
    } else {
      var i :| 0 <= i < |rows| && rows[i].Present? && |rows[i].fields| > 1;
      assert !ValueColumnRenders(rows, ser);
    }
  }

  /** Every row of a general table renders: present, as a record that renders. */
  predicate RowsRender(rows: seq<Row>, ser: Serializers)
  {
    forall i :: 0 <= i < |rows| ==> rows[i].Present? && Render(Record(rows[i].fields), false, ser).Success?
  }

  /** The record texts of the rows of a general table that renders. */
  function RowEntries(rows: seq<Row>, ser: Serializers): (entries: seq<string>)
    requires RowsRender(rows, ser)
    ensures |entries| == |rows|
    ensures forall i :: 0 <= i < |rows| ==> entries[i] == Render(Record(rows[i].fields), false, ser).value
  {
    seq(|rows|, i requires 0 <= i < |rows| => Render(Record(rows[i].fields), false, ser).value)
  }

  /**
   * Any other table with columns (its first present row has fields) is the list of its
   * rows, each rendered as a full record; it needs every row present and no row wider
   * than the first present one.
   */
  lemma GeneralTableText(rows: seq<Row>, ser: Serializers)
    requires ColumnCount(rows) > 0 && !IsValueColumn(rows)
    ensures Render(Table(rows), false, ser).Success? <==>
      RowsFit(rows, ColumnCount(rows)) && RowsRender(rows, ser)
    ensures RowsFit(rows, ColumnCount(rows)) && RowsRender(rows, ser) ==>
      Render(Table(rows), false, ser) == Success("[" + Join(Separator, RowEntries(rows, ser)) + "]")
  {
    var items := RowTexts(rows, ser);
    JoinResultsSucceeds(items);
    assert AllSucceed(items) <==> RowsRender(rows, ser) by {
      assert forall i :: 0 <= i < |rows| ==>
        (items[i].Success? <==> rows[i].Present? && Render(Record(rows[i].fields), false, ser).Success?);
    }
    if RowsRender(rows, ser) {
      assert Values(items) == RowEntries(rows, ser);
    }
  }

  /**
   * An absent row is never shown as Blank(): it makes every table with columns fail
   * (one whose first present row has fields).
   */
  lemma AbsentRowFails(rows: seq<Row>, i: nat, ser: Serializers)
    requires ColumnCount(rows) > 0 && i < |rows| && rows[i].Absent?
    ensures Render(Table(rows), false, ser).Failure?
  {
    if IsValueColumn(rows) {
      ValueColumnText(rows, ser);
    } else {
      GeneralTableText(rows, ser);
    }
  }

  /** A row wider than the first present row breaks the width pass before any text is built. */
  lemma WideRowFails(rows: seq<Row>, i: nat, ser: Serializers)
    requires ColumnCount(rows) > 0 && i < |rows| && rows[i].Present?
    requires |rows[i].fields| > ColumnCount(rows)
    ensures Render(Table(rows), false, ser) == Failure(ColumnOutOfRange)
  {
  }
}
