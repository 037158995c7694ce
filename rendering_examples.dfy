/**
 * Worked cases of the rendering, for any behaviour of the library serialisers:
 * the serialisers' texts appear unchanged inside the brackets and separators.
 */
module RenderingExamples {
  import opened Wrappers
  import opened Joining
  import opened FormulaValues
  import opened Rendering
  import opened RenderingFacts

  function Num(n: real): Value { ScalarValue(Number(n)) }

  lemma JoinTwo(a: string, b: string)
    ensures Join(Separator, [a, b]) == a + ", " + b
  {
    assert [a, b][..1] == [a];
  }

  lemma JoinThree(a: string, b: string, c: string)
    ensures Join(Separator, [a, b, c]) == a + ", " + b + ", " + c
  {
    assert [a, b, c][..2] == [a, b];
    JoinTwo(a, b);
  }

  /** {Name:"Ann", Age:30} renders as the two entries in stored order. */
  lemma RecordExample(ser: Serializers)
    ensures Render(Record([Field("Name", Text("Ann")), Field("Age", Num(30.0))]), false, ser)
         == Success("{Name:" + ser.stringLiteral("Ann") + ", Age:" + ser.compactLiteral(Number(30.0)) + "}")
  {
    var fields := [Field("Name", Text("Ann")), Field("Age", Num(30.0))];
    assert Render(fields[0].value, false, ser) == Success(ser.stringLiteral("Ann"));
    assert Render(fields[1].value, false, ser) == Success(ser.compactLiteral(Number(30.0)));
    assert FieldsRender(fields, ser);
    RecordText(fields, ser);
    var entries := FieldEntries(fields, ser);
    assert entries[0] == "Name:" + ser.stringLiteral("Ann");
    assert entries[1] == "Age:" + ser.compactLiteral(Number(30.0));
    assert entries == ["Name:" + ser.stringLiteral("Ann"), "Age:" + ser.compactLiteral(Number(30.0))];
    var a, b := ser.stringLiteral("Ann"), ser.compactLiteral(Number(30.0));
    JoinTwo("Name:" + a, "Age:" + b);
    assert Render(Record(fields), false, ser) == Success("{" + ("Name:" + a + ", " + ("Age:" + b)) + "}");
    assert "{" + ("Name:" + a + ", " + ("Age:" + b)) + "}" == "{Name:" + a + ", Age:" + b + "}";
  }

  /** Rows {Value:1}, {Value:2}, {Value:3} render as the flat list [1, 2, 3]. */
  lemma ValueColumnExample(ser: Serializers)
    ensures Render(Table([Present([Field("Value", Num(1.0))]),
                          Present([Field("Value", Num(2.0))]),
                          Present([Field("Value", Num(3.0))])]), false, ser)
         == Success("[" + ser.compactLiteral(Number(1.0)) + ", " + ser.compactLiteral(Number(2.0))
                    + ", " + ser.compactLiteral(Number(3.0)) + "]")
  {
    var rows := [Present([Field("Value", Num(1.0))]),
                 Present([Field("Value", Num(2.0))]),
                 Present([Field("Value", Num(3.0))])];
    var a, b, c := ser.compactLiteral(Number(1.0)), ser.compactLiteral(Number(2.0)), ser.compactLiteral(Number(3.0));
    assert Render(rows[0].fields[0].value, false, ser) == Success(a);
    assert Render(rows[1].fields[0].value, false, ser) == Success(b);
    assert Render(rows[2].fields[0].value, false, ser) == Success(c);
    assert IsValueColumn(rows);
    assert ValueColumnRenders(rows, ser);
    ValueColumnText(rows, ser);
    var entries := ValueColumnEntries(rows, ser);
    assert entries[0] == a && entries[1] == b && entries[2] == c;
    assert entries == [a, b, c];
    JoinThree(a, b, c);
    assert "[" + (a + ", " + b + ", " + c) + "]" == "[" + a + ", " + b + ", " + c + "]";
  }

  /** Only the first row's field name is checked: a later row named otherwise is still a list item. */
  lemma FirstRowNameDecidesExample(ser: Serializers)
    ensures Render(Table([Present([Field("Value", Num(1.0))]), Present([Field("Other", Num(2.0))])]), false, ser)
         == Success("[" + ser.compactLiteral(Number(1.0)) + ", " + ser.compactLiteral(Number(2.0)) + "]")
  {
    var rows := [Present([Field("Value", Num(1.0))]), Present([Field("Other", Num(2.0))])];
    var a, b := ser.compactLiteral(Number(1.0)), ser.compactLiteral(Number(2.0));
    assert Render(rows[0].fields[0].value, false, ser) == Success(a);
    assert Render(rows[1].fields[0].value, false, ser) == Success(b);
    assert IsValueColumn(rows);
    assert ValueColumnRenders(rows, ser);
    ValueColumnText(rows, ser);
    var entries := ValueColumnEntries(rows, ser);
    assert entries[0] == a && entries[1] == b;
    assert entries == [a, b];
    JoinTwo(a, b);
    assert "[" + (a + ", " + b) + "]" == "[" + a + ", " + b + "]";
  }

  /** The record text of two scalar fields named `x` and `y`. */
  lemma PairText(x: string, m: real, y: string, n: real, ser: Serializers)
    ensures Render(Record([Field(x, Num(m)), Field(y, Num(n))]), false, ser)
         == Success("{" + x + ":" + ser.compactLiteral(Number(m)) + ", " + y + ":" + ser.compactLiteral(Number(n)) + "}")
  {
    var fields := [Field(x, Num(m)), Field(y, Num(n))];
    var a, b := ser.compactLiteral(Number(m)), ser.compactLiteral(Number(n));
    assert Render(fields[0].value, false, ser) == Success(a);
    assert Render(fields[1].value, false, ser) == Success(b);
    assert FieldsRender(fields, ser);
    RecordText(fields, ser);
    var entries := FieldEntries(fields, ser);
    assert entries[0] == x + ":" + a && entries[1] == y + ":" + b;
    assert entries == [x + ":" + a, y + ":" + b];
    JoinTwo(x + ":" + a, y + ":" + b);
    assert "{" + (x + ":" + a + ", " + (y + ":" + b)) + "}" == "{" + x + ":" + a + ", " + y + ":" + b + "}";
  }

  /** A table of two records, the first with two or more fields, is the list of the two record texts. */
  lemma TwoRecordRowsText(first: seq<Field>, second: seq<Field>, ser: Serializers)
    requires 2 <= |first| && |second| <= |first|
    requires Render(Record(first), false, ser).Success? && Render(Record(second), false, ser).Success?
    ensures Render(Table([Present(first), Present(second)]), false, ser)
         == Success("[" + Render(Record(first), false, ser).value + ", "
                    + Render(Record(second), false, ser).value + "]")
  {
    var rows := [Present(first), Present(second)];
    var r1, r2 := Render(Record(first), false, ser).value, Render(Record(second), false, ser).value;
    assert ColumnCount(rows) == |first|;
    assert RowsFit(rows, |first|);
    assert RowsRender(rows, ser);
    GeneralTableText(rows, ser);
    var entries := RowEntries(rows, ser);
    assert entries[0] == r1 && entries[1] == r2;
    assert entries == [r1, r2];
    JoinTwo(r1, r2);
    assert "[" + (r1 + ", " + r2) + "]" == "[" + r1 + ", " + r2 + "]";
  }

  /** Two rows of two scalar fields each render as the list of the two record texts. */
  lemma TwoPairRowsText(x: string, y: string, m1: real, n1: real, m2: real, n2: real, ser: Serializers)
    ensures Render(Table([Present([Field(x, Num(m1)), Field(y, Num(n1))]),
                          Present([Field(x, Num(m2)), Field(y, Num(n2))])]), false, ser)
         == Success("[" + ("{" + x + ":" + ser.compactLiteral(Number(m1)) + ", " + y + ":" + ser.compactLiteral(Number(n1)) + "}")
                    + ", " + ("{" + x + ":" + ser.compactLiteral(Number(m2)) + ", " + y + ":" + ser.compactLiteral(Number(n2)) + "}")
                    + "]")
  {
    PairText(x, m1, y, n1, ser);
    PairText(x, m2, y, n2, ser);
    TwoRecordRowsText([Field(x, Num(m1)), Field(y, Num(n1))], [Field(x, Num(m2)), Field(y, Num(n2))], ser);
  }

  /** Rows {X:1, Y:2} and {X:3, Y:4} render as a list of records. */
  lemma GeneralTableExample(ser: Serializers)
    ensures Render(Table([Present([Field("X", Num(1.0)), Field("Y", Num(2.0))]),
                          Present([Field("X", Num(3.0)), Field("Y", Num(4.0))])]), false, ser)
         == Success("[{X:" + ser.compactLiteral(Number(1.0)) + ", Y:" + ser.compactLiteral(Number(2.0))
                    + "}, {X:" + ser.compactLiteral(Number(3.0)) + ", Y:" + ser.compactLiteral(Number(4.0)) + "}]")
  {
    TwoPairRowsText("X", "Y", 1.0, 2.0, 3.0, 4.0, ser);
    var c1, c2 := ser.compactLiteral(Number(1.0)), ser.compactLiteral(Number(2.0));
    var c3, c4 := ser.compactLiteral(Number(3.0)), ser.compactLiteral(Number(4.0));
    assert "[" + ("{" + "X" + ":" + c1 + ", " + "Y" + ":" + c2 + "}") + ", "
               + ("{" + "X" + ":" + c3 + ", " + "Y" + ":" + c4 + "}") + "]"
        == "[{X:" + c1 + ", Y:" + c2 + "}, {X:" + c3 + ", Y:" + c4 + "}]";
  }
}
