/** Concrete datasets and what the profiler reports for them. */
module Scenarios {
  import opened Wrappers
  import opened Cells
  import opened Decimal
  import opened Stats
  import opened Frequency
  import opened Ranking
  import opened Profiler
  import opened ProfileProperties

  function AgeCityRows(): seq<Row>
  {
    [map["age" := Str("30"), "city" := Str("Lima")],
     map["age" := Str("40"), "city" := Str("Lima")],
     map["age" := Str(""), "city" := Str("Cusco")]]
  }

  /** Ages "30", "40", "": numeric, min 30, max 40, average 35, one missing. */
  lemma AgeColumn(c: Coercion)
    requires c.parseNumber("30") == Some(30.0) && c.parseNumber("40") == Some(40.0)
    ensures ColumnOf(c, AgeCityRows(), "age") == Numeric(30.0, 40.0, 35.0, 1)
  {
    var ages := PresentValues(AgeCityRows(), "age");
    AgeValues(c);
    assert ColumnOf(c, AgeCityRows(), "age") ==
      Numeric(Min([30.0, 40.0]), Max([30.0, 40.0]), RoundTo2(Mean([30.0, 40.0])), 3 - |ages|);
    assert Min([30.0, 40.0]) == 30.0 && Max([30.0, 40.0]) == 40.0;
    AgeMean();
  }

  lemma AgeValues(c: Coercion)
    requires c.parseNumber("30") == Some(30.0) && c.parseNumber("40") == Some(40.0)
    ensures PresentValues(AgeCityRows(), "age") == [Str("30"), Str("40")]
    ensures IsNumericColumn(c, [Str("30"), Str("40")])
    ensures NumericValues(c, [Str("30"), Str("40")]) == [30.0, 40.0]
  {
    var rows := AgeCityRows();
    assert rows[..2][..1] == rows[..1];
    assert PresentValues(rows[..1], "age") == [Str("30")];
    assert PresentValues(rows[..2], "age") == [Str("30"), Str("40")];
    var ages := [Str("30"), Str("40")];
    assert ages[..1] == [Str("30")] && [Str("30")][..0] == [];
  }

  lemma AgeMean()
    ensures RoundTo2(Mean([30.0, 40.0])) == 35.0
  {
    assert Mean([30.0, 40.0]) == 35.0 by {
      assert [30.0, 40.0][..1] == [30.0] && [30.0][..0] == [];
      assert Sum([30.0]) == 30.0;
      assert Sum([30.0, 40.0]) == 70.0;
    }
    assert Hundredths(35.0) == 3500;
  }

  lemma CityValues(c: Coercion)
    ensures PresentValues(AgeCityRows(), "city") == [Str("Lima"), Str("Lima"), Str("Cusco")]
    ensures ColumnTexts(c, AgeCityRows(), "city") == ["Lima", "Lima", "Cusco"]
  {
    var rows := AgeCityRows();
    assert rows[..2][..1] == rows[..1];
    assert PresentValues(rows[..1], "city") == [Str("Lima")];
    assert PresentValues(rows[..2], "city") == [Str("Lima"), Str("Lima")];
    assert PresentValues(rows, "city") == [Str("Lima"), Str("Lima"), Str("Cusco")];
  }

  lemma CityFirstSeen()
    ensures FirstSeen(["Lima", "Lima", "Cusco"]) == ["Lima", "Cusco"]
  {
    var texts := ["Lima", "Lima", "Cusco"];
    assert texts[..2] == ["Lima", "Lima"] && texts[..2][..1] == ["Lima"];
    assert FirstSeen(["Lima"]) == ["Lima"] by {
      assert ["Lima"][..0] == [];
    }
    assert FirstSeen(["Lima", "Lima"]) == ["Lima"];
    assert "Cusco" != "Lima";
  }

  lemma CityTable()
    ensures TableEntries(["Lima", "Lima", "Cusco"]) == [Entry("Lima", 2), Entry("Cusco", 1)]
  {
    var texts := ["Lima", "Lima", "Cusco"];
    CityFirstSeen();
    CityEntryOrder();
    var m := multiset(texts);
    assert TableEntries(texts) == Entries(["Lima", "Cusco"], m);
    assert m == multiset{"Lima", "Lima", "Cusco"};
    assert "Cusco" != "Lima";
    assert m["Lima"] == 2 && m["Cusco"] == 1;
    CityEntries(m);
  }

  lemma CityEntryOrder()
    ensures EntryOrder(["Lima", "Cusco"]) == ["Lima", "Cusco"]
  {
    assert "Lima"[0] == 'L' && "Cusco"[0] == 'C';
    assert !IsArrayIndex("Lima") && !IsArrayIndex("Cusco");
    EntryOrderOfNamedKeys(["Lima", "Cusco"]);
  }

  lemma CityEntries(m: multiset<string>)
    requires m["Lima"] == 2 && m["Cusco"] == 1
    ensures Entries(["Lima", "Cusco"], m) == [Entry("Lima", 2), Entry("Cusco", 1)]
  {
    var e := Entries(["Lima", "Cusco"], m);
    assert e[0] == Entry("Lima", 2) && e[1] == Entry("Cusco", 1);
  }

  lemma CityLabels()
    ensures TopLabels(SortByCount([Entry("Lima", 2), Entry("Cusco", 1)]), 3) == ["Lima (67%)", "Cusco (33%)"]
  {
    var ranked := [Entry("Lima", 2), Entry("Cusco", 1)];
    assert SortByCount([Entry("Cusco", 1)]) == [Entry("Cusco", 1)];
    assert SortByCount(ranked) == ranked;
    assert Percent(2, 3) == 67 && Percent(1, 3) == 33;
    assert NatText(67) == "67" && NatText(33) == "33";
    assert Label("Lima", 67) == "Lima (67%)";
    assert Label("Cusco", 33) == "Cusco (33%)";
    assert Top(ranked) == ranked;
  }

  /**
   * Cities "Lima", "Lima", "Cusco": categorical with two distinct values,
   * "Lima (67%)" before "Cusco (33%)", none missing.
   */
  lemma CityColumn(c: Coercion)
    requires c.parseNumber("Lima") == None
    ensures ColumnOf(c, AgeCityRows(), "city") == Categorical(2, ["Lima (67%)", "Cusco (33%)"], 0)
  {
    var rows := AgeCityRows();
    var vs := PresentValues(rows, "city");
    var texts := Texts(c, vs);
    CityValues(c);
    assert texts == ["Lima", "Lima", "Cusco"];
    assert !IsNumericColumn(c, vs) by {
      assert vs[0] == Str("Lima") && vs[0] in vs;
      NumericValuesComplete(c, vs);
    }
    assert ColumnOf(c, rows, "city") ==
      Categorical(|FirstSeen(texts)|, TopLabels(SortByCount(TableEntries(texts)), 3), 3 - |vs|);
    CityFirstSeen();
    CityTable();
    CityLabels();
  }

  /**
   * A column holding the single number 0.125 reports average 0.13: the
   * rounded average can lie outside [min, max], which only the unrounded
   * average is guaranteed to respect.
   */
  lemma RoundedAverageOutsideRange(c: Coercion)
    ensures ColumnOf(c, [map["price" := Num(0.125)]], "price") == Numeric(0.125, 0.125, 0.13, 0)
    ensures ColumnOf(c, [map["price" := Num(0.125)]], "price").avg > ColumnOf(c, [map["price" := Num(0.125)]], "price").max
  {
    var rows: seq<Row> := [map["price" := Num(0.125)]];
    PriceValues(c);
    assert ColumnOf(c, rows, "price") ==
      Numeric(Min([0.125]), Max([0.125]), RoundTo2(Mean([0.125])), 0);
    assert Min([0.125]) == 0.125 && Max([0.125]) == 0.125;
    PriceMean();
  }

  lemma PriceValues(c: Coercion)
    ensures PresentValues([map["price" := Num(0.125)]], "price") == [Num(0.125)]
    ensures IsNumericColumn(c, [Num(0.125)])
    ensures NumericValues(c, [Num(0.125)]) == [0.125]
  {
    var rows: seq<Row> := [map["price" := Num(0.125)]];
    assert rows[..0] == [];
    assert [Num(0.125)][..0] == [];
  }

  lemma PriceMean()
    ensures RoundTo2(Mean([0.125])) == 0.13
  {
    assert [0.125][..0] == [];
    assert Mean([0.125]) == 0.125;
    assert Hundredths(0.125) == 13;
  }

  /**
   * Values "x" then "7", once each: "7" is an array index, so `Object.entries`
   * lists it first and the tie is broken in its favour although "x" was seen
   * first.
   */
  lemma ArrayIndexWinsTie(c: Coercion)
    requires c.parseNumber("x") == None
    ensures ColumnOf(c, [map["code" := Str("x")], map["code" := Str("7")]], "code")
      == Categorical(2, ["7 (50%)", "x (50%)"], 0)
  {
    var rows: seq<Row> := [map["code" := Str("x")], map["code" := Str("7")]];
    var vs := PresentValues(rows, "code");
    var texts := Texts(c, vs);
    XSevenValues(c);
    assert ColumnOf(c, rows, "code") ==
      Categorical(|FirstSeen(texts)|, TopLabels(SortByCount(TableEntries(texts)), 2), 0);
    XSevenTable();
    XSevenLabels();
  }

  lemma XSevenValues(c: Coercion)
    requires c.parseNumber("x") == None
    ensures PresentValues([map["code" := Str("x")], map["code" := Str("7")]], "code") == [Str("x"), Str("7")]
    ensures Texts(c, [Str("x"), Str("7")]) == ["x", "7"]
    ensures !IsNumericColumn(c, [Str("x"), Str("7")])
  {
    var rows: seq<Row> := [map["code" := Str("x")], map["code" := Str("7")]];
    assert rows[..1][..0] == [] && rows[..1] == [rows[0]];
    var vs := [Str("x"), Str("7")];
    assert vs[..1] == [Str("x")] && [Str("x")][..0] == [];
    assert vs[0] in vs;
    NumericValuesComplete(c, vs);
  }

  lemma XSevenLabels()
    ensures TopLabels(SortByCount([Entry("7", 1), Entry("x", 1)]), 2) == ["7 (50%)", "x (50%)"]
  {
    var ranked := [Entry("7", 1), Entry("x", 1)];
    assert SortByCount([Entry("x", 1)]) == [Entry("x", 1)];
    assert SortByCount(ranked) == ranked;
    assert Percent(1, 2) == 50 && NatText(50) == "50";
    assert Label("7", 50) == "7 (50%)" && Label("x", 50) == "x (50%)";
    assert Top(ranked) == ranked;
  }

  lemma XSevenTable()
    ensures FirstSeen(["x", "7"]) == ["x", "7"]
    ensures TableEntries(["x", "7"]) == [Entry("7", 1), Entry("x", 1)]
  {
    var texts := ["x", "7"];
    assert texts[..1] == ["x"] && ["x"][..0] == [];
    assert FirstSeen(texts) == ["x", "7"];
    XSevenEntryOrder();
    var m := multiset(texts);
    assert TableEntries(texts) == Entries(["7", "x"], m);
    assert m == multiset{"x", "7"};
    assert m["7"] == 1 && m["x"] == 1;
    XSevenEntries(m);
  }

  lemma XSevenEntries(m: multiset<string>)
    requires m["7"] == 1 && m["x"] == 1
    ensures Entries(["7", "x"], m) == [Entry("7", 1), Entry("x", 1)]
  {
    var e := Entries(["7", "x"], m);
    assert e[0] == Entry("7", 1) && e[1] == Entry("x", 1);
  }

  lemma XSevenEntryOrder()
    ensures EntryOrder(["x", "7"]) == ["7", "x"]
  {
    var texts := ["x", "7"];
    assert texts[..1] == ["x"] && ["x"][..0] == [];
    assert "x"[0] == 'x' && !IsArrayIndex("x");
    DigitKey("7");
    assert IndexKeys(["x"]) == [] && NamedKeys(["x"]) == ["x"];
    assert IndexKeys(texts) == ["7"];
    assert NamedKeys(texts) == ["x"];
    assert SortByIndex(["7"]) == ["7"] by {
      assert ["7"][1..] == [];
    }
  }

  function MixedRows(): seq<Row>
  {
    [map["v" := Num(1.0)], map["v" := Str("2")], map["v" := Str("abc")]]
  }

  lemma MixedValues(c: Coercion)
    requires c.numberText(1.0) == "1"
    ensures PresentValues(MixedRows(), "v") == [Num(1.0), Str("2"), Str("abc")]
    ensures ColumnTexts(c, MixedRows(), "v") == ["1", "2", "abc"]
  {
    var rows := MixedRows();
    assert rows[..2][..1] == rows[..1] && rows[..1][..0] == [];
    assert PresentValues(rows[..1], "v") == [Num(1.0)];
    assert PresentValues(rows[..2], "v") == [Num(1.0), Str("2")];
    var vs := [Num(1.0), Str("2"), Str("abc")];
    assert vs[..2] == [Num(1.0), Str("2")] && vs[..2][..1] == [Num(1.0)] && [Num(1.0)][..0] == [];
  }

  lemma MixedFirstSeen()
    ensures FirstSeen(["1", "2", "abc"]) == ["1", "2", "abc"]
  {
    var texts := ["1", "2", "abc"];
    assert texts[..2] == ["1", "2"] && texts[..2][..1] == ["1"] && ["1"][..0] == [];
    assert "2" != "1" && "abc" != "1" && "abc" != "2";
  }

  lemma MixedKeys()
    ensures IndexKeys(["1", "2", "abc"]) == ["1", "2"]
    ensures NamedKeys(["1", "2", "abc"]) == ["abc"]
  {
    var texts := ["1", "2", "abc"];
    assert texts[..2] == ["1", "2"] && texts[..2][..1] == ["1"] && ["1"][..0] == [];
    assert "abc"[0] == 'a' && !IsArrayIndex("abc");
    DigitKey("1");
    DigitKey("2");
  }

  lemma MixedEntryOrder()
    ensures EntryOrder(["1", "2", "abc"]) == ["1", "2", "abc"]
  {
    MixedKeys();
    SortOneTwo();
  }

  lemma SortOneTwo()
    ensures SortByIndex(["1", "2"]) == ["1", "2"]
  {
    DigitKey("1");
    DigitKey("2");
    assert SortByIndex(["2"]) == ["2"] by {
      assert ["2"][1..] == [];
    }
    assert ["1", "2"][1..] == ["2"];
    assert SortByIndex(["1", "2"]) == InsertByIndex("1", ["2"]);
  }

  lemma MixedTable()
    ensures TableEntries(["1", "2", "abc"]) == [Entry("1", 1), Entry("2", 1), Entry("abc", 1)]
  {
    var texts := ["1", "2", "abc"];
    MixedFirstSeen();
    MixedEntryOrder();
    var m := multiset(texts);
    assert TableEntries(texts) == Entries(texts, m);
    assert m == multiset{"1", "2", "abc"};
    assert "2" != "1" && "abc" != "1" && "abc" != "2";
    assert m["1"] == 1 && m["2"] == 1 && m["abc"] == 1;
    MixedEntries(m);
  }

  lemma MixedEntries(m: multiset<string>)
    requires m["1"] == 1 && m["2"] == 1 && m["abc"] == 1
    ensures Entries(["1", "2", "abc"], m) == [Entry("1", 1), Entry("2", 1), Entry("abc", 1)]
  {
    var e := Entries(["1", "2", "abc"], m);
    assert e[0] == Entry("1", 1) && e[1] == Entry("2", 1) && e[2] == Entry("abc", 1);
  }

  lemma MixedLabels()
    ensures TopLabels(SortByCount([Entry("1", 1), Entry("2", 1), Entry("abc", 1)]), 3)
      == ["1 (33%)", "2 (33%)", "abc (33%)"]
  {
    var ranked := [Entry("1", 1), Entry("2", 1), Entry("abc", 1)];
    assert SortByCount([Entry("abc", 1)]) == [Entry("abc", 1)];
    assert SortByCount(ranked[1..]) == ranked[1..];
    assert SortByCount(ranked) == ranked;
    assert Percent(1, 3) == 33 && NatText(33) == "33";
    assert Label("1", 33) == "1 (33%)" && Label("2", 33) == "2 (33%)" && Label("abc", 33) == "abc (33%)";
    assert Top(ranked) == ranked;
  }

  /**
   * The number 1 and the strings "2" and "abc": "abc" is not a number, so the
   * column is categorical, and the number is counted under its text "1".
   */
  lemma MixedColumnIsCategorical(c: Coercion)
    requires c.numberText(1.0) == "1" && c.parseNumber("abc") == None
    ensures ColumnOf(c, MixedRows(), "v") == Categorical(3, ["1 (33%)", "2 (33%)", "abc (33%)"], 0)
  {
    var rows := MixedRows();
    var vs := PresentValues(rows, "v");
    var texts := Texts(c, vs);
    MixedValues(c);
    assert texts == ["1", "2", "abc"];
    assert !IsNumericColumn(c, vs) by {
      assert vs[2] in vs;
      NumericValuesComplete(c, vs);
    }
    assert ColumnOf(c, rows, "v") ==
      Categorical(|FirstSeen(texts)|, TopLabels(SortByCount(TableEntries(texts)), 3), 0);
    MixedFirstSeen();
    MixedTable();
    MixedLabels();
  }

  /**
   * Rows `{constructor: "a"}` and `{}`: the second row has no own
   * "constructor" cell, so it reads the constructor every object inherits,
   * which is present and is counted under its text; nothing is missing.
   */
  lemma MissingHeaderReadsInheritedMember(c: Coercion)
    requires c.parseNumber("a") == None
    requires c.memberText("constructor") != "a" && !IsArrayIndex(c.memberText("constructor"))
    ensures ColumnOf(c, [map["constructor" := Str("a")], map[]], "constructor")
      == Categorical(2, ["a (50%)", c.memberText("constructor") + " (50%)"], 0)
  {
    var rows: seq<Row> := [map["constructor" := Str("a")], map[]];
    var t := c.memberText("constructor");
    var vs := PresentValues(rows, "constructor");
    var texts := Texts(c, vs);
    InheritedValues(c);
    assert ColumnOf(c, rows, "constructor") ==
      Categorical(|FirstSeen(texts)|, TopLabels(SortByCount(TableEntries(texts)), 2), 0);
    InheritedTable(t);
    InheritedLabels(t);
  }

  lemma InheritedValues(c: Coercion)
    requires c.parseNumber("a") == None
    ensures PresentValues([map["constructor" := Str("a")], map[]], "constructor")
      == [Str("a"), Inherited("constructor")]
    ensures Texts(c, [Str("a"), Inherited("constructor")]) == ["a", c.memberText("constructor")]
    ensures !IsNumericColumn(c, [Str("a"), Inherited("constructor")])
  {
    InheritedCells();
    var vs := [Str("a"), Inherited("constructor")];
    assert vs[0] in vs;
    NumericValuesComplete(c, vs);
  }

  lemma InheritedCells()
    ensures PresentValues([map["constructor" := Str("a")], map[]], "constructor")
      == [Str("a"), Inherited("constructor")]
  {
    var rows: seq<Row> := [map["constructor" := Str("a")], map[]];
    assert "constructor" in INHERITED_NAMES;
    assert Cell(rows[1], "constructor") == Inherited("constructor");
    assert Cell(rows[0], "constructor") == Str("a");
    assert rows[..1][..0] == [] && rows[..1] == [rows[0]];
    assert PresentValues(rows[..1], "constructor") == [Str("a")];
  }

  lemma InheritedTable(t: string)
    requires t != "a" && !IsArrayIndex(t)
    ensures FirstSeen(["a", t]) == ["a", t]
    ensures TableEntries(["a", t]) == [Entry("a", 1), Entry(t, 1)]
  {
    var texts := ["a", t];
    assert texts[..1] == ["a"] && ["a"][..0] == [];
    assert FirstSeen(texts) == ["a", t];
    assert "a"[0] == 'a' && !IsArrayIndex("a");
    EntryOrderOfNamedKeys(texts);
    var m := multiset(texts);
    assert TableEntries(texts) == Entries(texts, m);
    assert m == multiset{"a", t};
    assert m["a"] == 1 && m[t] == 1;
    InheritedEntries(t, m);
  }

  lemma InheritedEntries(t: string, m: multiset<string>)
    requires m["a"] == 1 && m[t] == 1
    ensures Entries(["a", t], m) == [Entry("a", 1), Entry(t, 1)]
  {
    var e := Entries(["a", t], m);
    assert e[0] == Entry("a", 1) && e[1] == Entry(t, 1);
  }

  lemma InheritedLabels(t: string)
    ensures TopLabels(SortByCount([Entry("a", 1), Entry(t, 1)]), 2) == ["a (50%)", t + " (50%)"]
  {
    var ranked := [Entry("a", 1), Entry(t, 1)];
    assert SortByCount([Entry(t, 1)]) == [Entry(t, 1)];
    assert SortByCount(ranked) == ranked;
    assert Percent(1, 2) == 50 && NatText(50) == "50";
    assert " (" + "50" + "%)" == " (50%)";
    assert Label(t, 50) == t + " (50%)";
    assert Label("a", 50) == "a (50%)";
    assert Top(ranked) == ranked;
  }
}
