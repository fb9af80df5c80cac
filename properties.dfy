/** What the profile of a column guarantees, stated against the rows themselves. */
module ProfileProperties {
  import opened Wrappers
  import opened Cells
  import opened Stats
  import opened Frequency
  import opened Ranking
  import opened Profiler

  /** The rows whose cell in `column` is missing. */
  function AbsentRows(rows: seq<Row>, column: string): set<nat>
  {
    set i: nat | i < |rows| && !IsPresent(Cell(rows[i], column))
  }

  /** `String(v)` of each present value of the column, in row order. */
  function ColumnTexts(c: Coercion, rows: seq<Row>, column: string): seq<string>
  {
    Texts(c, PresentValues(rows, column))
  }

  /** `Number(v)` of each present value of the column, in row order. */
  function ColumnNumbers(c: Coercion, rows: seq<Row>, column: string): seq<real>
  {
    NumericValues(c, PresentValues(rows, column))
  }

  lemma {:induction false} PresentPlusAbsent(rows: seq<Row>, column: string)
    ensures |PresentValues(rows, column)| + |AbsentRows(rows, column)| == |rows|
  {
    if rows != [] {
      var n := |rows| - 1;
      var init := rows[..n];
      PresentPlusAbsent(init, column);
      if IsPresent(Cell(rows[n], column)) {
        assert AbsentRows(rows, column) == AbsentRows(init, column);
      } else {
        assert AbsentRows(rows, column) == AbsentRows(init, column) + {n};
      }
    }
  }

  lemma {:induction false} PresentValuesMembers(rows: seq<Row>, column: string)
    ensures forall v :: v in PresentValues(rows, column) <==>
      exists i :: 0 <= i < |rows| && IsPresent(Cell(rows[i], column)) && Cell(rows[i], column) == v
  {
    if rows != [] {
      var n := |rows| - 1;
      var init := rows[..n];
      PresentValuesMembers(init, column);
      forall v | v in PresentValues(rows, column)
        ensures exists i :: 0 <= i < |rows| && IsPresent(Cell(rows[i], column)) && Cell(rows[i], column) == v
      {
        if v in PresentValues(init, column) {
          var i :| 0 <= i < |init| && IsPresent(Cell(init[i], column)) && Cell(init[i], column) == v;
          assert rows[i] == init[i];
        } else {
          assert Cell(rows[n], column) == v;
        }
      }
      forall i | 0 <= i < |rows| && IsPresent(Cell(rows[i], column))
        ensures Cell(rows[i], column) in PresentValues(rows, column)
      {
        if i < n {
          assert init[i] == rows[i];
        }
      }
    }
  }

  /** The column's cell in every row, missing ones included. */
  function ColumnCells(rows: seq<Row>, column: string): seq<Value>
  {
    seq(|rows|, i requires 0 <= i < |rows| => Cell(rows[i], column))
  }

  /**
   * Filtering keeps each present value as often as it occurs in the column,
   * and drops every missing one.
   */
  lemma {:induction false} PresentValuesMultiplicity(rows: seq<Row>, column: string)
    ensures forall v :: IsPresent(v) ==>
      multiset(PresentValues(rows, column))[v] == multiset(ColumnCells(rows, column))[v]
    ensures forall v :: !IsPresent(v) ==> multiset(PresentValues(rows, column))[v] == 0
  {
    if rows != [] {
      var n := |rows| - 1;
      var init := rows[..n];
      PresentValuesMultiplicity(init, column);
      assert ColumnCells(rows, column) == ColumnCells(init, column) + [Cell(rows[n], column)];
    }
  }

  /**
   * `missing` is the number of rows whose cell is `null`, `undefined` or `""`,
   * so it never exceeds the row count.
   */
  lemma MissingCount(c: Coercion, rows: seq<Row>, column: string)
    requires |rows| > 0
    ensures ColumnOf(c, rows, column).missing == |AbsentRows(rows, column)| <= |rows|
  {
    PresentPlusAbsent(rows, column);
  }

  /**
   * The filter tests for `null`, `undefined` and `""` only, not for falsy
   * values: a row whose cell is `0`, `"0"` or `false` is not missing, so the
   * column then has fewer missing cells than rows.
   */
  lemma FalsyCellIsNotMissing(c: Coercion, rows: seq<Row>, column: string, i: nat)
    requires i < |rows|
    requires Cell(rows[i], column) == Num(0.0) || Cell(rows[i], column) == Str("0") || Cell(rows[i], column) == Bool(false)
    ensures i !in AbsentRows(rows, column)
    ensures ColumnOf(c, rows, column).missing < |rows|
  {
    SomePresent(rows, column);
  }

  lemma {:induction false} NumericValuesComplete(c: Coercion, vs: seq<Value>)
    ensures |NumericValues(c, vs)| == |vs| <==> forall v :: v in vs ==> ToNumber(c, v).Some?
  {
    if vs != [] {
      var n := |vs| - 1;
      var init := vs[..n];
      NumericValuesComplete(c, init);
      assert vs == init + [vs[n]];
    }
  }

  lemma {:induction false} NumericValuesMembers(c: Coercion, vs: seq<Value>)
    ensures forall x :: x in NumericValues(c, vs) <==> exists v :: v in vs && ToNumber(c, v) == Some(x)
  {
    if vs != [] {
      var n := |vs| - 1;
      var init := vs[..n];
      NumericValuesMembers(c, init);
      assert vs == init + [vs[n]];
    }
  }

  /** Some row has a present cell exactly when the present values are not empty. */
  lemma SomePresent(rows: seq<Row>, column: string)
    ensures |PresentValues(rows, column)| > 0 <==>
      exists i :: 0 <= i < |rows| && IsPresent(Cell(rows[i], column))
  {
    PresentValuesMembers(rows, column);
    var vs := PresentValues(rows, column);
    if |vs| > 0 {
      assert vs[0] in vs;
    }
    if exists i :: 0 <= i < |rows| && IsPresent(Cell(rows[i], column)) {
      var i :| 0 <= i < |rows| && IsPresent(Cell(rows[i], column));
      assert Cell(rows[i], column) in vs;
    }
  }

  lemma AllPresentCoerce(c: Coercion, rows: seq<Row>, column: string)
    ensures (forall v :: v in PresentValues(rows, column) ==> ToNumber(c, v).Some?) <==>
      (forall i :: 0 <= i < |rows| && IsPresent(Cell(rows[i], column)) ==> ToNumber(c, Cell(rows[i], column)).Some?)
  {
    PresentValuesMembers(rows, column);
  }

  /**
   * A column is numeric exactly when it has a present value and every present
   * value coerces to a number.
   */
  lemma NumericIffAllCoerce(c: Coercion, rows: seq<Row>, column: string)
    requires |rows| > 0
    ensures ColumnOf(c, rows, column).Numeric? <==>
      (exists i :: 0 <= i < |rows| && IsPresent(Cell(rows[i], column))) &&
      (forall i :: 0 <= i < |rows| && IsPresent(Cell(rows[i], column)) ==> ToNumber(c, Cell(rows[i], column)).Some?)
  {
    NumericValuesComplete(c, PresentValues(rows, column));
    SomePresent(rows, column);
    AllPresentCoerce(c, rows, column);
  }

  /** A column without a present value is categorical, with no distinct values and no top values. */
  lemma EmptyColumnIsCategorical(c: Coercion, rows: seq<Row>, column: string)
    requires |rows| > 0
    requires forall i :: 0 <= i < |rows| ==> !IsPresent(Cell(rows[i], column))
    ensures ColumnOf(c, rows, column) == Categorical(0, [], |rows|)
  {
    SomePresent(rows, column);
    assert Texts(c, PresentValues(rows, column)) == [];
  }

  /**
   * A numeric column's minimum and maximum are coerced values of present
   * cells and bound every present value.
   */
  lemma NumericRange(c: Coercion, rows: seq<Row>, column: string)
    requires |rows| > 0 && ColumnOf(c, rows, column).Numeric?
    ensures ColumnOf(c, rows, column).min <= ColumnOf(c, rows, column).max
    ensures forall i :: 0 <= i < |rows| && IsPresent(Cell(rows[i], column)) ==>
      ToNumber(c, Cell(rows[i], column)).Some? &&
      ColumnOf(c, rows, column).min <= ToNumber(c, Cell(rows[i], column)).value <= ColumnOf(c, rows, column).max
    ensures exists i :: (0 <= i < |rows| && IsPresent(Cell(rows[i], column)) &&
      ToNumber(c, Cell(rows[i], column)) == Some(ColumnOf(c, rows, column).min))
    ensures exists i :: (0 <= i < |rows| && IsPresent(Cell(rows[i], column)) &&
      ToNumber(c, Cell(rows[i], column)) == Some(ColumnOf(c, rows, column).max))
  {
    var vs, p := PresentValues(rows, column), ColumnOf(c, rows, column);
    var xs := NumericValues(c, vs);
    ValuesWithinRange(c, vs);
    PresentValuesMembers(rows, column);
    var vmin :| vmin in vs && ToNumber(c, vmin) == Some(p.min);
    var vmax :| vmax in vs && ToNumber(c, vmax) == Some(p.max);
    forall i | 0 <= i < |rows| && IsPresent(Cell(rows[i], column))
      ensures ToNumber(c, Cell(rows[i], column)).Some?
      ensures p.min <= ToNumber(c, Cell(rows[i], column)).value <= p.max
    {
      assert Cell(rows[i], column) in vs;
    }
  }

  lemma ValuesWithinRange(c: Coercion, vs: seq<Value>)
    requires IsNumericColumn(c, vs)
    ensures forall v :: v in vs ==>
      ToNumber(c, v).Some? && Min(NumericValues(c, vs)) <= ToNumber(c, v).value <= Max(NumericValues(c, vs))
    ensures exists v :: v in vs && ToNumber(c, v) == Some(Min(NumericValues(c, vs)))
    ensures exists v :: v in vs && ToNumber(c, v) == Some(Max(NumericValues(c, vs)))
  {
    var xs := NumericValues(c, vs);
    NumericValuesComplete(c, vs);
    NumericValuesMembers(c, vs);
    forall v | v in vs
      ensures Min(xs) <= ToNumber(c, v).value <= Max(xs)
    {
      assert ToNumber(c, v).value in xs;
    }
  }

  /**
   * A numeric column averages one coerced value per present cell; the
   * unrounded average lies between the minimum and the maximum, and the
   * reported average is within half a hundredth of it.
   */
  lemma NumericAverage(c: Coercion, rows: seq<Row>, column: string)
    requires |rows| > 0 && ColumnOf(c, rows, column).Numeric?
    ensures |ColumnNumbers(c, rows, column)| == |rows| - ColumnOf(c, rows, column).missing
    ensures ColumnOf(c, rows, column).min <= Mean(ColumnNumbers(c, rows, column)) <= ColumnOf(c, rows, column).max
    ensures -0.005 <= ColumnOf(c, rows, column).avg - Mean(ColumnNumbers(c, rows, column)) <= 0.005
  {
    MeanWithinRange(ColumnNumbers(c, rows, column));
  }

  lemma {:induction false} MultiplicityAtMostLength(s: seq<string>, t: string)
    ensures multiset(s)[t] <= |s|
  {
    if s != [] {
      var init := s[..|s| - 1];
      MultiplicityAtMostLength(init, t);
      assert s == init + [s[|s| - 1]];
    }
  }

  /**
   * A categorical column counts one distinct value per distinct `String(v)`,
   * at most one per present cell, and the table's counts add up to the number
   * of present cells.
   */
  lemma CategoricalCounts(c: Coercion, rows: seq<Row>, column: string)
    requires |rows| > 0 && ColumnOf(c, rows, column).Categorical?
    ensures ColumnOf(c, rows, column).uniqueCount == |set t | t in ColumnTexts(c, rows, column)|
    ensures ColumnOf(c, rows, column).uniqueCount <= |rows| - ColumnOf(c, rows, column).missing
    ensures TotalCount(FirstSeen(ColumnTexts(c, rows, column)), multiset(ColumnTexts(c, rows, column)))
      == |rows| - ColumnOf(c, rows, column).missing
  {
    var texts := ColumnTexts(c, rows, column);
    UniqueCountBound(texts);
    CountsSumToValues(texts);
  }

  /** The ranked entries of a categorical column. */
  function ColumnRanking(c: Coercion, rows: seq<Row>, column: string): seq<Entry>
  {
    SortByCount(TableEntries(ColumnTexts(c, rows, column)))
  }

  /**
   * The ranking lists every distinct value once with its number of
   * occurrences, by non-increasing count; values with equal counts keep the
   * order `Object.entries` gives them.
   */
  lemma RankingOrder(c: Coercion, rows: seq<Row>, column: string)
    ensures NonIncreasing(ColumnRanking(c, rows, column))
    ensures forall n :: WithCount(ColumnRanking(c, rows, column), n) == WithCount(TableEntries(ColumnTexts(c, rows, column)), n)
    ensures forall i :: 0 <= i < |ColumnRanking(c, rows, column)| ==>
      ColumnRanking(c, rows, column)[i].key in ColumnTexts(c, rows, column) &&
      ColumnRanking(c, rows, column)[i].count == multiset(ColumnTexts(c, rows, column))[ColumnRanking(c, rows, column)[i].key]
    ensures forall i, j :: 0 <= i < j < |ColumnRanking(c, rows, column)| ==>
      ColumnRanking(c, rows, column)[i].key != ColumnRanking(c, rows, column)[j].key
  {
    SortByCountSpec(TableEntries(ColumnTexts(c, rows, column)));
    RankingEntries(c, rows, column);
    RankingDistinct(c, rows, column);
  }

  lemma RankingEntries(c: Coercion, rows: seq<Row>, column: string)
    ensures forall i :: 0 <= i < |ColumnRanking(c, rows, column)| ==>
      ColumnRanking(c, rows, column)[i].key in ColumnTexts(c, rows, column) &&
      ColumnRanking(c, rows, column)[i].count == multiset(ColumnTexts(c, rows, column))[ColumnRanking(c, rows, column)[i].key]
  {
    var texts := ColumnTexts(c, rows, column);
    var order := FirstSeen(texts);
    var keys := EntryOrder(order);
    var entries := TableEntries(texts);
    var ranked := ColumnRanking(c, rows, column);
    SortByCountSpec(entries);
    FirstSeenElements(texts);
    EntryOrderPermutes(order);
    forall i | 0 <= i < |ranked|
      ensures ranked[i].key in texts && ranked[i].count == multiset(texts)[ranked[i].key]
    {
      assert ranked[i] in multiset(entries);
      var j :| 0 <= j < |entries| && entries[j] == ranked[i];
      assert keys[j] in multiset(order);
    }
  }

  lemma EntriesDistinct(keys: seq<string>, counts: multiset<string>)
    requires Distinct(keys)
    ensures Distinct(Entries(keys, counts))
  {
  }

  lemma RankingDistinct(c: Coercion, rows: seq<Row>, column: string)
    ensures forall i, j :: 0 <= i < j < |ColumnRanking(c, rows, column)| ==>
      ColumnRanking(c, rows, column)[i].key != ColumnRanking(c, rows, column)[j].key
  {
    var texts := ColumnTexts(c, rows, column);
    var order := FirstSeen(texts);
    var keys := EntryOrder(order);
    var entries := TableEntries(texts);
    var ranked := ColumnRanking(c, rows, column);
    SortByCountSpec(entries);
    FirstSeenElements(texts);
    EntryOrderPermutes(order);
    DistinctIffSingleOccurrences(order);
    DistinctIffSingleOccurrences(keys);
    EntriesDistinct(keys, multiset(texts));
    DistinctIffSingleOccurrences(entries);
    DistinctIffSingleOccurrences(ranked);
    RankingEntries(c, rows, column);
    forall i, j | 0 <= i < j < |ranked|
      ensures ranked[i].key != ranked[j].key
    {
      assert ranked[i] != ranked[j];
    }
  }

  /**
   * A categorical column reports min(5, uniqueCount) top values: the first
   * ranked entries, each labelled with its value and its count as a whole
   * percentage (0 to 100) of all rows, not of the present ones; no entry left
   * out has a higher count than one reported.
   */
  lemma CategoricalTopValues(c: Coercion, rows: seq<Row>, column: string)
    requires |rows| > 0 && ColumnOf(c, rows, column).Categorical?
    ensures var p := ColumnOf(c, rows, column);
      |p.topValues| == if p.uniqueCount < TOP_COUNT then p.uniqueCount else TOP_COUNT
    ensures var p, ranked := ColumnOf(c, rows, column), ColumnRanking(c, rows, column);
      forall i :: 0 <= i < |p.topValues| ==>
        i < |ranked| && Percent(ranked[i].count, |rows|) <= 100 &&
        p.topValues[i] == Label(ranked[i].key, Percent(ranked[i].count, |rows|))
    ensures var p, ranked := ColumnOf(c, rows, column), ColumnRanking(c, rows, column);
      forall i, j :: 0 <= i < |p.topValues| <= j < |ranked| ==> ranked[i].count >= ranked[j].count
  {
    var texts := ColumnTexts(c, rows, column);
    var entries := TableEntries(texts);
    var ranked := ColumnRanking(c, rows, column);
    TopLabelsSpec(entries, |rows|);
    EntryOrderPermutes(FirstSeen(texts));
    assert |EntryOrder(FirstSeen(texts))| == |FirstSeen(texts)| by {
      assert |multiset(EntryOrder(FirstSeen(texts)))| == |multiset(FirstSeen(texts))|;
    }
    RankingEntries(c, rows, column);
    forall i | 0 <= i < |ranked|
      ensures Percent(ranked[i].count, |rows|) <= 100
    {
      MultiplicityAtMostLength(texts, ranked[i].key);
      PercentBounds(ranked[i].count, |rows|);
    }
  }
}
