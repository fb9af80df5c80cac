/**
 * The dataset profiler of the analysis endpoint: for every column of the
 * first row it reports either a numeric summary (min, max, two-decimal
 * average, missing count) or a categorical one (number of distinct values,
 * the five most frequent with their share of all rows, missing count).
 */
module Profiler {
  import opened Wrappers
  import opened Cells
  import opened Stats
  import opened Frequency
  import opened Ranking

  datatype ColumnProfile =
    | Numeric(min: real, max: real, avg: real, missing: nat)
    | Categorical(uniqueCount: nat, topValues: seq<string>, missing: nat)

  datatype DatasetProfile = DatasetProfile(rowCount: nat, columns: map<string, ColumnProfile>)

  /** The request's `data` field: an array of rows, or any other JSON value. */
  datatype Input = NotAnArray | Array(rows: seq<Row>)

  /** `data.map(row => row[column]).filter(v => v !== null && v !== undefined && v !== "")`. */
  function PresentValues(rows: seq<Row>, column: string): (vs: seq<Value>)
    ensures |vs| <= |rows|
  {
    if rows == [] then []
    else
      var init, v := rows[..|rows| - 1], Cell(rows[|rows| - 1], column);
      PresentValues(init, column) + (if IsPresent(v) then [v] else [])
  }

  /** `values.map(Number).filter(v => !isNaN(v))`. */
  function NumericValues(c: Coercion, vs: seq<Value>): (xs: seq<real>)
    ensures |xs| <= |vs|
  {
    if vs == [] then []
    else
      var init, x := vs[..|vs| - 1], ToNumber(c, vs[|vs| - 1]);
      NumericValues(c, init) + (if x.Some? then [x.value] else [])
  }

  /** `numericValues.length === values.length && values.length > 0`. */
  predicate IsNumericColumn(c: Coercion, vs: seq<Value>)
  {
    |NumericValues(c, vs)| == |vs| && |vs| > 0
  }

  /** `String(v)` of each present value. */
  function Texts(c: Coercion, vs: seq<Value>): seq<string>
  {
    seq(|vs|, i requires 0 <= i < |vs| => ToText(c, vs[i]))
  }

  /** The `[key, count]` pairs for `keys`, counts taken from `counts`. */
  function Entries(keys: seq<string>, counts: multiset<string>): seq<Entry>
  {
    seq(|keys|, i requires 0 <= i < |keys| => Entry(keys[i], counts[keys[i]]))
  }

  /** `Object.entries(frequency)` for a table built from `texts`. */
  function TableEntries(texts: seq<string>): seq<Entry>
  {
    Entries(EntryOrder(FirstSeen(texts)), multiset(texts))
  }

  /** `Object.entries(frequency)` read off the table itself. */
  function EntriesOf(keys: seq<string>, frequency: map<string, nat>): seq<Entry>
    requires forall k :: k in keys ==> k in frequency
  {
    seq(|keys|, i requires 0 <= i < |keys| => Entry(keys[i], frequency[keys[i]]))
  }

  /** The table the counting loop builds lists the entries `TableEntries` describes. */
  lemma EntriesOfTable(texts: seq<string>, frequency: map<string, nat>, order: seq<string>)
    requires forall t :: t in frequency <==> t in texts
    requires forall t :: t in frequency ==> frequency[t] == multiset(texts)[t]
    requires order == FirstSeen(texts)
    ensures forall k :: k in EntryOrder(order) ==> k in frequency
    ensures EntriesOf(EntryOrder(order), frequency) == TableEntries(texts)
    ensures |EntryOrder(order)| == |order|
  {
    var keys := EntryOrder(order);
    KeysOfTable(texts, frequency, order);
    var mine, table := EntriesOf(keys, frequency), TableEntries(texts);
    forall i | 0 <= i < |mine|
      ensures mine[i] == table[i]
    {
      assert keys[i] in frequency;
    }
  }

  lemma KeysOfTable(texts: seq<string>, frequency: map<string, nat>, order: seq<string>)
    requires forall t :: t in frequency <==> t in texts
    requires order == FirstSeen(texts)
    ensures forall k :: k in EntryOrder(order) ==> k in frequency
    ensures |EntryOrder(order)| == |order|
  {
    var keys := EntryOrder(order);
    FirstSeenElements(texts);
    EntryOrderPermutes(order);
    assert forall k :: k in keys ==> k in multiset(keys);
    assert |multiset(keys)| == |multiset(order)|;
  }

  /** The profile of one column, as `generateDatasetProfile` records it. */
  function ColumnOf(c: Coercion, rows: seq<Row>, column: string): ColumnProfile
    requires |rows| > 0
  {
    var vs := PresentValues(rows, column);
    var missing := |rows| - |vs|;
    if IsNumericColumn(c, vs) then
      var xs := NumericValues(c, vs);
      Numeric(Min(xs), Max(xs), RoundTo2(Mean(xs)), missing)
    else
      var texts := Texts(c, vs);
      Categorical(|FirstSeen(texts)|, TopLabels(SortByCount(TableEntries(texts)), |rows|), missing)
  }

  /** The body of `headers.forEach` for one header. */
  method ProfileColumn(c: Coercion, rows: seq<Row>, column: string) returns (p: ColumnProfile)
    requires |rows| > 0
    ensures p == ColumnOf(c, rows, column)
  {
    var values := PresentValues(rows, column);
    var numericValues := NumericValues(c, values);
    var isNumeric := |numericValues| == |values| && |values| > 0;
    if isNumeric {
      var sum := Sum(numericValues);
      var avg := sum / (|numericValues| as real);
      p := Numeric(Min(numericValues), Max(numericValues), RoundTo2(avg), |rows| - |values|);
    } else {
      var texts := Texts(c, values);
      var frequency, order := CountFrequencies(texts);
      var keys := EntryOrder(order);
      EntriesOfTable(texts, frequency, order);
      var entries := EntriesOf(keys, frequency);
      var topValues := TopLabels(SortByCount(entries), |rows|);
      p := Categorical(|keys|, topValues, |rows| - |values|);
    }
  }

  /**
   * `generateDatasetProfile(data)`: nothing unless `data` is a non-empty
   * array; otherwise the row count and, for each key of the first row and no
   * other, that column's profile.
   */
  method GenerateDatasetProfile(c: Coercion, input: Input) returns (r: Option<DatasetProfile>)
    ensures r.None? <==> input.NotAnArray? || |input.rows| == 0
    ensures r.Some? ==> r.value.rowCount == |input.rows|
    ensures r.Some? ==> r.value.columns.Keys == input.rows[0].Keys
    ensures r.Some? ==> forall h :: h in r.value.columns ==> r.value.columns[h] == ColumnOf(c, input.rows, h)
  {
    if input.NotAnArray? || |input.rows| == 0 {
      return None;
    }
    var data := input.rows;
    var headers := data[0].Keys;
    var rowCount := |data|;
    var profile: map<string, ColumnProfile> := map[];
    var remaining := headers;
    while remaining != {}
      invariant remaining <= headers
      invariant profile.Keys == headers - remaining
      invariant forall h :: h in profile ==> profile[h] == ColumnOf(c, data, h)
      decreases remaining
    {
      var header :| header in remaining;
      var column := ProfileColumn(c, data, header);
      profile := profile[header := column];
      remaining := remaining - {header};
    }
    return Some(DatasetProfile(rowCount, profile));
  }
}
