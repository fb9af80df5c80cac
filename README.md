# Dataset profiler of the analysis endpoint

The analysis endpoint of this dashboard application receives a spreadsheet
as an array of JSON rows. Before it builds the prompt for the language
model, it summarises the rows with `generateDatasetProfile`. This project
models that function and proves what it computes:

- `null` for anything that is not a non-empty array.
- Otherwise the row count, plus one profile per key of the first row.
- A column is **numeric** when it has at least one present cell and every
  present cell converts with `Number`. Present means not `null`,
  `undefined` or `""`. A row without the column reads `undefined`, unless
  the column is named after a member every object inherits (`constructor`,
  `toString`, …): then it reads that member, which is present. A numeric
  profile holds the minimum, the maximum, the mean rounded with
  `toFixed(2)`, and the number of missing cells.
- Every other column is **categorical**. Its profile holds:
  - the number of distinct `String(v)` texts;
  - the five most frequent texts, labelled `"<text> (<p>%)"`, where `p` is
    the count as a rounded share of all rows;
  - the number of missing cells.

The model has these modules:

- `Cells`: a cell is a JSON value, or the inherited member a row yields
  for a column it lacks. `Number(string)`, `String(number)` and the text of
  an inherited member belong to the platform, so they are parameters
  (`Coercion`). The conversions of `null` and booleans are written out.
- `Decimal`: canonical decimal numerals and the array-index keys of
  ECMAScript objects.
- `Stats`: `Math.min`, `Math.max`, the mean, `toFixed(2)` and the
  `Math.round` percentage, all computed exactly on reals.
- `Frequency`: the counting loop. It is an imperative method over a map
  plus key creation order. The module also holds the order in which
  `Object.entries` lists the keys: array-index keys ascending, then the
  others in creation order.
- `Ranking`: the stable sort by descending count (`Array.prototype.sort`
  is stable), `.slice(0, 5)` and the labels.
- `Profiler`: one column (`ColumnOf`, and the method `ProfileColumn` that
  runs the counting loop) and the per-header loop `GenerateDatasetProfile`.
- `ProfileProperties`: properties of a column profile in terms of the rows.
- `Scenarios`: worked inputs with their exact profiles.

Two behaviours of the code differ from what a reader of the profile would
expect. The model follows the code in both.

- **Ties in `topValues`.** One would expect ties to be broken by first
  appearance. The code sorts `Object.entries(frequency)` stably, and that
  list puts array-index keys such as `"7"` before every other key. So `"7"` beats
  `"x"` in a tie even when `"x"` appeared first (`Scenarios.ArrayIndexWinsTie`).
  Among keys that are not array indices, ties do keep first-seen order
  (`Frequency.EntryOrderSpec`, `Ranking.SortByCountSpec`).
- **The rounded average.** One would expect `min <= avg <= max`. That
  holds for the exact mean (`ProfileProperties.NumericAverage`), but
  rounding can push `avg` outside the range. The single value `0.125`
  gives `avg` 0.13, above `max` 0.125 (`Scenarios.RoundedAverageOutsideRange`).

## Model

| member | source | states |
|---|---|---|
| Profiler.GenerateDatasetProfile | src/app/api/analyze/route.ts:6-58 | No profile exactly when the input is not an array or is empty. Otherwise: row count = number of rows; one column per key of the first row; each column profiled from all rows |
| Profiler.ProfileColumn | src/app/api/analyze/route.ts:14-53 | Builds the counting table imperatively, and the result equals the column profile `ColumnOf` |
| Profiler.ColumnOf | src/app/api/analyze/route.ts:14-53 | The profile of one column: numeric (min, max, rounded mean, missing) or categorical (distinct count, top labels, missing); characterised by the `ProfileProperties` lemmas |
| Profiler.IsNumericColumn | src/app/api/analyze/route.ts:19 | Every value converted and at least one value; characterised over the rows by `NumericIffAllCoerce` |
| Profiler.Texts | src/app/api/analyze/route.ts:36 | `String(v)` of each present value, in row order |
| Cells.Cell | src/app/api/analyze/route.ts:15 | The row's own cell; for a column the row lacks, the inherited `Object.prototype` member of that name, else `undefined` |
| Cells.IsPresent | src/app/api/analyze/route.ts:16 | Not `null`, `undefined` or `""`; used by `PresentPlusAbsent` and `FalsyCellIsNotMissing` |
| Cells.ToNumber | src/app/api/analyze/route.ts:18 | `Number(v)`: `null` is 0, booleans 1 and 0, strings by the platform parser, inherited members `NaN` |
| Cells.ToText | src/app/api/analyze/route.ts:36 | `String(v)`: `"null"`, `"true"`/`"false"`, numbers and inherited members by the platform, strings unchanged |
| Profiler.PresentValues | src/app/api/analyze/route.ts:14-16 | The present values are at most one per row |
| Profiler.NumericValues | src/app/api/analyze/route.ts:18 | At most one number per value (the values that do not convert are dropped) |
| Profiler.TableEntries | src/app/api/analyze/route.ts:40 | The `[key, count]` pairs of the table: the first-seen texts in `Object.entries` order, each with its number of occurrences; tied to the loop's table by `EntriesOfTable` |
| Profiler.EntriesOf | src/app/api/analyze/route.ts:40 | `Object.entries` of a table read in a given key order; equal to `TableEntries` by `EntriesOfTable` |
| Profiler.EntriesOfTable | src/app/api/analyze/route.ts:33-40 | `Object.entries` of the table built by the loop lists, in entry order, each first-seen text with its number of occurrences |
| Profiler.KeysOfTable | src/app/api/analyze/route.ts:37-40 | Every key `Object.entries` lists is in the table, and it lists as many keys as were created |
| ProfileProperties.PresentPlusAbsent | src/app/api/analyze/route.ts:14-16 | Present cells plus missing cells = row count; `undefined` (absent key), `null` and `""` are missing |
| ProfileProperties.PresentValuesMembers | src/app/api/analyze/route.ts:14-16 | The present values are the same values as the present cells of the rows |
| ProfileProperties.PresentValuesMultiplicity | src/app/api/analyze/route.ts:14-16 | Each present value occurs among the present values as often as in the column's cells; no missing value occurs at all |
| ProfileProperties.MissingCount | src/app/api/analyze/route.ts:30 | `missing` = number of rows whose cell is null, undefined or empty, and is at most the row count |
| ProfileProperties.FalsyCellIsNotMissing | src/app/api/analyze/route.ts:16 | A row whose cell is `0`, `"0"` or `false` is not missing, so `missing` is then below the row count |
| ProfileProperties.NumericValuesComplete | src/app/api/analyze/route.ts:18-19 | No value is dropped by `Number` exactly when every value converts |
| ProfileProperties.NumericValuesMembers | src/app/api/analyze/route.ts:18 | Every kept number comes from converting some value |
| ProfileProperties.NumericIffAllCoerce | src/app/api/analyze/route.ts:18-21 | Numeric if and only if some cell is present and every present cell converts |
| ProfileProperties.EmptyColumnIsCategorical | src/app/api/analyze/route.ts:19-53 | A column with no present cell is categorical: 0 distinct values, no top values, every row missing |
| ProfileProperties.NumericRange | src/app/api/analyze/route.ts:27-28 | min <= max; every present value lies between them; both are values of present cells |
| ProfileProperties.NumericAverage | src/app/api/analyze/route.ts:22-29 | The mean is over one number per present cell and lies in [min, max]; `avg` is within 0.005 of it |
| ProfileProperties.CategoricalCounts | src/app/api/analyze/route.ts:33-50 | uniqueCount = number of distinct texts, at most the number of present cells; the counts add up to the number of present cells |
| ProfileProperties.RankingOrder | src/app/api/analyze/route.ts:40-41 | The ranking lists each distinct text once with its true count, in non-increasing count; equal counts keep entry order |
| ProfileProperties.CategoricalTopValues | src/app/api/analyze/route.ts:40-46 | min(5, uniqueCount) labels. Each label is the ranked text plus its rounded share (0..100) of all rows. No omitted text has a higher count than a listed one |
| Stats.Sum | src/app/api/analyze/route.ts:22 | `reduce((a, b) => a + b, 0)`, exact; bounded by `SumBelow` |
| Stats.Mean | src/app/api/analyze/route.ts:23 | Sum divided by the count; lies in [min, max] by `MeanWithinRange` |
| Stats.Min | src/app/api/analyze/route.ts:27 | The minimum is an element and bounds every element from below |
| Stats.Max | src/app/api/analyze/route.ts:28 | The maximum is an element and bounds every element from above |
| Stats.SumBelow | src/app/api/analyze/route.ts:22 | The sum of values in [lo, hi] lies between n·lo and n·hi |
| Stats.MeanWithinRange | src/app/api/analyze/route.ts:22-23 | The mean lies between the minimum and the maximum |
| Stats.RoundTo2 | src/app/api/analyze/route.ts:29 | The result is a whole number of hundredths within half a hundredth of the input; ties round away from zero |
| Stats.Hundredths | src/app/api/analyze/route.ts:29 | A non-negative value rounded half up to a whole number of hundredths |
| Stats.Percent | src/app/api/analyze/route.ts:45 | `Math.round(count / rowCount * 100)` as the nearest integer to 100·count/rowCount, with a tie going up |
| Stats.PercentBounds | src/app/api/analyze/route.ts:45 | The share lies in 0..100; it is 100 when every row has the value and 0 when none has |
| Decimal.NatText | src/app/api/analyze/route.ts:45 | The number in a label is a canonical decimal numeral |
| Decimal.ValueOfNatText | src/app/api/analyze/route.ts:45 | The numeral reads back as the number it was made from |
| Decimal.NatTextOfCanonical | src/app/api/analyze/route.ts:40 | Every canonical numeral is the numeral of its value |
| Decimal.IsArrayIndex | src/app/api/analyze/route.ts:40 | The array-index test that decides the `Object.entries` order; characterised by `ArrayIndexIsNumeral` |
| Decimal.ArrayIndexIsNumeral | src/app/api/analyze/route.ts:40 | A key is an array index if and only if it is the numeral of some integer below 2^32-1 |
| Frequency.FirstSeen | src/app/api/analyze/route.ts:35-38 | The order in which the loop creates keys; characterised by `FirstSeenElements` and `FirstSeenOrder` |
| Frequency.FirstIndex | src/app/api/analyze/route.ts:35-37 | The position where a text first occurs |
| Frequency.FirstSeenElements | src/app/api/analyze/route.ts:35-38 | The creation order of the table holds each text exactly once |
| Frequency.FirstSeenOrder | src/app/api/analyze/route.ts:35-38 | Keys are created in order of first occurrence |
| Frequency.FirstSeenLength | src/app/api/analyze/route.ts:35-38 | The loop never creates more keys than it reads texts |
| Frequency.CountFrequencies | src/app/api/analyze/route.ts:33-38 | The loop's table has exactly the texts as keys. Each count is the text's number of occurrences. Keys are created in first-seen order |
| Frequency.IncrementAsWritten | src/app/api/analyze/route.ts:37 | One increment of `frequency[val]` on a plain object, where `"__proto__"` leaves the table unchanged; characterised by `TableAsWrittenSkipsProto` |
| Frequency.TableAsWritten | src/app/api/analyze/route.ts:35-38 | The table the source's loop builds on a plain object, where the value `"__proto__"` goes to the prototype setter; characterised by `TableAsWrittenSkipsProto` |
| Frequency.TableAsWrittenSkipsProto | src/app/api/analyze/route.ts:37 | On every input, the as-written table holds exactly the texts other than `"__proto__"`, with their true counts; without `"__proto__"` it creates the keys in first-seen order (the source's table for texts that name no other `Object.prototype` member) |
| Frequency.ProtoValueIsLost | src/app/api/analyze/route.ts:37 | On a plain object, the present value `"__proto__"` leaves the table empty, although it should be counted once |
| Frequency.CountsSumToValues | src/app/api/analyze/route.ts:35-38 | The counts add up to the number of texts |
| Frequency.UniqueCountBound | src/app/api/analyze/route.ts:50 | uniqueCount = number of distinct texts <= number of texts |
| Frequency.IndexKeys | src/app/api/analyze/route.ts:40 | The array-index keys, in their order |
| Frequency.NamedKeys | src/app/api/analyze/route.ts:40 | The keys that are not array indices, in their order |
| Frequency.InsertByIndex | src/app/api/analyze/route.ts:40 | Adds one array-index key, keeping the same keys |
| Frequency.SortByIndex | src/app/api/analyze/route.ts:40 | A permutation of the array-index keys |
| Frequency.SortByIndexAscending | src/app/api/analyze/route.ts:40 | Array-index keys come out in ascending numeric order |
| Frequency.EntryOrder | src/app/api/analyze/route.ts:40 | The key order of `Object.entries`: array-index keys ascending, then the others in creation order; characterised by `EntryOrderSpec` |
| Frequency.EntryOrderPermutes | src/app/api/analyze/route.ts:40 | `Object.entries` lists every key exactly once |
| Frequency.EntryOrderSpec | src/app/api/analyze/route.ts:40 | Entry order is a permutation of the keys: array indices first and ascending, then the other keys in creation order |
| Ranking.InsertByCount | src/app/api/analyze/route.ts:41 | Inserting adds exactly one entry |
| Ranking.SortByCount | src/app/api/analyze/route.ts:41 | Sorting keeps the number of entries |
| Ranking.InsertByCountOrdered | src/app/api/analyze/route.ts:41 | Inserting into a list sorted by non-increasing count keeps it sorted |
| Ranking.InsertByCountPermutes | src/app/api/analyze/route.ts:41 | Inserting adds exactly the entry |
| Ranking.InsertByCountStable | src/app/api/analyze/route.ts:41 | The entry goes to the front of its count class; the other entries of that class keep their order |
| Ranking.SortByCountSpec | src/app/api/analyze/route.ts:41 | The comparator `b[1] - a[1]` with a stable sort gives: non-increasing counts, a permutation, and equal counts in input order |
| Ranking.Top | src/app/api/analyze/route.ts:42 | `.slice(0, 5)`: the first min(5, n) ranked entries |
| Ranking.Label | src/app/api/analyze/route.ts:45 | The value, a space, and the share with a percent sign in parentheses |
| Ranking.TopLabels | src/app/api/analyze/route.ts:42-46 | One label per kept entry; characterised by `TopLabelsSpec` |
| Ranking.TopLabelsSpec | src/app/api/analyze/route.ts:40-46 | `.slice(0, 5)` gives min(5, n) labels, each the key and its share; nothing cut off outranks a kept entry |
| Scenarios.AgeColumn | src/app/api/analyze/route.ts:21-31 | "30", "40", "" give min 30, max 40, avg 35, missing 1 |
| Scenarios.CityColumn | src/app/api/analyze/route.ts:32-53 | "Lima", "Lima", "Cusco" give 2 distinct values, ["Lima (67%)", "Cusco (33%)"], missing 0 |
| Scenarios.RoundedAverageOutsideRange | src/app/api/analyze/route.ts:29 | The single value 0.125 gives avg 0.13, above max |
| Scenarios.ArrayIndexWinsTie | src/app/api/analyze/route.ts:40-41 | "x" then "7" give ["7 (50%)", "x (50%)"]: the array-index key wins the tie |
| Scenarios.MixedColumnIsCategorical | src/app/api/analyze/route.ts:18-45 | The number 1 and the strings "2", "abc" give a categorical column with 3 distinct values, each at 33%; the number is counted under its text "1" |
| Scenarios.MissingHeaderReadsInheritedMember | src/app/api/analyze/route.ts:14-16 | Rows `{constructor: "a"}` and `{}` give a categorical column with 2 distinct values at 50% each and nothing missing: the second row reads the inherited constructor |

## Findings

| source | as written | input that shows it | evidently intended | confidence | as-written member | corrected member |
|---|---|---|---|---|---|---|
| src/app/api/analyze/route.ts:37 | The count is written to `frequency[val]` on a plain object literal. For `val == "__proto__"`, the read returns the object's prototype and the write goes to the inherited `__proto__` setter, which ignores a string. So the value is never counted | A column whose only present value is the string `"__proto__"`. It is categorical with uniqueCount 0 and no top values, although one cell is present | Every present text counted: uniqueCount 1, top value `"__proto__ (100%)"` (a table built as a `Map` or with `Object.create(null)`) | medium, not executed | Frequency.TableAsWritten, Frequency.ProtoValueIsLost | Frequency.CountFrequencies, Frequency.CountsSumToValues |

## Left out

- Other parts of the repository are not part of this model:
  - the POST handler that reads the request and calls the model API;
  - the prompt construction;
  - the page component and the styling configuration.
- `Number(string)`, `String(number)` and `String` of an inherited member
  are parameters (`Coercion`), not implementations. They cover the
  ECMAScript string-to-number grammar, the shortest round-trip number
  formatting and the implementation-defined source text of native functions.
- Numbers are exact reals, not IEEE-754 doubles. So the model does not
  capture:
  - rounding error in the running sum;
  - the binary value of decimal fractions (`(1.005).toFixed(2)` is
    `"1.00"`; the model gives 1.01);
  - `Infinity`, which `Number("Infinity")` produces;
  - `toFixed`'s exponent form for values of 10^21 and above.
- Stats.RoundTo2: models `toFixed(2)` on the exact value, not on the
  double nearest to it (see the previous item).
- Stats.Percent: rounds the exact share `100·count/rowCount`. The source
  rounds the double `count / rowCount * 100`, which can fall just below a
  half: 23 of 40 rows gives 57 in the source (`57.49999999999999`) and 58
  in the model, and 29 of 200 rows gives 14 against 15.
- Cells that are nested arrays or objects, and rows that are not objects,
  are not modelled. A `null` row makes the source throw.
- The key order of the returned `columns` record is not modelled. The model
  returns a map, and `GenerateDatasetProfile` visits the first row's keys
  in an unspecified order.
- Profiler.ColumnOf: counts a present `"__proto__"` value with the
  corrected table (`CountFrequencies`), so `GenerateDatasetProfile` reports
  it where the source loses it (see Findings and `TableAsWrittenSkipsProto`).
- Frequency.IncrementAsWritten: models only the `"__proto__"` defect of
  the increment. For a value naming another `Object.prototype` member
  (`toString`, `constructor`, `valueOf`, …) the source reads the inherited
  function and stores a string such as
  `"function toString() { [native code] }1"` as the count; the model stores 1.
- Frequency.TableAsWritten: is the source's table only for texts that name
  no `Object.prototype` member other than `"__proto__"`; for the others its
  counts are numbers where the source's are strings (see the previous line).
- Frequency.TableAsWrittenSkipsProto: its true counts hold for the
  as-written model, and so for the source only when no text names another
  `Object.prototype` member.
- A column header `"__proto__"` is not modelled. It would set the prototype
  of `profile` instead of adding a column. The model lists it as a column.
- Profiler.ColumnOf: values that name members inherited from
  `Object.prototype` (`toString`, `constructor`, `hasOwnProperty`, …) are
  counted like any other value. In the source, the first read of such a
  value from the frequency table yields the inherited function, so the
  count becomes a string and the sort comparator yields `NaN`.
- The argument-count limit of `Math.min(...)` / `Math.max(...)` on very
  long columns is not modelled.
