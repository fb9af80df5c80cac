/**
 * Ranking of a frequency table's entries: a stable sort by descending count,
 * the first five entries, and their labels `"<value> (<percent>%)"`.
 */
module Ranking {
  import opened Decimal
  import opened Stats

  /** One `[key, count]` pair of `Object.entries(frequency)`. */
  datatype Entry = Entry(key: string, count: nat)

  /** How many top values a categorical column reports. */
  const TOP_COUNT: nat := 5

  predicate NonIncreasing(entries: seq<Entry>)
  {
    forall i, j :: 0 <= i < j < |entries| ==> entries[i].count >= entries[j].count
  }

  /** The entries with the given count, in their order. */
  function WithCount(entries: seq<Entry>, c: nat): seq<Entry>
  {
    if entries == [] then []
    else (if entries[0].count == c then [entries[0]] else []) + WithCount(entries[1..], c)
  }

  /**
   * Inserts `e`, which preceded every entry of `sorted`, ahead of all entries
   * whose count does not exceed its own.
   */
  function InsertByCount(e: Entry, sorted: seq<Entry>): (r: seq<Entry>)
    ensures |r| == |sorted| + 1
  {
    if sorted == [] || sorted[0].count <= e.count then [e] + sorted
    else [sorted[0]] + InsertByCount(e, sorted[1..])
  }

  /** `entries.sort((a, b) => b[1] - a[1])`, a stable sort. */
  function SortByCount(entries: seq<Entry>): (r: seq<Entry>)
    ensures |r| == |entries|
  {
    if entries == [] then [] else InsertByCount(entries[0], SortByCount(entries[1..]))
  }

  lemma {:induction false} InsertByCountOrdered(e: Entry, sorted: seq<Entry>)
    requires NonIncreasing(sorted)
    ensures NonIncreasing(InsertByCount(e, sorted))
  {
    if sorted != [] && sorted[0].count > e.count {
      var head, rest := sorted[0], sorted[1..];
      InsertByCountOrdered(e, rest);
      InsertByCountPermutes(e, rest);
      var tail := InsertByCount(e, rest);
      forall j | 0 <= j < |tail|
        ensures head.count >= tail[j].count
      {
        assert tail[j] in multiset(tail);
        if tail[j] != e {
          assert tail[j] in multiset(rest);
          var k :| 0 <= k < |rest| && rest[k] == tail[j];
          assert sorted[k + 1] == tail[j];
        }
      }
      assert InsertByCount(e, sorted) == [head] + tail;
    }
  }

  lemma {:induction false} InsertByCountPermutes(e: Entry, sorted: seq<Entry>)
    ensures multiset(InsertByCount(e, sorted)) == multiset(sorted) + multiset{e}
  {
    if sorted != [] && sorted[0].count > e.count {
      InsertByCountPermutes(e, sorted[1..]);
      assert sorted == [sorted[0]] + sorted[1..];
    }
  }

  lemma {:induction false} InsertByCountStable(e: Entry, sorted: seq<Entry>, c: nat)
    ensures WithCount(InsertByCount(e, sorted), c) == (if e.count == c then [e] else []) + WithCount(sorted, c)
  {
    if sorted == [] || sorted[0].count <= e.count {
      WithCountCons(e, sorted, c);
    } else {
      var head, rest := sorted[0], sorted[1..];
      InsertByCountStable(e, rest, c);
      WithCountCons(head, InsertByCount(e, rest), c);
      WithCountCons(head, rest, c);
      assert sorted == [head] + rest;
    }
  }

  lemma WithCountCons(x: Entry, s: seq<Entry>, c: nat)
    ensures WithCount([x] + s, c) == (if x.count == c then [x] else []) + WithCount(s, c)
  {
    assert ([x] + s)[1..] == s;
  }

  /**
   * The ranking is ordered by non-increasing count, is a permutation of the
   * entries, and keeps the entries of any one count in their original order:
   * the sort is stable.
   */
  lemma {:induction false} SortByCountSpec(entries: seq<Entry>)
    ensures NonIncreasing(SortByCount(entries))
    ensures multiset(SortByCount(entries)) == multiset(entries)
    ensures forall c :: WithCount(SortByCount(entries), c) == WithCount(entries, c)
  {
    if entries != [] {
      var head, rest := entries[0], entries[1..];
      SortByCountSpec(rest);
      InsertByCountOrdered(head, SortByCount(rest));
      InsertByCountPermutes(head, SortByCount(rest));
      forall c
        ensures WithCount(SortByCount(entries), c) == WithCount(entries, c)
      {
        InsertByCountStable(head, SortByCount(rest), c);
      }
      assert entries == [head] + rest;
    }
  }

  /** `.slice(0, 5)`. */
  function Top(ranked: seq<Entry>): (top: seq<Entry>)
    ensures |top| == if |ranked| < TOP_COUNT then |ranked| else TOP_COUNT
    ensures top == ranked[..|top|]
  {
    if |ranked| <= TOP_COUNT then ranked else ranked[..TOP_COUNT]
  }

  /** `` `${val} (${pct}%)` ``. */
  function Label(key: string, percent: nat): string
  {
    key + " (" + NatText(percent) + "%)"
  }

  /** `.map(([val, count]) => label)` over the top entries, the share taken of all rows. */
  function TopLabels(ranked: seq<Entry>, rowCount: nat): seq<string>
    requires rowCount > 0
  {
    var top := Top(ranked);
    seq(|top|, i requires 0 <= i < |top| => Label(top[i].key, Percent(top[i].count, rowCount)))
  }

  /**
   * The labels name the first min(5, n) ranked entries, each with the
   * rounded share of all rows, and no entry left out has a higher count than
   * one listed.
   */
  lemma TopLabelsSpec(entries: seq<Entry>, rowCount: nat)
    requires rowCount > 0
    ensures |TopLabels(SortByCount(entries), rowCount)| == if |entries| < TOP_COUNT then |entries| else TOP_COUNT
    ensures forall i :: 0 <= i < |TopLabels(SortByCount(entries), rowCount)| ==>
      TopLabels(SortByCount(entries), rowCount)[i] ==
        Label(SortByCount(entries)[i].key, Percent(SortByCount(entries)[i].count, rowCount))
    ensures forall i, j :: 0 <= i < |TopLabels(SortByCount(entries), rowCount)| <= j < |entries| ==>
      SortByCount(entries)[i].count >= SortByCount(entries)[j].count
  {
    SortByCountSpec(entries);
  }
}
