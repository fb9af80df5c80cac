/**
 * The frequency table of a categorical column: a plain JavaScript object
 * whose properties are the distinct texts of the present values, each holding
 * how often it occurs. The object is modelled by its property values (a map)
 * and the order in which its properties were created; `Object.entries` lists
 * the array-index keys first, ascending, then the other keys in creation order.
 */
module Frequency {
  import opened Decimal

  ghost predicate Distinct<T>(s: seq<T>)
  {
    forall i, j :: 0 <= i < j < |s| ==> s[i] != s[j]
  }

  /** A list has no repeated element exactly when each element occurs at most once. */
  lemma {:induction false} DistinctIffSingleOccurrences<T>(s: seq<T>)
    ensures Distinct(s) <==> forall x :: multiset(s)[x] <= 1
  {
    if s != [] {
      var n := |s| - 1;
      var init, last := s[..n], s[n];
      DistinctIffSingleOccurrences(init);
      assert s == init + [last];
      assert Distinct(s) <==> Distinct(init) && last !in init by {
        assert forall k :: 0 <= k < n ==> s[k] == init[k];
      }
      assert multiset(s) == multiset(init) + multiset{last};
      assert forall x :: multiset(s)[x] == multiset(init)[x] + (if x == last then 1 else 0);
      if forall x :: multiset(s)[x] <= 1 {
        assert multiset(s)[last] <= 1;
        assert last !in init;
      }
      if (forall x :: multiset(init)[x] <= 1) && last !in init {
        forall x
          ensures multiset(s)[x] <= 1
        {
          if x == last {
            assert multiset(init)[x] == 0;
          }
        }
      }
    }
  }

  /** The distinct texts in the order of their first occurrence. */
  function FirstSeen(texts: seq<string>): seq<string>
  {
    if texts == [] then []
    else
      var init, last := texts[..|texts| - 1], texts[|texts| - 1];
      FirstSeen(init) + (if last in init then [] else [last])
  }

  /** Position of the first occurrence of `t`. */
  function FirstIndex(texts: seq<string>, t: string): (i: nat)
    requires t in texts
    ensures i < |texts| && texts[i] == t && t !in texts[..i]
  {
    if texts[0] == t then 0 else 1 + FirstIndex(texts[1..], t)
  }

  lemma FirstIndexInPrefix(texts: seq<string>, t: string, n: nat)
    requires n <= |texts| && t in texts[..n]
    ensures FirstIndex(texts, t) == FirstIndex(texts[..n], t)
  {
    var i, j := FirstIndex(texts, t), FirstIndex(texts[..n], t);
    assert texts[..n][..j] == texts[..j];
  }

  /** The table gets one property per distinct text. */
  lemma {:induction false} FirstSeenElements(texts: seq<string>)
    ensures Distinct(FirstSeen(texts))
    ensures forall t :: t in FirstSeen(texts) <==> t in texts
  {
    if texts != [] {
      var init := texts[..|texts| - 1];
      FirstSeenElements(init);
      assert texts == init + [texts[|texts| - 1]];
    }
  }

  /** The properties are created in the order of the texts' first occurrences. */
  lemma {:induction false} FirstSeenOrder(texts: seq<string>)
    ensures forall t :: t in FirstSeen(texts) ==> t in texts
    ensures forall i, j :: 0 <= i < j < |FirstSeen(texts)| ==>
      FirstIndex(texts, FirstSeen(texts)[i]) < FirstIndex(texts, FirstSeen(texts)[j])
  {
    FirstSeenElements(texts);
    if texts != [] {
      var n := |texts| - 1;
      var init, last := texts[..n], texts[n];
      FirstSeenOrder(init);
      FirstSeenElements(init);
      var prev := FirstSeen(init);
      assert texts == init + [last];
      forall i | 0 <= i < |prev|
        ensures FirstIndex(texts, prev[i]) == FirstIndex(init, prev[i])
      {
        FirstIndexInPrefix(texts, prev[i], n);
      }
      if last !in init {
        assert FirstIndex(texts, last) == n;
      }
    }
  }

  lemma {:induction false} FirstSeenLength(texts: seq<string>)
    ensures |FirstSeen(texts)| <= |texts|
  {
    if texts != [] {
      FirstSeenLength(texts[..|texts| - 1]);
    }
  }

  /**
   * `values.forEach(v => { frequency[String(v)] = (frequency[String(v)] || 0) + 1 })`
   * with the texts already computed: the table holds every distinct text with
   * its number of occurrences, and its properties were created in order of
   * first occurrence.
   */
  method CountFrequencies(texts: seq<string>) returns (frequency: map<string, nat>, order: seq<string>)
    ensures forall t :: t in frequency <==> t in texts
    ensures forall t :: t in frequency ==> frequency[t] == multiset(texts)[t]
    ensures order == FirstSeen(texts)
  {
    frequency, order := map[], [];
    for i := 0 to |texts|
      invariant forall t :: t in frequency <==> t in texts[..i]
      invariant forall t :: t in frequency ==> frequency[t] == multiset(texts[..i])[t]
      invariant order == FirstSeen(texts[..i])
    {
      var val := texts[i];
      assert texts[..i + 1] == texts[..i] + [val];
      if val in frequency {
        frequency := frequency[val := frequency[val] + 1];
      } else {
        frequency := frequency[val := 1];
        order := order + [val];
      }
    }
    assert texts[..|texts|] == texts;
  }

  /** The one key an assignment to a plain object cannot create as an own property. */
  const PROTO_KEY: string := "__proto__"

  /**
   * One increment `frequency[val] = (frequency[val] || 0) + 1` on the plain
   * object `{}` the source uses: for `val == "__proto__"` the read yields the
   * object's prototype and the write goes to the inherited `__proto__`
   * setter, which ignores a non-object value, so the table is unchanged.
   * Values naming the other members of `Object.prototype` (`toString`, …)
   * are counted here like any other text; in the source their count
   * becomes a string.
   */
  function IncrementAsWritten(frequency: map<string, nat>, order: seq<string>, val: string): (map<string, nat>, seq<string>)
  {
    if val == PROTO_KEY then (frequency, order)
    else if val in frequency then (frequency[val := frequency[val] + 1], order)
    else (frequency[val := 1], order + [val])
  }

  /**
   * The table the source's loop builds from `texts`, as (counts, creation
   * order), for texts that name no other `Object.prototype` member.
   */
  function TableAsWritten(texts: seq<string>): (map<string, nat>, seq<string>)
  {
    if texts == [] then (map[], [])
    else
      var prev := TableAsWritten(texts[..|texts| - 1]);
      IncrementAsWritten(prev.0, prev.1, texts[|texts| - 1])
  }

  /**
   * A single present value "__proto__" leaves the source's table empty: no
   * distinct value and counts adding up to 0 instead of 1, whereas the
   * counting of `CountFrequencies` keeps it.
   */
  lemma ProtoValueIsLost()
    ensures TableAsWritten([PROTO_KEY]) == (map[], [])
    ensures TotalCount(TableAsWritten([PROTO_KEY]).1, multiset([PROTO_KEY])) == 0 != |[PROTO_KEY]|
    ensures FirstSeen([PROTO_KEY]) == [PROTO_KEY]
    ensures TotalCount(FirstSeen([PROTO_KEY]), multiset([PROTO_KEY])) == 1
  {
    assert [PROTO_KEY][..0] == [];
    CountsSumToValues([PROTO_KEY]);
  }

  /**
   * On every input the as-written table differs from the intended one only
   * by "__proto__": it holds every other text with its number of occurrences,
   * and without "__proto__" among the texts it creates the keys in the same
   * order as `CountFrequencies`.
   */
  lemma {:induction false} TableAsWrittenSkipsProto(texts: seq<string>)
    ensures forall t :: t in TableAsWritten(texts).0 <==> t in texts && t != PROTO_KEY
    ensures forall t :: t in TableAsWritten(texts).0 ==> TableAsWritten(texts).0[t] == multiset(texts)[t]
    ensures PROTO_KEY !in texts ==> TableAsWritten(texts).1 == FirstSeen(texts)
  {
    if texts != [] {
      var init, last := texts[..|texts| - 1], texts[|texts| - 1];
      TableAsWrittenSkipsProto(init);
      assert texts == init + [last];
      assert multiset(texts) == multiset(init) + multiset{last};
      assert PROTO_KEY in init ==> PROTO_KEY in texts;
    }
  }

  /** The sum of the counts of `keys`. */
  function TotalCount(keys: seq<string>, counts: multiset<string>): nat
  {
    if keys == [] then 0 else TotalCount(keys[..|keys| - 1], counts) + counts[keys[|keys| - 1]]
  }

  lemma {:induction false} TotalCountAddOne(keys: seq<string>, counts: multiset<string>, t: string)
    requires Distinct(keys)
    ensures TotalCount(keys, counts + multiset{t}) == TotalCount(keys, counts) + (if t in keys then 1 else 0)
  {
    if keys != [] {
      var init := keys[..|keys| - 1];
      TotalCountAddOne(init, counts, t);
      assert keys == init + [keys[|keys| - 1]];
    }
  }

  /** The counts of a frequency table add up to the number of values counted. */
  lemma {:induction false} CountsSumToValues(texts: seq<string>)
    ensures TotalCount(FirstSeen(texts), multiset(texts)) == |texts|
  {
    if texts != [] {
      var n := |texts| - 1;
      var init, last := texts[..n], texts[n];
      var prev, counts := FirstSeen(init), multiset(init);
      CountsSumToValues(init);
      FirstSeenElements(init);
      assert texts == init + [last];
      assert multiset(texts) == counts + multiset{last};
      TotalCountAddOne(prev, counts, last);
      if last in init {
        assert FirstSeen(texts) == prev;
      } else {
        var keys := prev + [last];
        assert FirstSeen(texts) == keys;
        assert keys[..|keys| - 1] == prev;
        assert TotalCount(keys, counts + multiset{last}) == TotalCount(prev, counts + multiset{last}) + (counts + multiset{last})[last];
      }
    }
  }

  /** The number of properties is the number of distinct texts, at most the number of values. */
  lemma UniqueCountBound(texts: seq<string>)
    ensures |FirstSeen(texts)| == |set t | t in texts|
    ensures |FirstSeen(texts)| <= |texts|
  {
    FirstSeenElements(texts);
    FirstSeenLength(texts);
    var keys := FirstSeen(texts);
    assert (set t | t in texts) == (set t | t in keys);
    DistinctCardinality(keys);
  }

  lemma {:induction false} DistinctCardinality(keys: seq<string>)
    requires Distinct(keys)
    ensures |set t | t in keys| == |keys|
  {
    if keys != [] {
      var init, last := keys[..|keys| - 1], keys[|keys| - 1];
      DistinctCardinality(init);
      assert (set t | t in keys) == (set t | t in init) + {last};
    }
  }

  // ---------------------------------------------------------------------
  // Property order of `Object.entries`
  // ---------------------------------------------------------------------

  /** The array-index keys, in creation order. */
  function IndexKeys(keys: seq<string>): (r: seq<string>)
    ensures forall k :: k in r ==> IsArrayIndex(k)
  {
    if keys == [] then []
    else IndexKeys(keys[..|keys| - 1]) + (if IsArrayIndex(keys[|keys| - 1]) then [keys[|keys| - 1]] else [])
  }

  /** The other keys, in creation order. */
  function NamedKeys(keys: seq<string>): (r: seq<string>)
    ensures forall k :: k in r ==> !IsArrayIndex(k)
  {
    if keys == [] then []
    else NamedKeys(keys[..|keys| - 1]) + (if IsArrayIndex(keys[|keys| - 1]) then [] else [keys[|keys| - 1]])
  }

  /** Inserts an array-index key into a list ascending by numeric value. */
  function InsertByIndex(k: string, sorted: seq<string>): (r: seq<string>)
    requires IsArrayIndex(k) && forall s :: s in sorted ==> IsArrayIndex(s)
    ensures forall s :: s in r ==> IsArrayIndex(s)
    ensures multiset(r) == multiset(sorted) + multiset{k}
  {
    if sorted == [] || IndexValue(k) <= IndexValue(sorted[0]) then [k] + sorted
    else
      assert sorted == [sorted[0]] + sorted[1..];
      [sorted[0]] + InsertByIndex(k, sorted[1..])
  }

  predicate AscendingIndices(keys: seq<string>)
    requires forall k :: k in keys ==> IsArrayIndex(k)
  {
    forall i, j :: 0 <= i < j < |keys| ==> IndexValue(keys[i]) <= IndexValue(keys[j])
  }

  function SortByIndex(keys: seq<string>): (r: seq<string>)
    requires forall k :: k in keys ==> IsArrayIndex(k)
    ensures forall s :: s in r ==> IsArrayIndex(s)
    ensures multiset(r) == multiset(keys)
  {
    if keys == [] then []
    else
      assert keys == [keys[0]] + keys[1..];
      InsertByIndex(keys[0], SortByIndex(keys[1..]))
  }

  lemma {:induction false} InsertByIndexAscending(k: string, sorted: seq<string>)
    requires IsArrayIndex(k) && forall s :: s in sorted ==> IsArrayIndex(s)
    requires AscendingIndices(sorted)
    ensures AscendingIndices(InsertByIndex(k, sorted))
  {
    if sorted != [] && IndexValue(k) > IndexValue(sorted[0]) {
      var rest := sorted[1..];
      InsertByIndexAscending(k, rest);
      var r := InsertByIndex(k, rest);
      forall s | s in r
        ensures IndexValue(sorted[0]) <= IndexValue(s)
      {
        assert s in multiset(r);
        if s != k {
          assert s in multiset(rest);
          var i :| 0 <= i < |rest| && rest[i] == s;
          assert sorted[i + 1] == s;
        }
      }
      AscendingCons(sorted[0], r);
    }
  }

  lemma AscendingCons(h: string, r: seq<string>)
    requires IsArrayIndex(h) && forall s :: s in r ==> IsArrayIndex(s)
    requires AscendingIndices(r)
    requires forall s :: s in r ==> IndexValue(h) <= IndexValue(s)
    ensures forall s :: s in [h] + r ==> IsArrayIndex(s)
    ensures AscendingIndices([h] + r)
  {
    var t := [h] + r;
    forall i, j | 0 <= i < j < |t|
      ensures IndexValue(t[i]) <= IndexValue(t[j])
    {
      assert t[j] == r[j - 1];
      if i > 0 {
        assert t[i] == r[i - 1];
      }
    }
  }

  lemma {:induction false} SortByIndexAscending(keys: seq<string>)
    requires forall k :: k in keys ==> IsArrayIndex(k)
    ensures AscendingIndices(SortByIndex(keys))
  {
    if keys != [] {
      SortByIndexAscending(keys[1..]);
      InsertByIndexAscending(keys[0], SortByIndex(keys[1..]));
    }
  }

  /** The order in which `Object.entries` lists the properties created in order `keys`. */
  function EntryOrder(keys: seq<string>): seq<string>
  {
    SortByIndex(IndexKeys(keys)) + NamedKeys(keys)
  }

  lemma {:induction false} SplitKeysPermutation(keys: seq<string>)
    ensures multiset(IndexKeys(keys)) + multiset(NamedKeys(keys)) == multiset(keys)
  {
    if keys != [] {
      var init, last := keys[..|keys| - 1], keys[|keys| - 1];
      SplitKeysPermutation(init);
      assert multiset(keys) == multiset(init) + multiset{last} by {
        assert keys == init + [last];
      }
      if IsArrayIndex(last) {
        assert IndexKeys(keys) == IndexKeys(init) + [last];
        assert NamedKeys(keys) == NamedKeys(init);
      } else {
        assert IndexKeys(keys) == IndexKeys(init);
        assert NamedKeys(keys) == NamedKeys(init) + [last];
      }
    }
  }

  /** Without array-index keys, `Object.entries` follows creation order. */
  lemma {:induction false} EntryOrderOfNamedKeys(keys: seq<string>)
    requires forall k :: k in keys ==> !IsArrayIndex(k)
    ensures EntryOrder(keys) == keys
  {
    NoIndexKeys(keys);
    AllNamedKeys(keys);
  }

  lemma {:induction false} NoIndexKeys(keys: seq<string>)
    requires forall k :: k in keys ==> !IsArrayIndex(k)
    ensures IndexKeys(keys) == []
  {
    if keys != [] {
      var init := keys[..|keys| - 1];
      assert forall k :: k in init ==> k in keys;
      NoIndexKeys(init);
      assert keys[|keys| - 1] in keys;
    }
  }

  lemma {:induction false} AllNamedKeys(keys: seq<string>)
    requires forall k :: k in keys ==> !IsArrayIndex(k)
    ensures NamedKeys(keys) == keys
  {
    if keys != [] {
      var init := keys[..|keys| - 1];
      assert forall k :: k in init ==> k in keys;
      AllNamedKeys(init);
      assert keys[|keys| - 1] in keys;
      assert keys == init + [keys[|keys| - 1]];
    }
  }

  lemma EntryOrderPermutes(keys: seq<string>)
    ensures multiset(EntryOrder(keys)) == multiset(keys)
  {
    SplitKeysPermutation(keys);
  }

  /**
   * `Object.entries` lists each property once: array-index keys first in
   * ascending numeric order, then every other key in creation order.
   */
  lemma EntryOrderSpec(keys: seq<string>)
    ensures multiset(EntryOrder(keys)) == multiset(keys)
    ensures forall i, j :: 0 <= i < j < |EntryOrder(keys)| && IsArrayIndex(EntryOrder(keys)[j]) ==>
      IsArrayIndex(EntryOrder(keys)[i]) && IndexValue(EntryOrder(keys)[i]) <= IndexValue(EntryOrder(keys)[j])
    ensures NamedKeys(EntryOrder(keys)) == NamedKeys(keys)
  {
    SplitKeysPermutation(keys);
    var ix, named := SortByIndex(IndexKeys(keys)), NamedKeys(keys);
    SortByIndexAscending(IndexKeys(keys));
    var r := EntryOrder(keys);
    forall i, j | 0 <= i < j < |r| && IsArrayIndex(r[j])
      ensures IsArrayIndex(r[i]) && IndexValue(r[i]) <= IndexValue(r[j])
    {
      if j >= |ix| {
        assert false;
      }
      assert r[i] == ix[i] && r[j] == ix[j];
    }
    NamedKeysOfConcat(ix, named);
  }

  lemma {:induction false} NamedKeysOfConcat(ix: seq<string>, named: seq<string>)
    requires forall k :: k in ix ==> IsArrayIndex(k)
    requires forall k :: k in named ==> !IsArrayIndex(k)
    ensures NamedKeys(ix + named) == named
  {
    if named == [] {
      assert ix + named == ix;
      NamedKeysOfIndices(ix);
    } else {
      var init := named[..|named| - 1];
      NamedKeysOfConcat(ix, init);
      assert (ix + named)[..|ix + named| - 1] == ix + init;
      assert named[|named| - 1] in named;
    }
  }

  lemma {:induction false} NamedKeysOfIndices(ix: seq<string>)
    requires forall k :: k in ix ==> IsArrayIndex(k)
    ensures NamedKeys(ix) == []
  {
    if ix != [] {
      NamedKeysOfIndices(ix[..|ix| - 1]);
      assert ix[|ix| - 1] in ix;
    }
  }
}
