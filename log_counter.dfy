/** src/lib/logCounter.ts: a map from items to occurrence counts.  The source
    stores each count as `LogNum.from(count)`; here the count is kept as the
    exact natural number it carries.  Items are JavaScript property keys,
    which hold no references (hence `!new`). */
module LogCounters {
  import opened Prelude

  /** How often each distinct item of `data` occurs. */
  function Tally<T(==,!new)>(data: seq<T>): (m: map<T, nat>)
    ensures m.Keys == set x | x in data
  {
    if data == [] then map[]
    else
      var m := Tally(data[..|data| - 1]);
      var x := data[|data| - 1];
      assert forall y :: y in data <==> y in data[..|data| - 1] || y == x by {
        assert data == data[..|data| - 1] + [x];
      }
      m[x := (if x in m then m[x] else 0) + 1]
  }

  lemma {:induction false} TallyAppend<T(!new)>(data: seq<T>, x: T)
    ensures Tally(data + [x]) == Tally(data)[x := (if x in Tally(data) then Tally(data)[x] else 0) + 1]
  {
    assert (data + [x])[..|data|] == data;
  }

  /** Each key is mapped to its number of occurrences, which is at least one. */
  lemma {:induction false} TallyCount<T(!new)>(data: seq<T>, x: T)
    ensures x in Tally(data) ==> Tally(data)[x] == multiset(data)[x] >= 1
  {
    if data != [] {
      var prefix, last := data[..|data| - 1], data[|data| - 1];
      assert data == prefix + [last];
      TallyCount(prefix, x);
      TallyAppend(prefix, last);
    }
  }

  /** The sum of the counts of `keys`, in order (`LogNum.sum` of the values;
      a key without a count adds nothing). */
  function SumOver<T>(keys: seq<T>, m: map<T, nat>): nat
  {
    if keys == [] then 0
    else
      var k := keys[|keys| - 1];
      SumOver(keys[..|keys| - 1], m) + (if k in m then m[k] else 0)
  }

  lemma {:induction false} SumOverUpdateAbsent<T>(keys: seq<T>, m: map<T, nat>, x: T, v: nat)
    requires x !in keys
    ensures SumOver(keys, m[x := v]) == SumOver(keys, m)
  {
    if keys != [] {
      SumOverUpdateAbsent(keys[..|keys| - 1], m, x, v);
    }
  }

  lemma {:induction false} SumOverIncrement<T>(keys: seq<T>, m: map<T, nat>, x: T)
    requires Distinct(keys) && x in keys && x in m
    ensures SumOver(keys, m[x := m[x] + 1]) == SumOver(keys, m) + 1
  {
    var prefix, last := keys[..|keys| - 1], keys[|keys| - 1];
    if last == x {
      assert x !in prefix;
      SumOverUpdateAbsent(prefix, m, x, m[x] + 1);
    } else {
      assert x in prefix;
      SumOverIncrement(prefix, m, x);
    }
  }

  /** The counts, summed over the keys in first-occurrence order, give the
      length of the data. */
  lemma {:induction false} TallySum<T(!new)>(data: seq<T>)
    ensures SumOver(Dedup(data), Tally(data)) == |data|
  {
    if data != [] {
      var prefix, x := data[..|data| - 1], data[|data| - 1];
      assert data == prefix + [x];
      TallySum(prefix);
      var m, d := Tally(prefix), Dedup(prefix);
      DedupSpec(prefix);
      DedupAppend(prefix, x);
      TallyAppend(prefix, x);
      if x in prefix {
        SumOverIncrement(d, m, x);
      } else {
        SumOverUpdateAbsent(d, m, x, 1);
        assert (d + [x])[..|d|] == d;
      }
    }
  }

  /** There are as many keys as distinct items. */
  lemma {:induction false} TallySize<T(!new)>(data: seq<T>)
    ensures |Tally(data)| == |set x | x in data|
  {
    assert Tally(data).Keys == set x | x in data;
  }

  class LogCounter<T(==,!new)> {
    /** The `Map` of counts as a key set with values ... */
    const counts: map<T, nat>
    /** ... and the `Map`'s iteration order. */
    const keys: seq<T>
    var totalCache: Option<nat>

    ghost predicate Valid() {
      && Distinct(keys)
      && (forall i :: 0 <= i < |keys| ==> keys[i] in counts)
      && (forall x :: x in counts ==> x in keys)
    }

    /** `new LogCounter(counts, totalCache)`; `keys` is the iteration order of
        the `Map` passed in. */
    constructor (counts: map<T, nat>, keys: seq<T>, totalCache: Option<nat>)
      requires Distinct(keys)
      requires forall i :: 0 <= i < |keys| ==> keys[i] in counts
      requires forall x :: x in counts ==> x in keys
      ensures Valid()
      ensures this.counts == counts && this.keys == keys && this.totalCache == totalCache
    {
      this.counts := counts;
      this.keys := keys;
      this.totalCache := totalCache;
    }

    /** `LogCounter.from(data)`: one pass over `data`, then the total is
        cached as `data.length`. */
    static method From(data: seq<T>) returns (c: LogCounter<T>)
      ensures fresh(c) && c.Valid()
      ensures c.counts == Tally(data) && c.keys == Dedup(data)
      ensures c.totalCache == Some(|data|)
    {
      var counts: map<T, nat> := map[];
      var keys: seq<T> := [];
      for i := 0 to |data|
        invariant counts == Tally(data[..i])
        invariant keys == Dedup(data[..i])
      {
        var item := data[i];
        assert data[..i + 1] == data[..i] + [item];
        TallyAppend(data[..i], item);
        DedupAppend(data[..i], item);
        if item !in counts {
          keys := keys + [item];
        }
        counts := counts[item := (if item in counts then counts[item] else 0) + 1];
      }
      assert data[..|data|] == data;
      DedupSpec(data);
      c := new LogCounter(counts, keys, Some(|data|));
    }

    /** `distinct`: the number of distinct items, one per key in iteration
        order. */
    function DistinctCount(): (n: nat)
      requires Valid()
      ensures n == |keys|
    {
      assert counts.Keys == set x | x in keys;
      DistinctCard(keys);
      |counts|
    }

    /** `get(item)`: the count of an item among the iterated keys, 0 for an
        item never seen. */
    function Get(item: T): (n: nat)
      requires Valid()
      ensures item in keys ==> n == counts[item]
      ensures item !in keys ==> n == 0
    {
      if item in counts then counts[item] else 0
    }

    /** `total`: the cached total, or else the sum of the counts, which is
        then cached. */
    method Total() returns (t: nat)
      requires Valid()
      modifies this`totalCache
      ensures old(totalCache).Some? ==> t == old(totalCache).value && totalCache == old(totalCache)
      ensures old(totalCache).None? ==> t == SumOver(keys, counts) && totalCache == Some(t)
    {
      if totalCache.None? {
        totalCache := Some(SumOver(keys, counts));
      }
      t := totalCache.value;
    }
  }

  /** Counting `data` and reading the counter back: `get` is the number of
      occurrences, `distinct` the number of distinct items, `total` the length. */
  method CountOccurrences<T(==,!new)>(data: seq<T>, x: T) returns (count: nat, distinct: nat, total: nat)
    ensures count == multiset(data)[x]
    ensures distinct == |set y | y in data|
    ensures total == |data|
  {
    var counter := LogCounter.From(data);
    count := counter.Get(x);
    TallyCount(data, x);
    if x !in data {
      assert multiset(data)[x] == 0;
    }
    distinct := counter.DistinctCount();
    TallySize(data);
    total := counter.Total();
  }

  /** A counter built from the same counts without a cached total computes
      the total lazily, and gets the length of the data all the same. */
  method LazyTotal<T(==,!new)>(data: seq<T>) returns (total: nat)
    ensures total == |data|
  {
    DedupSpec(data);
    var counter := new LogCounter(Tally(data), Dedup(data), None);
    total := counter.Total();
    TallySum(data);
  }
}
