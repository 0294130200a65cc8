/** src/features/logProbCache.ts: a get-or-compute cache of baseline
    log-probabilities keyed by feature name. */
module LogProbCaches {
  import opened Prelude
  import opened LogNums

  /** The hook that computes a missing entry, given the name, the
      computation and the entry already stored (if any). */
  type Compute = (string, () -> LogNum, Option<LogNum>) -> LogNum

  /** The default hook `(_, fn) => fn()`. */
  function JustCompute(name: string, fn: () -> LogNum, existing: Option<LogNum>): LogNum {
    fn()
  }

  class LogProbCache {
    var useCache: bool
    /** The record of known values ... */
    var knownLogProbs: map<string, LogNum>
    /** ... and its key order. */
    var order: seq<string>
    var wrapCompute: Compute

    ghost predicate Valid()
      reads this
    {
      && Distinct(order)
      && (forall i :: 0 <= i < |order| ==> order[i] in knownLogProbs)
      && (forall k :: k in knownLogProbs ==> k in order)
    }

    /** `new LogProbCache(data)`: caching on, every entry of the record
        turned into a `LogNum` by `fromExp`, and the default hook.  The
        record is given as its key order and its key-to-number map. */
    constructor (names: seq<string>, data: map<string, Float>)
      requires Distinct(names)
      requires forall i :: 0 <= i < |names| ==> names[i] in data
      requires forall k :: k in data ==> k in names
      ensures Valid()
      ensures useCache
      ensures order == names
      ensures knownLogProbs.Keys == data.Keys
      ensures forall k :: k in data ==> knownLogProbs[k] == FromExp(data[k])
      ensures wrapCompute == JustCompute
    {
      useCache := true;
      var known: map<string, LogNum> := map[];
      for i := 0 to |names|
        invariant known.Keys == set j | 0 <= j < i :: names[j]
        invariant forall k :: k in known ==> k in data && known[k] == FromExp(data[k])
      {
        known := known[names[i] := FromExp(data[names[i]])];
      }
      knownLogProbs := known;
      order := names;
      wrapCompute := JustCompute;
    }

    /** `dump()`: the header line, one `  "name": value,` line per entry in
        key order, and the closing line.  How a number is printed comes in
        as `show`. */
    function Dump(show: Float -> string): (lines: seq<string>)
      requires Valid()
      reads this
      ensures |lines| == |order| + 2
      ensures lines[0] == "export const knownLogProbs: Record<string, number> = {"
      ensures lines[|lines| - 1] == "};"
      ensures forall i :: 0 <= i < |order| ==>
        lines[i + 1] == "  \"" + order[i] + "\": " + show(knownLogProbs[order[i]].log) + ","
    {
      var names, known := order, knownLogProbs;
      ["export const knownLogProbs: Record<string, number> = {"]
        + seq(|names|, i requires 0 <= i < |names| =>
            "  \"" + names[i] + "\": " + show(known[names[i]].log) + ",")
        + ["};"]
    }

    /** `get(name, defaultLogProb)`: with caching on, a stored entry is
        returned as it is; otherwise the hook computes the value, which is
        stored under `name` (a new name goes to the end of the key order). */
    method Get(name: string, defaultLogProb: () -> LogNum) returns (r: LogNum)
      requires Valid()
      modifies this
      ensures Valid()
      ensures useCache == old(useCache) && wrapCompute == old(wrapCompute)
      ensures name in knownLogProbs && knownLogProbs[name] == r
      ensures old(useCache) && name in old(knownLogProbs) ==>
        r == old(knownLogProbs[name]) && knownLogProbs == old(knownLogProbs) && order == old(order)
      ensures !(old(useCache) && name in old(knownLogProbs)) ==>
        && r == old(wrapCompute)(name, defaultLogProb,
             if name in old(knownLogProbs) then Some(old(knownLogProbs[name])) else None)
        && knownLogProbs == old(knownLogProbs)[name := r]
        && order == old(order) + (if name in old(knownLogProbs) then [] else [name])
    {
      if useCache && name in knownLogProbs {
        return knownLogProbs[name];
      }
      var existing := if name in knownLogProbs then Some(knownLogProbs[name]) else None;
      r := wrapCompute(name, defaultLogProb, existing);
      if name !in knownLogProbs {
        order := order + [name];
      }
      knownLogProbs := knownLogProbs[name := r];
    }
  }

  /** With caching on, a second `get` of a name returns what the first one
      returned, whatever the second computation would give. */
  method SecondGetIsCached(names: seq<string>, data: map<string, Float>, name: string,
                           first: () -> LogNum, second: () -> LogNum)
    returns (a: LogNum, b: LogNum)
    requires Distinct(names)
    requires forall i :: 0 <= i < |names| ==> names[i] in data
    requires forall k :: k in data ==> k in names
    ensures a == b
    ensures name in data ==> a == FromExp(data[name])
    ensures name !in data ==> a == first()
  {
    var cache := new LogProbCache(names, data);
    a := cache.Get(name, first);
    b := cache.Get(name, second);
  }

  /** With caching off, every `get` recomputes (with the default hook, by
      calling the computation passed in) and overwrites the entry. */
  method UncachedGetRecomputes(names: seq<string>, data: map<string, Float>, name: string,
                               first: () -> LogNum, second: () -> LogNum)
    returns (a: LogNum, b: LogNum, stored: LogNum)
    requires Distinct(names)
    requires forall i :: 0 <= i < |names| ==> names[i] in data
    requires forall k :: k in data ==> k in names
    ensures a == first() && b == second() && stored == second()
  {
    var cache := new LogProbCache(names, data);
    cache.useCache := false;
    a := cache.Get(name, first);
    b := cache.Get(name, second);
    stored := cache.knownLogProbs[name];
  }
}
