/** src/lib/wordlist.ts: the word corpus, a record from slugs to Zipf
    frequencies, with an index from letter-multiset codes to words. */
module Wordlists {
  import opened Prelude
  import opened LetterBitsets
  import opened LogNums

  /** The codes of the words, in order. */
  function Codes(ws: seq<Slug>): (r: seq<int>)
    ensures |r| == |ws| && forall i :: 0 <= i < |ws| ==> r[i] == Code(ws[i])
  {
    seq(|ws|, i requires 0 <= i < |ws| => Code(ws[i]))
  }

  /** The `letterCounters` map the constructor fills: each word stored under
      its code, a later word replacing an earlier one with the same code. */
  function CounterIndex(ws: seq<Slug>): map<int, Slug> {
    if ws == [] then map[] else CounterIndex(ws[..|ws| - 1])[Code(ws[|ws| - 1]) := ws[|ws| - 1]]
  }

  /** The keys of the index are exactly the codes of the words. */
  lemma {:induction false} CounterIndexKeys(ws: seq<Slug>)
    ensures forall k :: k in CounterIndex(ws) <==> k in Codes(ws)
  {
    if ws != [] {
      var prefix := ws[..|ws| - 1];
      CounterIndexKeys(prefix);
      assert Codes(ws) == Codes(prefix) + [Code(ws[|ws| - 1])];
    }
  }

  /** Every stored word is one of the words, and is stored under its own code. */
  lemma {:induction false} CounterIndexStored(ws: seq<Slug>, k: int)
    requires k in CounterIndex(ws)
    ensures CounterIndex(ws)[k] in ws && Code(CounterIndex(ws)[k]) == k
  {
    var prefix := ws[..|ws| - 1];
    if k != Code(ws[|ws| - 1]) {
      CounterIndexStored(prefix, k);
      assert forall w :: w in prefix ==> w in ws;
    }
  }

  /** When codes collide, the last word with the code wins. */
  lemma {:induction false} CounterIndexLastWins(ws: seq<Slug>, i: nat)
    requires i < |ws|
    requires forall j :: i < j < |ws| ==> Code(ws[j]) != Code(ws[i])
    ensures Code(ws[i]) in CounterIndex(ws) && CounterIndex(ws)[Code(ws[i])] == ws[i]
  {
    var prefix := ws[..|ws| - 1];
    if i < |ws| - 1 {
      CounterIndexLastWins(prefix, i);
    }
  }

  /** What `isTransadd` and `isTransdelete` return: the stored word and the
      letter. */
  datatype Trans = Trans(other: Slug, letter: char)

  /** The test applied to each stored code: `counter.transaddOf(otherBitset)`
      for a transadd, `counter.transdeleteOf(otherBitset)` for a transdelete. */
  function Probe(code: int, other: int, delete: bool): (r: Option<char>)
    ensures r.Some? ==> IsLetter(r.value)
    ensures r.Some? && !delete ==> LetterMask(r.value) == code - other
    ensures r.Some? && delete ==> LetterMask(r.value) == other - code
  {
    if delete then LetterBitset(code).TransdeleteOf(LetterBitset(other))
    else LetterBitset(code).TransaddOf(LetterBitset(other))
  }

  /** Scanning the stored codes from position `k`, in the map's insertion
      order, and returning at the first code the probe accepts. */
  function Scan(code: int, order: seq<int>, counters: map<int, Slug>, delete: bool, k: nat): Option<Trans>
    requires k <= |order|
    requires forall i :: 0 <= i < |order| ==> order[i] in counters
    decreases |order| - k
  {
    if k == |order| then None
    else
      var letter := Probe(code, order[k], delete);
      if letter.Some? then Some(Trans(counters[order[k]], letter.value))
      else Scan(code, order, counters, delete, k + 1)
  }

  /** The scan from `k` stops at position `j` with result `t`: the probe
      rejects every code before `j` and accepts `order[j]`, stored with the
      word of `t`. */
  predicate StopsAt(code: int, order: seq<int>, counters: map<int, Slug>, delete: bool, k: nat, j: int, t: Trans) {
    && k <= j < |order|
    && (forall i :: k <= i < j ==> Probe(code, order[i], delete).None?)
    && Probe(code, order[j], delete) == Some(t.letter)
    && order[j] in counters && t.other == counters[order[j]]
  }

  /** The scan fails exactly when the probe rejects every code from `k` on;
      otherwise it returns the word stored under the first code accepted. */
  lemma {:induction false} ScanFirst(code: int, order: seq<int>, counters: map<int, Slug>, delete: bool, k: nat)
    requires k <= |order|
    requires forall i :: 0 <= i < |order| ==> order[i] in counters
    ensures var r := Scan(code, order, counters, delete, k);
      && (r.None? <==> forall j :: k <= j < |order| ==> Probe(code, order[j], delete).None?)
      && (r.Some? ==> exists j :: StopsAt(code, order, counters, delete, k, j, r.value))
    decreases |order| - k
  {
    var r := Scan(code, order, counters, delete, k);
    if k < |order| {
      if Probe(code, order[k], delete).Some? {
        assert StopsAt(code, order, counters, delete, k, k, r.value);
      } else {
        ScanFirst(code, order, counters, delete, k + 1);
        if r.Some? {
          var j :| StopsAt(code, order, counters, delete, k + 1, j, r.value);
          assert StopsAt(code, order, counters, delete, k, j, r.value);
        }
      }
    }
  }

  /** The constructor's loop: one pass over the keys, setting each word under
      its code in `letterCounters`; a new code is appended to the map's
      iteration order, an existing one keeps its place. */
  method IndexWords(words: seq<Slug>) returns (counters: map<int, Slug>, order: seq<int>)
    ensures counters == CounterIndex(words)
    ensures order == Dedup(Codes(words))
  {
    counters := map[];
    order := [];
    for i := 0 to |words|
      invariant counters == CounterIndex(words[..i])
      invariant order == Dedup(Codes(words[..i]))
    {
      var word := words[i];
      var data := LetterBitset.From(word);
      assert words[..i + 1][..i] == words[..i];
      assert Codes(words[..i + 1]) == Codes(words[..i]) + [data.data];
      CounterIndexKeys(words[..i]);
      DedupAppend(Codes(words[..i]), data.data);
      if data.data !in counters {
        order := order + [data.data];
      }
      counters := counters[data.data := word];
    }
    assert words[..|words|] == words;
  }

  class Wordlist {
    /** The keys of the record, in order. */
    const words: seq<Slug>
    /** The record itself: the Zipf frequency of each word. */
    const zipf: map<Slug, real>
    /** `letterCounters`: the `Map` from codes to words ... */
    const letterCounters: map<int, Slug>
    /** ... and its iteration order. */
    const counterOrder: seq<int>

    ghost predicate Valid() {
      && Distinct(words)
      && (forall i :: 0 <= i < |words| ==> words[i] in zipf)
      && (forall w :: w in zipf ==> w in words)
      && letterCounters == CounterIndex(words)
      && counterOrder == Dedup(Codes(words))
      && (forall i :: 0 <= i < |counterOrder| ==> counterOrder[i] in letterCounters)
    }

    /** `new Wordlist(wordlist)`.  The record is given as its key order and
        its key-to-frequency map. */
    constructor (words: seq<Slug>, zipf: map<Slug, real>)
      requires Distinct(words)
      requires forall i :: 0 <= i < |words| ==> words[i] in zipf
      requires forall w :: w in zipf ==> w in words
      ensures this.words == words && this.zipf == zipf
      ensures letterCounters == CounterIndex(words)
      ensures counterOrder == Dedup(Codes(words))
      ensures Valid()
    {
      var counters, order := IndexWords(words);
      CounterIndexKeys(words);
      DedupSpec(Codes(words));
      this.words := words;
      this.zipf := zipf;
      this.letterCounters := counters;
      this.counterOrder := order;
    }

    /** Every key of `letterCounters` is in its iteration order. */
    lemma OrderInCounters()
      requires Valid()
      ensures forall k :: k in letterCounters ==> k in counterOrder
    {
      CounterIndexKeys(words);
      DedupSpec(Codes(words));
    }

    /** `reduce(initial, reducer)` over the first `n` entries of the record. */
    function Fold<T>(initial: T, reducer: (T, Slug, real) -> T, n: nat): T
      requires Valid() && n <= |words|
    {
      if n == 0 then initial
      else reducer(Fold(initial, reducer, n - 1), words[n - 1], zipf[words[n - 1]])
    }

    /** A reducer that leaves the accumulator as it is on each of the first
        `n` entries leaves the initial value. */
    lemma {:induction false} FoldIgnoring<T>(initial: T, reducer: (T, Slug, real) -> T, n: nat)
      requires Valid() && n <= |words|
      ensures (forall i, acc :: 0 <= i < n ==> reducer(acc, words[i], zipf[words[i]]) == acc) ==>
        Fold(initial, reducer, n) == initial
    {
      if n > 0 {
        FoldIgnoring(initial, reducer, n - 1);
      }
    }

    /** `reduce(initial, reducer)`: the reducer applied to every entry, in key
        order (`ReduceVisitsInOrder`).  Entries the reducer passes over leave
        no trace: if it keeps the accumulator on every entry, the result is
        `initial`. */
    function Reduce<T(!new)>(initial: T, reducer: (T, Slug, real) -> T): (r: T)
      requires Valid()
      ensures (forall i, acc :: 0 <= i < |words| ==> reducer(acc, words[i], zipf[words[i]]) == acc) ==>
        r == initial
    {
      FoldIgnoring(initial, reducer, |words|);
      Fold(initial, reducer, |words|)
    }

    /** A reducer that records the slugs it sees gets every word once, in key
        order. */
    lemma ReduceVisitsInOrder()
      requires Valid()
      ensures Reduce([], (acc: seq<Slug>, slug: Slug, z: real) => acc + [slug]) == words
    {
      var collect := (acc: seq<Slug>, slug: Slug, z: real) => acc + [slug];
      FoldCollects(collect, |words|);
      assert words[..|words|] == words;
    }

    lemma {:induction false} FoldCollects(collect: (seq<Slug>, Slug, real) -> seq<Slug>, n: nat)
      requires Valid() && n <= |words|
      requires forall acc, slug, z :: collect(acc, slug, z) == acc + [slug]
      ensures Fold([], collect, n) == words[..n]
    {
      if n > 0 {
        FoldCollects(collect, n - 1);
        assert words[..n] == words[..n - 1] + [words[n - 1]];
      }
    }

    /** `logProb(property)`: the log-space sum of the Zipf probabilities of
        the words with the property, starting from `LogNum.from(0)`.  A
        property no word has leaves the sum at `LogNum.from(0)`. */
    function LogProb(arith: Arith, property: Slug -> bool): (r: LogNum)
      requires Valid()
      ensures (forall i :: 0 <= i < |words| ==> !property(words[i])) ==> r == arith.from(0)
    {
      Reduce(arith.from(0), (acc: LogNum, slug: Slug, z: real) =>
        if !property(slug) then acc else arith.add(acc, arith.fromZipf(z)))
    }

    /** `isWord(slug)`: `slug` is a key of the record. */
    predicate IsWord(slug: string)
      requires Valid()
      ensures IsWord(slug) <==> slug in words
    {
      IsSlug(slug) && slug in zipf
    }

    /** `isAnagram(slug)`: the word stored under the slug's code, if any.  It
        can be the slug itself, and it can be the empty word. */
    function IsAnagram(slug: Slug): (r: Option<Slug>)
      requires Valid()
      ensures r.Some? <==> Code(slug) in Codes(words)
      ensures r.Some? ==> r.value in words && Code(r.value) == Code(slug)
    {
      CounterIndexKeys(words);
      var code := Code(slug);
      if code in letterCounters then
        CounterIndexStored(words, code);
        Some(letterCounters[code])
      else None
    }

    /** `isTransadd(slug)`: scans `letterCounters` in order and returns the
        first stored word that `slug` is a transadd of. */
    method IsTransadd(slug: Slug) returns (r: Option<Trans>)
      requires Valid()
      ensures r == Scan(Code(slug), counterOrder, letterCounters, false, 0)
    {
      var counter := LetterBitset.From(slug);
      for k := 0 to |counterOrder|
        invariant Scan(Code(slug), counterOrder, letterCounters, false, 0)
          == Scan(Code(slug), counterOrder, letterCounters, false, k)
      {
        var otherCount := counterOrder[k];
        var other := letterCounters[otherCount];
        var letter := counter.TransaddOf(LetterBitset(otherCount));
        if letter.Some? {
          return Some(Trans(other, letter.value));
        }
      }
      return None;
    }

    /** `isTransdelete(slug)`: the same scan with `transdeleteOf`. */
    method IsTransdelete(slug: Slug) returns (r: Option<Trans>)
      requires Valid()
      ensures r == Scan(Code(slug), counterOrder, letterCounters, true, 0)
    {
      var counter := LetterBitset.From(slug);
      for k := 0 to |counterOrder|
        invariant Scan(Code(slug), counterOrder, letterCounters, true, 0)
          == Scan(Code(slug), counterOrder, letterCounters, true, k)
      {
        var otherCount := counterOrder[k];
        var other := letterCounters[otherCount];
        var letter := counter.TransdeleteOf(LetterBitset(otherCount));
        if letter.Some? {
          return Some(Trans(other, letter.value));
        }
      }
      return None;
    }

    /** No word of the corpus holds any letter more than `k` times. */
    predicate WordsBounded(k: nat) {
      forall i :: 0 <= i < |words| ==> Bounded(words[i], k)
    }

    /** `isAnagram` finds a word exactly when some word has the slug's letter
        multiset, as long as no letter occurs more than 31 times. */
    lemma IsAnagramMeaning(slug: Slug)
      requires Valid() && WordsBounded(31) && Bounded(slug, 31)
      ensures IsAnagram(slug).Some? <==> exists i :: 0 <= i < |words| && multiset(words[i]) == multiset(slug)
      ensures IsAnagram(slug).Some? ==> multiset(IsAnagram(slug).value) == multiset(slug)
    {
      var r := IsAnagram(slug);
      if r.Some? {
        var i :| 0 <= i < |words| && words[i] == r.value;
        CodeEqualIffAnagram(words[i], slug);
      }
      forall i | 0 <= i < |words| && multiset(words[i]) == multiset(slug)
        ensures r.Some?
      {
        CodePermutationInvariant(words[i], slug);
        assert Codes(words)[i] == Code(slug);
      }
    }

    /** Each word's code is scanned: it occurs in `counterOrder`, and the word
        stored under it has the same code. */
    lemma WordScanned(i: nat)
      requires Valid() && i < |words|
      ensures exists j :: 0 <= j < |counterOrder| && counterOrder[j] == Code(words[i])
    {
      DedupSpec(Codes(words));
      assert Codes(words)[i] in counterOrder;
    }

    /** `isTransadd` returns a word that the slug is the word plus one letter
        of, and returns null exactly when no word is; provided no letter
        occurs more than 31 times in the slug or 30 times in a word. */
    lemma IsTransaddMeaning(slug: Slug)
      requires Valid() && WordsBounded(30) && Bounded(slug, 31)
      ensures var r := Scan(Code(slug), counterOrder, letterCounters, false, 0);
        && (r.Some? ==> (r.value.other in words && IsLetter(r.value.letter)
              && multiset(slug) == multiset(r.value.other) + multiset{r.value.letter}))
        && (r.None? <==> forall i, c :: 0 <= i < |words| && IsLetter(c) ==>
              multiset(slug) != multiset(words[i]) + multiset{c})
    {
      var code := Code(slug);
      var r := Scan(code, counterOrder, letterCounters, false, 0);
      ScanFirst(code, counterOrder, letterCounters, false, 0);
      if r.Some? {
        var j :| StopsAt(code, counterOrder, letterCounters, false, 0, j, r.value);
        CounterIndexStored(words, counterOrder[j]);
        var k :| 0 <= k < |words| && words[k] == r.value.other;
        TransaddOfIffOneMore(slug, words[k], r.value.letter);
      } else {
        forall i, c | 0 <= i < |words| && IsLetter(c)
          ensures multiset(slug) != multiset(words[i]) + multiset{c}
        {
          WordScanned(i);
          TransaddOfIffOneMore(slug, words[i], c);
        }
      }
    }

    /** `isTransdelete` returns a word that is the slug plus one letter, and
        returns null exactly when no word is; provided no letter occurs more
        than 30 times in the slug or 31 times in a word. */
    lemma IsTransdeleteMeaning(slug: Slug)
      requires Valid() && WordsBounded(31) && Bounded(slug, 30)
      ensures var r := Scan(Code(slug), counterOrder, letterCounters, true, 0);
        && (r.Some? ==> (r.value.other in words && IsLetter(r.value.letter)
              && multiset(r.value.other) == multiset(slug) + multiset{r.value.letter}))
        && (r.None? <==> forall i, c :: 0 <= i < |words| && IsLetter(c) ==>
              multiset(words[i]) != multiset(slug) + multiset{c})
    {
      var code := Code(slug);
      var r := Scan(code, counterOrder, letterCounters, true, 0);
      ScanFirst(code, counterOrder, letterCounters, true, 0);
      if r.Some? {
        var j :| StopsAt(code, counterOrder, letterCounters, true, 0, j, r.value);
        CounterIndexStored(words, counterOrder[j]);
        var k :| 0 <= k < |words| && words[k] == r.value.other;
        TransdeleteOfIffOneLess(slug, words[k], r.value.letter);
      } else {
        forall i, c | 0 <= i < |words| && IsLetter(c)
          ensures multiset(words[i]) != multiset(slug) + multiset{c}
        {
          WordScanned(i);
          TransdeleteOfIffOneLess(slug, words[i], c);
        }
      }
    }
  }
}
