/** src/linkers/length.ts: the linker that looks at the lengths of the words
    alone.  Which links it emits, with which names and descriptions, is
    modelled exactly; their probabilities come from the length distribution,
    whose four functions are inputs here. */
module LengthLinkers {
  import opened Prelude
  import opened LetterBitsets
  import opened LogNums
  import opened Linkers
  import opened Util

  /** The parts of `LengthDistribution` the linker calls: for `k` words, the
      probability that their lengths are all equal, all equal mod 2, all
      equal mod 3, and an arithmetic run. */
  datatype LengthDistribution = LengthDistribution(
    probEqual: nat -> LogNum,
    probEqualMod2: nat -> LogNum,
    probEqualMod3: nat -> LogNum,
    probArithSeq: nat -> LogNum)

  /** `words.map((w) => w.length)`. */
  function Lengths(words: seq<Slug>): (r: seq<nat>)
    ensures |r| == |words|
    ensures forall i :: 0 <= i < |words| ==> r[i] == |words[i]|
  {
    seq(|words|, i requires 0 <= i < |words| => |words[i]|)
  }

  /** `lengths.map((l) => l % k)` (the lengths are never negative, so the
      remainder is JavaScript's). */
  function Mods(s: seq<nat>, k: nat): (r: seq<nat>)
    requires k > 0
    ensures |r| == |s|
    ensures forall i :: 0 <= i < |s| ==> r[i] == s[i] % k
  {
    seq(|s|, i requires 0 <= i < |s| => s[i] % k)
  }

  /** `words.filter((w) => w.length === n)`. */
  function WithLength(words: seq<Slug>, n: nat): (r: seq<Slug>)
    ensures |r| <= |words|
    ensures forall i :: 0 <= i < |r| ==> |r[i]| == n
  {
    if words == [] then []
    else (if |words[0]| == n then [words[0]] else []) + WithLength(words[1..], n)
  }

  function MaxOf(s: seq<nat>): (m: nat)
    requires s != []
    ensures m in s && forall i :: 0 <= i < |s| ==> s[i] <= m
  {
    if |s| == 1 then s[0]
    else
      var m := MaxOf(s[1..]);
      assert forall i :: 1 <= i < |s| ==> s[i] == s[1..][i - 1];
      if s[0] > m then s[0] else m
  }

  function MinOf(s: seq<nat>): (m: nat)
    requires s != []
    ensures m in s && forall i :: 0 <= i < |s| ==> m <= s[i]
  {
    if |s| == 1 then s[0]
    else
      var m := MinOf(s[1..]);
      assert forall i :: 1 <= i < |s| ==> s[i] == s[1..][i - 1];
      if s[0] < m then s[0] else m
  }

  /** `Math.max(...s) - Math.min(...s)` as a double: with no arguments
      `Math.max` is -Infinity and `Math.min` is Infinity, so the difference
      is -Infinity. */
  function Spread(s: seq<nat>): (r: Float)
    ensures s == [] <==> r == NegInf
  {
    if s == [] then NegInf else Finite((MaxOf(s) - MinOf(s)) as real)
  }

  /** The name and description of the parity link. */
  function ParityText(length: nat): string {
    "all lengths are " + (if length % 2 == 0 then "even" else "odd")
  }

  /** The "all lengths equal" link for words all of length `length`. */
  function EqualLink(dist: LengthDistribution, words: seq<Slug>, length: nat): Link {
    Link(Some("all lengths equal"), dist.probEqual(|words|), ["all lengths are " + NatToString(length)])
  }

  /** The "only two lengths" link for the lengths `a` and `b`: the words of
      each length, with the product of their probabilities. */
  function TwoLengthsLinkOf(arith: Arith, dist: LengthDistribution, words: seq<Slug>, a: nat, b: nat): Link {
    var aLength, bLength := WithLength(words, a), WithLength(words, b);
    Link(Some("only two lengths"),
         arith.mul(dist.probEqual(|aLength|), dist.probEqual(|bLength|)),
         ["length " + NatToString(a) + ": " + Join(aLength, ", "),
          "length " + NatToString(b) + ": " + Join(bLength, ", ")])
  }

  /** The first `if`/`else if` of `eval`: one distinct length, or two. */
  function EqualOrTwoLinks(arith: Arith, dist: LengthDistribution, words: seq<Slug>): seq<Link> {
    var lengthSet := Dedup(Lengths(words));
    if |lengthSet| == 1 then [EqualLink(dist, words, lengthSet[0])]
    else if |lengthSet| == 2 then [TwoLengthsLinkOf(arith, dist, words, lengthSet[0], lengthSet[1])]
    else []
  }

  /** The parity test: one distinct remainder mod 2, named after the first
      word's parity. */
  function ParityLinks(dist: LengthDistribution, words: seq<Slug>): seq<Link> {
    var lengths := Lengths(words);
    if |Dedup(Mods(lengths, 2))| == 1 then
      [Link(Some(ParityText(lengths[0])), dist.probEqualMod2(|words|), [ParityText(lengths[0])])]
    else []
  }

  /** The mod-3 test: one distinct remainder mod 3. */
  function Mod3Links(dist: LengthDistribution, words: seq<Slug>): seq<Link> {
    if |Dedup(Mods(Lengths(words), 3))| == 1 then
      [Link(Some("all lengths are equal mod 3"), dist.probEqualMod3(|words|), ["all lengths are equal mod 3"])]
    else []
  }

  /** The consecutive test: as many distinct lengths as words, and a spread
      of one less than the number of words. */
  function ConsecutiveLinks(dist: LengthDistribution, words: seq<Slug>): seq<Link> {
    var lengths := Lengths(words);
    if |Dedup(lengths)| == |words| && Spread(lengths) == Finite((|words| - 1) as real) then
      [Link(Some("lengths are consecutive"), dist.probArithSeq(|words|), ["lengths are consecutive"])]
    else []
  }

  /** What `eval` returns, in the order it pushes the links. */
  function LengthLinks(arith: Arith, dist: LengthDistribution, words: seq<Slug>): seq<Link> {
    EqualOrTwoLinks(arith, dist, words) + ParityLinks(dist, words)
      + Mod3Links(dist, words) + ConsecutiveLinks(dist, words)
  }

  /** `lengthLinker(distribution)`. */
  function LengthLinker(arith: Arith, dist: LengthDistribution): (l: Linker)
    ensures l.name == "slug lengths"
    ensures forall words :: l.eval(words) == LengthLinks(arith, dist, words)
  {
    Linker("slug lengths", (words: seq<Slug>) => LengthLinks(arith, dist, words))
  }

  /** `eval(words)`, pushing the links one test after another. */
  method Eval(arith: Arith, dist: LengthDistribution, words: seq<Slug>) returns (results: seq<Link>)
    ensures results == LengthLinks(arith, dist, words)
  {
    var lengths := Lengths(words);
    var lengthSet := Dedup(lengths);
    results := [];
    if |lengthSet| == 1 {
      var length := lengthSet[0];
      results := results + [EqualLink(dist, words, length)];
    } else if |lengthSet| == 2 {
      var a, b := lengthSet[0], lengthSet[1];
      results := results + [TwoLengthsLinkOf(arith, dist, words, a, b)];
    }
    ghost var equalOrTwo := results;
    assert equalOrTwo == EqualOrTwoLinks(arith, dist, words);
    if |Dedup(Mods(lengths, 2))| == 1 {
      var parity := ParityText(lengths[0]);
      results := results + [Link(Some(parity), dist.probEqualMod2(|words|), [parity])];
    }
    ghost var parity := results[|equalOrTwo|..];
    assert results == equalOrTwo + parity;
    assert parity == ParityLinks(dist, words);
    if |Dedup(Mods(lengths, 3))| == 1 {
      results := results + [Link(Some("all lengths are equal mod 3"), dist.probEqualMod3(|words|),
                                 ["all lengths are equal mod 3"])];
    }
    ghost var mod3 := results[|equalOrTwo + parity|..];
    assert results == equalOrTwo + parity + mod3;
    assert mod3 == Mod3Links(dist, words);
    ghost var beforeConsecutive := results;
    if |lengthSet| == |words| {
      if Spread(lengths) == Finite((|words| - 1) as real) {
        results := results + [Link(Some("lengths are consecutive"), dist.probArithSeq(|words|),
                                   ["lengths are consecutive"])];
      }
    }
    assert results == beforeConsecutive + ConsecutiveLinks(dist, words);
  }

  // Facts about the distinct elements of a sequence, in first-occurrence
  // order (the iteration order of a JavaScript `Set`).

  /** The first element of a non-empty sequence comes first in its set. */
  lemma {:induction false} DedupFirst<T>(s: seq<T>)
    requires s != []
    ensures |Dedup(s)| >= 1 && Dedup(s)[0] == s[0]
  {
    var t := s[..|s| - 1];
    if t != [] {
      assert t[0] == s[0];
      DedupFirst(t);
    }
  }

  /** A sequence has exactly one distinct element iff it is non-empty and
      constant. */
  lemma {:induction false} DedupOne<T>(s: seq<T>)
    ensures |Dedup(s)| == 1 <==> s != [] && forall i :: 0 <= i < |s| ==> s[i] == s[0]
  {
    DedupCard(s);
    var set_s := set x | x in s;
    if s != [] && forall i :: 0 <= i < |s| ==> s[i] == s[0] {
      assert set_s == {s[0]};
    }
    if |Dedup(s)| == 1 {
      assert s[0] in set_s;
      assert set_s == {s[0]} + (set_s - {s[0]});
      assert |set_s - {s[0]}| == 0;
      assert set_s - {s[0]} == {};
      forall i | 0 <= i < |s| ensures s[i] == s[0] {
        assert s[i] in set_s;
      }
    }
  }

  /** The words' lengths take exactly the two values `|words[0]|` and
      `|words[j]|`. */
  predicate TwoLengthsAt(words: seq<Slug>, j: int) {
    && 0 <= j < |words|
    && |words[j]| != |words[0]|
    && forall i :: 0 <= i < |words| ==> |words[i]| == |words[0]| || |words[i]| == |words[j]|
  }

  /** A sequence has exactly two distinct elements iff it has an element
      different from the first and every element is one of the two; the
      first element comes first. */
  lemma {:induction false} DedupTwo(words: seq<Slug>)
    ensures |Dedup(Lengths(words))| == 2 <==> exists j :: TwoLengthsAt(words, j)
    ensures forall j :: TwoLengthsAt(words, j) ==> Dedup(Lengths(words)) == [|words[0]|, |words[j]|]
  {
    var s := Lengths(words);
    DedupCard(s);
    DedupSpec(s);
    var set_s := set x: nat | x in s;
    forall j | TwoLengthsAt(words, j) ensures Dedup(s) == [s[0], s[j]] {
      assert s[0] in set_s && s[j] in set_s;
      forall x | x in set_s ensures x == s[0] || x == s[j] {
        var i :| 0 <= i < |s| && s[i] == x;
      }
      assert set_s == {s[0], s[j]};
      assert |set_s| == 2;
      assert |Dedup(s)| == |set_s|;
      DedupFirst(s);
      var d := Dedup(s);
      assert |d| == 2;
      assert d[1] in s && d[1] != d[0];
      assert d[1] in set_s;
      assert d[1] == s[j];
      assert d == [s[0], s[j]];
    }
    if |Dedup(s)| == 2 {
      var d := Dedup(s);
      DedupFirst(s);
      var j :| 0 <= j < |s| && s[j] == d[1];
      forall i | 0 <= i < |s| ensures s[i] == s[0] || s[i] == s[j] {
        var k :| 0 <= k < |d| && d[k] == s[i];
      }
      assert TwoLengthsAt(words, j);
    }
  }

  /** A sequence is without repetitions exactly when its set is as large as
      it is. */
  lemma {:induction false} DedupFull<T>(s: seq<T>)
    ensures |Dedup(s)| == |s| <==> Distinct(s)
  {
    if Distinct(s) {
      DedupDistinct(s);
    }
    if |Dedup(s)| == |s| {
      DedupFullIsSelf(s);
      DedupSpec(s);
    }
  }

  lemma {:induction false} DedupFullIsSelf<T>(s: seq<T>)
    requires |Dedup(s)| == |s|
    ensures Dedup(s) == s
  {
    if s != [] {
      var t := s[..|s| - 1];
      DedupSpec(t);
      var d := Dedup(t);
      assert s[|s| - 1] !in d;
      DedupFullIsSelf(t);
      assert s == t + [s[|s| - 1]];
    }
  }

  // The conditions under which each link is emitted, stated without sets.

  /** All the words have the same length. */
  predicate AllSameLength(words: seq<Slug>) {
    words != [] && forall i :: 0 <= i < |words| ==> |words[i]| == |words[0]|
  }

  /** "all lengths equal" is emitted, reporting the common length, exactly
      when all words have the same length; "only two lengths" exactly when
      they have two lengths, one of which is the first word's; otherwise
      neither. */
  lemma EqualOrTwoLinksIff(arith: Arith, dist: LengthDistribution, words: seq<Slug>)
    ensures AllSameLength(words) ==>
      EqualOrTwoLinks(arith, dist, words) ==
        [Link(Some("all lengths equal"), dist.probEqual(|words|), ["all lengths are " + NatToString(|words[0]|)])]
    ensures (exists j :: TwoLengthsAt(words, j)) ==>
      |EqualOrTwoLinks(arith, dist, words)| == 1 && EqualOrTwoLinks(arith, dist, words)[0].name == Some("only two lengths")
    ensures !AllSameLength(words) && !(exists j :: TwoLengthsAt(words, j)) ==>
      EqualOrTwoLinks(arith, dist, words) == []
  {
    var s := Lengths(words);
    DedupOne(s);
    DedupTwo(words);
    if AllSameLength(words) {
      DedupFirst(s);
    }
  }

  /** The "only two lengths" link, for the word `j` whose length differs
      from the first word's: its lines list the words of the first word's
      length, then those of the other length, each in input order, and
      between them they hold every word once. */
  lemma TwoLengthsLink(arith: Arith, dist: LengthDistribution, words: seq<Slug>, j: int)
    requires TwoLengthsAt(words, j)
    ensures var a, b := |words[0]|, |words[j]|;
      var aLength, bLength := WithLength(words, a), WithLength(words, b);
      EqualOrTwoLinks(arith, dist, words) ==
        [Link(Some("only two lengths"),
              arith.mul(dist.probEqual(|aLength|), dist.probEqual(|bLength|)),
              ["length " + NatToString(a) + ": " + Join(aLength, ", "),
               "length " + NatToString(b) + ": " + Join(bLength, ", ")])]
      && multiset(aLength) + multiset(bLength) == multiset(words)
  {
    DedupTwo(words);
    WithLengthPartition(words, |words[0]|, |words[j]|);
  }

  /** Filtering keeps the input order: it distributes over concatenation. */
  lemma {:induction false} WithLengthAppend(u: seq<Slug>, v: seq<Slug>, n: nat)
    ensures WithLength(u + v, n) == WithLength(u, n) + WithLength(v, n)
  {
    if u == [] {
      assert u + v == v;
    } else {
      assert (u + v)[1..] == u[1..] + v;
      WithLengthAppend(u[1..], v, n);
    }
  }

  /** A word is kept exactly when it has the length asked for. */
  lemma {:induction false} WithLengthMembers(words: seq<Slug>, n: nat, w: Slug)
    ensures w in WithLength(words, n) <==> w in words && |w| == n
  {
    if words != [] {
      WithLengthMembers(words[1..], n, w);
      assert words == [words[0]] + words[1..];
    }
  }

  /** When every word has length `a` or `b`, the two filtered lists split
      the words between them. */
  lemma {:induction false} WithLengthPartition(words: seq<Slug>, a: nat, b: nat)
    requires a != b
    requires forall i :: 0 <= i < |words| ==> |words[i]| == a || |words[i]| == b
    ensures multiset(WithLength(words, a)) + multiset(WithLength(words, b)) == multiset(words)
    ensures |WithLength(words, a)| + |WithLength(words, b)| == |words|
  {
    if words != [] {
      WithLengthPartition(words[1..], a, b);
      assert words == [words[0]] + words[1..];
    }
  }

  /** All lengths have the same parity. */
  predicate SameParity(words: seq<Slug>) {
    words != [] && forall i :: 0 <= i < |words| ==> |words[i]| % 2 == |words[0]| % 2
  }

  /** The parity link is emitted exactly when all lengths have one parity,
      and is named after the first word's. */
  lemma ParityLinksIff(dist: LengthDistribution, words: seq<Slug>)
    ensures SameParity(words) ==>
      ParityLinks(dist, words) == [Link(Some(ParityText(|words[0]|)), dist.probEqualMod2(|words|), [ParityText(|words[0]|)])]
    ensures !SameParity(words) ==> ParityLinks(dist, words) == []
  {
    DedupOne(Mods(Lengths(words), 2));
  }

  /** All lengths leave the same remainder mod 3. */
  predicate SameMod3(words: seq<Slug>) {
    words != [] && forall i :: 0 <= i < |words| ==> |words[i]| % 3 == |words[0]| % 3
  }

  /** The mod-3 link is emitted exactly when all lengths are congruent
      mod 3. */
  lemma Mod3LinksIff(dist: LengthDistribution, words: seq<Slug>)
    ensures SameMod3(words) ==>
      Mod3Links(dist, words) == [Link(Some("all lengths are equal mod 3"), dist.probEqualMod3(|words|), ["all lengths are equal mod 3"])]
    ensures !SameMod3(words) ==> Mod3Links(dist, words) == []
  {
    DedupOne(Mods(Lengths(words), 3));
  }

  /** Every length lies in the window `m .. m + |words| - 1`. */
  predicate InWindow(words: seq<Slug>, m: int) {
    forall i :: 0 <= i < |words| ==> m <= |words[i]| < m + |words|
  }

  /** The lengths are consecutive: non-empty, pairwise different, and all in
      a window as wide as there are words (so they fill it). */
  ghost predicate Consecutive(words: seq<Slug>) {
    words != [] && Distinct(Lengths(words)) && exists m :: InWindow(words, m)
  }

  /** A subset as large as the whole set is the whole set. */
  lemma SubsetFull<T>(a: set<T>, b: set<T>)
    requires a <= b && |a| == |b|
    ensures a == b
  {
    var rest := b - a;
    assert b == a + rest;
    assert a * rest == {};
    assert |a + rest| == |a| + |rest|;
    assert rest == {};
  }

  /** `n` different values in a window of width `n` fill it, so the smallest
      is the window's start and the largest its end. */
  lemma WindowFilled(words: seq<Slug>, m: int)
    requires words != [] && Distinct(Lengths(words)) && InWindow(words, m)
    ensures MinOf(Lengths(words)) == m && MaxOf(Lengths(words)) == m + |words| - 1
  {
    var s: seq<int> := Lengths(words);
    var n := |words|;
    var w := Interval(m, m + n - 1);
    IntervalMembers(m, m + n - 1);
    DistinctCard(s);
    DistinctCard(w);
    var set_s := set x | x in s;
    var window := set x | x in w;
    assert set_s <= window by {
      forall x | x in set_s ensures x in window {
        var i :| 0 <= i < |s| && s[i] == x;
        assert m <= s[i] <= m + n - 1;
      }
    }
    SubsetFull(set_s, window);
    assert m in window && m + n - 1 in window;
    assert m in s && m + n - 1 in s;
  }

  /** "lengths are consecutive" is emitted exactly when the lengths are
      consecutive; in particular never for no words. */
  lemma ConsecutiveLinksIff(dist: LengthDistribution, words: seq<Slug>)
    ensures Consecutive(words) ==>
      ConsecutiveLinks(dist, words) == [Link(Some("lengths are consecutive"), dist.probArithSeq(|words|), ["lengths are consecutive"])]
    ensures !Consecutive(words) ==> ConsecutiveLinks(dist, words) == []
  {
    var s := Lengths(words);
    DedupFull(s);
    if Consecutive(words) {
      var m :| InWindow(words, m);
      WindowFilled(words, m);
      assert Spread(s) == Finite((|words| - 1) as real);
      assert |Dedup(s)| == |words|;
    }
    if |Dedup(s)| == |words| && Spread(s) == Finite((|words| - 1) as real) {
      assert s != [];
      assert InWindow(words, MinOf(s));
    }
  }

  /** No words, no links. */
  lemma NoWordsNoLinks(arith: Arith, dist: LengthDistribution)
    ensures LengthLinks(arith, dist, []) == []
  {
    EqualOrTwoLinksIff(arith, dist, []);
    ParityLinksIff(dist, []);
    Mod3LinksIff(dist, []);
    ConsecutiveLinksIff(dist, []);
  }

  /** The names of the links, in order. */
  function Names(links: seq<Link>): (r: seq<Option<string>>)
    ensures |r| == |links|
    ensures forall i :: 0 <= i < |links| ==> r[i] == links[i].name
  {
    seq(|links|, i requires 0 <= i < |links| => links[i].name)
  }

  // The four word lists of src/linkers/length.test.ts.  Only their lengths
  // matter for the names, so each is stated for every list of words with
  // the same lengths as the test's.

  /** `["aa", "bb", "cc"]`. */
  lemma SampleEqual(arith: Arith, dist: LengthDistribution, words: seq<Slug>)
    requires |words| == 3 && |words[0]| == 2 && |words[1]| == 2 && |words[2]| == 2
    ensures Names(LengthLinks(arith, dist, words)) ==
      [Some("all lengths equal"), Some("all lengths are even"), Some("all lengths are equal mod 3")]
  {
    assert AllSameLength(words) && SameParity(words) && SameMod3(words);
    assert ParityText(2) == "all lengths are even";
    assert !Distinct(Lengths(words)) by { assert Lengths(words)[0] == Lengths(words)[1]; }
    EqualOrTwoLinksIff(arith, dist, words);
    ParityLinksIff(dist, words);
    Mod3LinksIff(dist, words);
    ConsecutiveLinksIff(dist, words);
  }

  /** `["a", "b", "cc", "dd"]`. */
  lemma SampleTwo(arith: Arith, dist: LengthDistribution, words: seq<Slug>)
    requires |words| == 4 && |words[0]| == 1 && |words[1]| == 1 && |words[2]| == 2 && |words[3]| == 2
    ensures Names(LengthLinks(arith, dist, words)) == [Some("only two lengths")]
  {
    var e := EqualOrTwoLinks(arith, dist, words);
    assert TwoLengthsAt(words, 2);
    EqualOrTwoLinksIff(arith, dist, words);
    assert |e| == 1 && e[0].name == Some("only two lengths");
    assert !SameParity(words) by { assert |words[2]| % 2 != |words[0]| % 2; }
    ParityLinksIff(dist, words);
    assert !SameMod3(words) by { assert |words[2]| % 3 != |words[0]| % 3; }
    Mod3LinksIff(dist, words);
    assert !Consecutive(words) by { assert Lengths(words)[0] == Lengths(words)[1]; }
    ConsecutiveLinksIff(dist, words);
    assert LengthLinks(arith, dist, words) == e;
  }

  /** `["a", "bbbb", "fffffff"]`. */
  lemma SampleMod3(arith: Arith, dist: LengthDistribution, words: seq<Slug>)
    requires |words| == 3 && |words[0]| == 1 && |words[1]| == 4 && |words[2]| == 7
    ensures Names(LengthLinks(arith, dist, words)) == [Some("all lengths are equal mod 3")]
  {
    assert !AllSameLength(words) && !SameParity(words) && SameMod3(words);
    forall j | 0 <= j < |words| ensures !TwoLengthsAt(words, j) {
      var k := if j == 1 then 2 else 1;
      assert !(|words[k]| == |words[0]| || |words[k]| == |words[j]|);
    }
    assert !Consecutive(words) by {
      forall m ensures !InWindow(words, m) {
        if m > 1 {
          assert !(m <= |words[0]|);
        } else {
          assert !(|words[2]| < m + 3);
        }
      }
    }
    EqualOrTwoLinksIff(arith, dist, words);
    ParityLinksIff(dist, words);
    Mod3LinksIff(dist, words);
    ConsecutiveLinksIff(dist, words);
  }

  /** `["aa", "bbb", "cccc"]`. */
  lemma SampleConsecutive(arith: Arith, dist: LengthDistribution, words: seq<Slug>)
    requires |words| == 3 && |words[0]| == 2 && |words[1]| == 3 && |words[2]| == 4
    ensures Names(LengthLinks(arith, dist, words)) == [Some("lengths are consecutive")]
  {
    assert |words[1]| % 2 != |words[0]| % 2 && |words[1]| % 3 != |words[0]| % 3;
    assert !AllSameLength(words) && !SameParity(words) && !SameMod3(words);
    forall j | 0 <= j < |words| ensures !TwoLengthsAt(words, j) {
      var k := if j == 1 then 2 else 1;
      assert !(|words[k]| == |words[0]| || |words[k]| == |words[j]|);
    }
    EqualOrTwoLinksIff(arith, dist, words);
    assert EqualOrTwoLinks(arith, dist, words) == [];
    ParityLinksIff(dist, words);
    Mod3LinksIff(dist, words);
    assert Distinct(Lengths(words));
    assert InWindow(words, 2);
    ConsecutiveLinksIff(dist, words);
  }
}
