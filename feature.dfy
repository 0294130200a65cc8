/** src/feature.ts: word features with a baseline probability, and the
    binomial linkers built from them.  Probabilities are only passed along:
    the p-value is the uninterpreted `binomialPValue` of `LogNums.Arith`. */
module Features {
  import opened Prelude
  import opened LetterBitsets
  import opened LogNums
  import opened Wordlists
  import opened Linkers

  /** A property of a word: its name, the probability that a corpus word has
      it, and the sentence describing a word that has it (null otherwise). */
  datatype Feature = Feature(name: string, logProb: LogNum, property: Slug -> Option<string>)

  /** The `description` of a feature linker: `"word: result"` for every word
      whose result is truthy, in input order. */
  function Entries(words: seq<Slug>, property: Slug -> Option<string>): seq<string> {
    if words == [] then []
    else
      var w := words[|words| - 1];
      var r := property(w);
      Entries(words[..|words| - 1], property) + (if Truthy(r) then [w + ": " + r.value] else [])
  }

  /** The number of words whose result is truthy. */
  function HitCount(words: seq<Slug>, property: Slug -> Option<string>): (k: nat)
    ensures k <= |words|
  {
    if words == [] then 0
    else HitCount(words[1..], property) + (if Truthy(property(words[0])) then 1 else 0)
  }

  /** The description lists the results word by word, so it distributes over
      a split of the words. */
  lemma {:induction false} EntriesAppend(a: seq<Slug>, b: seq<Slug>, property: Slug -> Option<string>)
    ensures Entries(a + b, property) == Entries(a, property) + Entries(b, property)
    decreases |b|
  {
    if b != [] {
      var b' := b[..|b| - 1];
      assert (a + b)[..|a + b| - 1] == a + b';
      EntriesAppend(a, b', property);
    } else {
      assert a + b == a;
    }
  }

  /** One entry per hit: the description has `HitCount` lines. */
  lemma {:induction false} EntriesCount(words: seq<Slug>, property: Slug -> Option<string>)
    ensures |Entries(words, property)| == HitCount(words, property)
  {
    if words != [] {
      EntriesCount(words[1..], property);
      EntriesAppend([words[0]], words[1..], property);
      assert [words[0]] + words[1..] == words;
      assert Entries([words[0]], property) == Entries([], property) + (if Truthy(property(words[0])) then [words[0] + ": " + property(words[0]).value] else []);
    }
  }

  /** A line is in the description exactly when it is `"word: result"` for a
      word with a truthy result. */
  lemma {:induction false} EntriesMembers(words: seq<Slug>, property: Slug -> Option<string>, e: string)
    ensures e in Entries(words, property) <==>
      exists i :: 0 <= i < |words| && Truthy(property(words[i])) && e == words[i] + ": " + property(words[i]).value
  {
    if words != [] {
      var prefix := words[..|words| - 1];
      EntriesMembers(prefix, property, e);
      forall i | 0 <= i < |prefix| ensures prefix[i] == words[i] { }
      var w := words[|words| - 1];
      if Truthy(property(w)) && e == w + ": " + property(w).value {
        assert e in Entries(words, property);
      }
    }
  }

  /** `featureLinker(feature)`. */
  function FeatureLinker(arith: Arith, feature: Feature): (l: Linker)
    ensures l.name == feature.name
  {
    Linker(feature.name, (words: seq<Slug>) =>
      var description := Entries(words, feature.property);
      [Link(Some(CountedName(feature.name, |description|, |words|)),
            arith.binomialPValue(|description|, |words|, feature.logProb),
            description)])
  }

  /** `eval` returns one link, named with the hit count out of the number of
      words; its p-value is taken for that count with the feature's baseline. */
  lemma FeatureLinkerEval(arith: Arith, feature: Feature, words: seq<Slug>)
    ensures var k := HitCount(words, feature.property);
      FeatureLinker(arith, feature).eval(words) ==
        [Link(Some(CountedName(feature.name, k, |words|)),
              arith.binomialPValue(k, |words|, feature.logProb),
              Entries(words, feature.property))]
  {
    EntriesCount(words, feature.property);
  }

  /** `booleanFeature({name, property, wordlist})`: the name and property
      unchanged, and as baseline the corpus probability of a non-null
      result (an empty-string result counts here, unlike in the linkers). */
  function BooleanFeature(arith: Arith, name: string, property: Slug -> Option<string>, wordlist: Wordlist): (f: Feature)
    requires wordlist.Valid()
    ensures f.name == name && f.property == property
  {
    Feature(name, wordlist.LogProb(arith, (w: Slug) => property(w).Some?), property)
  }

  /** A property that is null on every corpus word gets the empty sum as
      baseline. */
  lemma BooleanFeatureNeverHolds(arith: Arith, name: string, property: Slug -> Option<string>, wordlist: Wordlist)
    requires wordlist.Valid()
    requires forall i :: 0 <= i < |wordlist.words| ==> property(wordlist.words[i]).None?
    ensures BooleanFeature(arith, name, property, wordlist).logProb == arith.from(0)
  {
  }

  /** The truthy results of all the features on one word, in feature order. */
  function HitsOf(features: seq<Feature>, word: Slug): seq<string> {
    if features == [] then []
    else
      var r := features[0].property(word);
      (if Truthy(r) then [r.value] else []) + HitsOf(features[1..], word)
  }

  /** A word has hits exactly when one of the features holds of it. */
  lemma {:induction false} HitsOfNonEmpty(features: seq<Feature>, word: Slug)
    ensures |HitsOf(features, word)| > 0 <==> exists i :: 0 <= i < |features| && Truthy(features[i].property(word))
  {
    if features != [] {
      HitsOfNonEmpty(features[1..], word);
      forall i | 1 <= i < |features| ensures features[i] == features[1..][i - 1] { }
    }
  }

  /** The any-of description: `"word: hit, hit, ..."` for every word with at
      least one hit. */
  function AnyEntries(words: seq<Slug>, features: seq<Feature>): seq<string> {
    if words == [] then []
    else
      var hits := HitsOf(features, words[0]);
      (if |hits| > 0 then [words[0] + ": " + Join(hits, ", ")] else []) + AnyEntries(words[1..], features)
  }

  /** Whether some feature holds of the word. */
  predicate AnyHolds(features: seq<Feature>, word: Slug) {
    exists i :: 0 <= i < |features| && Truthy(features[i].property(word))
  }

  /** The number of words some feature holds of. */
  function AnyHitCount(words: seq<Slug>, features: seq<Feature>): nat {
    if words == [] then 0
    else AnyHitCount(words[1..], features) + (if AnyHolds(features, words[0]) then 1 else 0)
  }

  lemma {:induction false} AnyEntriesCount(words: seq<Slug>, features: seq<Feature>)
    ensures |AnyEntries(words, features)| == AnyHitCount(words, features) <= |words|
  {
    if words != [] {
      AnyEntriesCount(words[1..], features);
      HitsOfNonEmpty(features, words[0]);
    }
  }

  /** A word counts for the any-of linker whenever it counts for one of the
      features, so the any-of count is at least each feature's count. */
  lemma {:induction false} AnyHitCountAtLeast(words: seq<Slug>, features: seq<Feature>, i: nat)
    requires i < |features|
    ensures HitCount(words, features[i].property) <= AnyHitCount(words, features)
  {
    if words != [] {
      AnyHitCountAtLeast(words[1..], features, i);
    }
  }

  /** The any-of success probability `1 - prod(1 - p_f)`. */
  function AnyOfProb(arith: Arith, features: seq<Feature>): LogNum {
    arith.sub(arith.from(1),
      arith.prod(seq(|features|, i requires 0 <= i < |features| => arith.sub(arith.from(1), features[i].logProb))))
  }

  /** The success probability depends on the features' baselines alone, in
      order: neither their names nor their properties enter it. */
  lemma AnyOfProbOfBaselines(arith: Arith, a: seq<Feature>, b: seq<Feature>)
    requires |a| == |b|
    requires forall i :: 0 <= i < |a| ==> a[i].logProb == b[i].logProb
    ensures AnyOfProb(arith, a) == AnyOfProb(arith, b)
  {
    assert seq(|a|, i requires 0 <= i < |a| => arith.sub(arith.from(1), a[i].logProb)) ==
      seq(|b|, i requires 0 <= i < |b| => arith.sub(arith.from(1), b[i].logProb));
  }

  /** `anyOfFeatureLinker({name, features})`. */
  function AnyOfFeatureLinker(arith: Arith, name: string, features: seq<Feature>): (l: Linker)
    ensures l.name == name
  {
    Linker(name, (words: seq<Slug>) =>
      var description := AnyEntries(words, features);
      [Link(Some(CountedName(name, |description|, |words|)),
            arith.binomialPValue(|description|, |words|, AnyOfProb(arith, features)),
            description)])
  }

  /** Its `eval` returns one link counting the words some feature holds of. */
  lemma AnyOfFeatureLinkerEval(arith: Arith, name: string, features: seq<Feature>, words: seq<Slug>)
    ensures var k := AnyHitCount(words, features);
      AnyOfFeatureLinker(arith, name, features).eval(words) ==
        [Link(Some(CountedName(name, k, |words|)),
              arith.binomialPValue(k, |words|, AnyOfProb(arith, features)),
              AnyEntries(words, features))]
  {
    AnyEntriesCount(words, features);
  }

  /** `withAnyOfFeatureLinker({name, features})`: a linker per feature, in
      order, then the any-of linker. */
  function WithAnyOfFeatureLinker(arith: Arith, name: string, features: seq<Feature>): (r: seq<Linker>)
    ensures |r| == |features| + 1
    ensures forall i :: 0 <= i < |features| ==> r[i] == FeatureLinker(arith, features[i]) && r[i].name == features[i].name
    ensures r[|features|] == AnyOfFeatureLinker(arith, name, features) && r[|features|].name == name
  {
    seq(|features|, i requires 0 <= i < |features| => FeatureLinker(arith, features[i]))
      + [AnyOfFeatureLinker(arith, name, features)]
  }
}
