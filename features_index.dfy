/** src/features/index.ts: slug features that may read precomputed
    properties of the slug, and the feature linkers built from them with
    baselines from the log-probability cache. */
module FeatureIndex {
  import opened Prelude
  import opened LetterBitsets
  import opened LogNums
  import opened Util
  import opened Wordlists
  import opened Linkers
  import opened LogProbCaches
  import Features

  /** What a property may consult besides the slug: the positions of each
      letter, and the corpus. */
  datatype Props = Props(letterIndices: map<char, seq<nat>>, wordlist: Wordlist)

  /** A feature of `src/features/index.ts`: a name, and the property giving
      a sentence about a slug that has it, or null. */
  datatype SlugFeature = SlugFeature(name: string, property: (Slug, Props) -> Option<string>)

  /** The `letterIndices` map `getProps` fills: each letter of the slug to
      the positions where it occurs. */
  function LetterIndices(slug: string): map<char, seq<nat>> {
    if slug == [] then map[]
    else
      var m := LetterIndices(slug[..|slug| - 1]);
      var c := slug[|slug| - 1];
      m[c := (if c in m then m[c] else []) + [|slug| - 1]]
  }

  /** The letters with a list are the letters of the slug. */
  lemma {:induction false} LetterIndicesKeys(slug: string)
    ensures forall c :: c in LetterIndices(slug) <==> c in slug
  {
    if slug != [] {
      LetterIndicesKeys(slug[..|slug| - 1]);
      assert slug == slug[..|slug| - 1] + [slug[|slug| - 1]];
    }
  }

  /** Every listed position is a position of the slug holding that letter. */
  lemma {:induction false} LetterIndicesSound(slug: string, c: char, k: nat)
    requires c in LetterIndices(slug) && k < |LetterIndices(slug)[c]|
    ensures LetterIndices(slug)[c][k] < |slug| && slug[LetterIndices(slug)[c][k]] == c
  {
    var prefix := slug[..|slug| - 1];
    var m := LetterIndices(prefix);
    var d := slug[|slug| - 1];
    if c in m && k < |m[c]| {
      LetterIndicesSound(prefix, c, k);
      assert LetterIndices(slug)[c][k] == m[c][k];
    } else {
      assert c == d && LetterIndices(slug)[c][k] == |slug| - 1;
    }
  }

  /** Each list is increasing. */
  lemma {:induction false} LetterIndicesIncreasing(slug: string, c: char)
    requires c in LetterIndices(slug)
    ensures Increasing(LetterIndices(slug)[c])
  {
    var prefix := slug[..|slug| - 1];
    var m := LetterIndices(prefix);
    if c in m {
      LetterIndicesIncreasing(prefix, c);
      forall k | 0 <= k < |m[c]| ensures m[c][k] < |slug| - 1 {
        LetterIndicesSound(prefix, c, k);
      }
    }
  }

  /** Every position of the slug is in its letter's list. */
  lemma {:induction false} LetterIndicesComplete(slug: string, i: nat)
    requires i < |slug|
    ensures slug[i] in LetterIndices(slug) && i in LetterIndices(slug)[slug[i]]
  {
    var prefix := slug[..|slug| - 1];
    if i < |slug| - 1 {
      LetterIndicesComplete(prefix, i);
      assert prefix[i] == slug[i];
    }
  }

  /** `getProps(wordlist, slug)`. */
  function PropsOf(wordlist: Wordlist, slug: Slug): Props {
    Props(LetterIndices(slug), wordlist)
  }

  /** `getProps`: one pass over the slug, pushing each position onto its
      letter's list. */
  method GetProps(wordlist: Wordlist, slug: Slug) returns (props: Props)
    ensures props == PropsOf(wordlist, slug)
  {
    var letterIndices: map<char, seq<nat>> := map[];
    for i := 0 to |slug|
      invariant letterIndices == LetterIndices(slug[..i])
    {
      var letter := slug[i];
      assert slug[..i + 1][..i] == slug[..i];
      if letter !in letterIndices {
        letterIndices := letterIndices[letter := []];
      }
      letterIndices := letterIndices[letter := letterIndices[letter] + [i]];
    }
    assert slug[..|slug|] == slug;
    props := Props(letterIndices, wordlist);
  }

  /** The property as a function of the slug alone, with the slug's props. */
  function OnSlug(wordlist: Wordlist, property: (Slug, Props) -> Option<string>): Slug -> Option<string> {
    (w: Slug) => property(w, PropsOf(wordlist, w))
  }

  /** The `description` of a feature linker here: the truthy results, in
      input order (without the `"word: "` prefix of `src/feature.ts`). */
  function Results(words: seq<Slug>, property: Slug -> Option<string>): seq<string> {
    if words == [] then []
    else
      var r := property(words[0]);
      (if Truthy(r) then [r.value] else []) + Results(words[1..], property)
  }

  /** One result per hit. */
  lemma {:induction false} ResultsCount(words: seq<Slug>, property: Slug -> Option<string>)
    ensures |Results(words, property)| == Features.HitCount(words, property)
  {
    if words != [] {
      ResultsCount(words[1..], property);
    }
  }

  /** The results are the truthy values of the property, word by word. */
  lemma {:induction false} ResultsMembers(words: seq<Slug>, property: Slug -> Option<string>, e: string)
    ensures e in Results(words, property) <==>
      exists i :: 0 <= i < |words| && Truthy(property(words[i])) && e == property(words[i]).value
  {
    if words != [] {
      ResultsMembers(words[1..], property, e);
      forall i | 1 <= i < |words| ensures words[i] == words[1..][i - 1] { }
      var r := property(words[0]);
      if Truthy(r) && e == r.value {
        assert e in Results(words, property);
      }
    }
  }

  /** The computation `featureLinker` hands to the cache: the corpus
      probability that the property is non-null. */
  function BaselineThunk(arith: Arith, wordlist: Wordlist, feature: SlugFeature): () -> LogNum
    requires wordlist.Valid()
  {
    () => wordlist.LogProb(arith, (w: Slug) => feature.property(w, PropsOf(wordlist, w)).Some?)
  }

  /** The linker `featureLinker` returns for a feature with a non-zero
      baseline. */
  function MakeLinker(arith: Arith, wordlist: Wordlist, feature: SlugFeature, baseline: LogNum): (l: Linker)
    ensures l.name == feature.name
  {
    Linker(feature.name, (words: seq<Slug>) =>
      var description := Results(words, OnSlug(wordlist, feature.property));
      [Link(Some(CountedName(feature.name, |description|, |words|)),
            arith.binomialPValue(|description|, |words|, baseline),
            description)])
  }

  /** `eval` returns exactly one link, named with the number of truthy
      results out of the number of words. */
  lemma MakeLinkerEval(arith: Arith, wordlist: Wordlist, feature: SlugFeature, baseline: LogNum, words: seq<Slug>)
    ensures var k := Features.HitCount(words, OnSlug(wordlist, feature.property));
      MakeLinker(arith, wordlist, feature, baseline).eval(words) ==
        [Link(Some(CountedName(feature.name, k, |words|)),
              arith.binomialPValue(k, |words|, baseline),
              Results(words, OnSlug(wordlist, feature.property)))]
  {
    ResultsCount(words, OnSlug(wordlist, feature.property));
  }

  /** `featureLinker(wordlist, feature)`: gets the baseline from the cache,
      and returns null exactly when it is zero. */
  method FeatureLinker(cache: LogProbCache, arith: Arith, wordlist: Wordlist, feature: SlugFeature)
    returns (r: Option<Linker>, ghost baseline: LogNum)
    requires cache.Valid() && wordlist.Valid()
    modifies cache
    ensures cache.Valid()
    ensures cache.useCache == old(cache.useCache) && cache.wrapCompute == old(cache.wrapCompute)
    ensures feature.name in cache.knownLogProbs && cache.knownLogProbs[feature.name] == baseline
    ensures old(cache.useCache) && feature.name in old(cache.knownLogProbs) ==>
      baseline == old(cache.knownLogProbs[feature.name]) && cache.knownLogProbs == old(cache.knownLogProbs)
    ensures !(old(cache.useCache) && feature.name in old(cache.knownLogProbs)) ==>
      && baseline == old(cache.wrapCompute)(feature.name, BaselineThunk(arith, wordlist, feature),
           if feature.name in old(cache.knownLogProbs) then Some(old(cache.knownLogProbs[feature.name])) else None)
      && cache.knownLogProbs == old(cache.knownLogProbs)[feature.name := baseline]
    ensures r.None? <==> IsZero(baseline)
    ensures r.Some? ==> r.value == MakeLinker(arith, wordlist, feature, baseline)
  {
    var featureLogProb := cache.Get(feature.name, BaselineThunk(arith, wordlist, feature));
    baseline := featureLogProb;
    if IsZero(featureLogProb) {
      return None, baseline;
    }
    return Some(MakeLinker(arith, wordlist, feature, featureLogProb)), baseline;
  }

  /** The flat-map of `featureLinkers`: `featureLinker` on each feature of
      the catalog in turn, keeping the non-null linkers in catalog order.
      `kept` lists the positions kept and `baselines` the baseline read for
      each feature. */
  method FeatureLinkers(cache: LogProbCache, arith: Arith, wordlist: Wordlist, catalog: seq<SlugFeature>)
    returns (linkers: seq<Linker>, ghost kept: seq<nat>, ghost baselines: seq<LogNum>)
    requires cache.Valid() && wordlist.Valid()
    modifies cache
    ensures cache.Valid()
    ensures |baselines| == |catalog|
    ensures |linkers| == |kept| <= |catalog|
    ensures Increasing(kept) && forall j :: 0 <= j < |kept| ==> kept[j] < |catalog|
    ensures forall i :: 0 <= i < |catalog| ==> (i in kept <==> !IsZero(baselines[i]))
    ensures forall j :: 0 <= j < |kept| ==>
      linkers[j] == MakeLinker(arith, wordlist, catalog[kept[j]], baselines[kept[j]])
  {
    linkers, kept, baselines := [], [], [];
    for i := 0 to |catalog|
      invariant cache.Valid()
      invariant |baselines| == i
      invariant |linkers| == |kept| <= i
      invariant Increasing(kept) && forall j :: 0 <= j < |kept| ==> kept[j] < i
      invariant forall i' :: 0 <= i' < i ==> (i' in kept <==> !IsZero(baselines[i']))
      invariant forall j :: 0 <= j < |kept| ==>
        linkers[j] == MakeLinker(arith, wordlist, catalog[kept[j]], baselines[kept[j]])
    {
      var linker, baseline := FeatureLinker(cache, arith, wordlist, catalog[i]);
      if linker.Some? {
        linkers := linkers + [linker.value];
        kept := kept + [i];
      }
      baselines := baselines + [baseline];
    }
  }

  /** The record `makeFeatureGetter`'s function fills: the result of every
      feature with a truthy property under its name, a later feature
      overwriting an earlier one of the same name. */
  function FeatureRecord(features: seq<SlugFeature>, wordlist: Wordlist, slug: Slug): map<string, string> {
    if features == [] then map[]
    else
      var m := FeatureRecord(features[..|features| - 1], wordlist, slug);
      var f := features[|features| - 1];
      var p := f.property(slug, PropsOf(wordlist, slug));
      if Truthy(p) then m[f.name := p.value] else m
  }

  /** `makeFeatureGetter(features, wordlist)`: the getter's record on a slug
      has a key exactly for the names of the features that hold of it
      (`FeatureRecordSpec` gives the value too). */
  function MakeFeatureGetter(features: seq<SlugFeature>, wordlist: Wordlist): (g: Slug -> map<string, string>)
    ensures forall slug: Slug, name :: name in g(slug) <==> exists i :: NamedHit(features, wordlist, slug, name, i)
  {
    assert forall slug: Slug, name :: name in FeatureRecord(features, wordlist, slug) <==> exists i :: NamedHit(features, wordlist, slug, name, i) by {
      forall slug: Slug, name
        ensures name in FeatureRecord(features, wordlist, slug) <==> exists i :: NamedHit(features, wordlist, slug, name, i)
      {
        FeatureRecordSpec(features, wordlist, slug, name);
      }
    }
    (slug: Slug) => FeatureRecord(features, wordlist, slug)
  }

  /** The getter's loop over the features. */
  method GetFeatures(features: seq<SlugFeature>, wordlist: Wordlist, slug: Slug) returns (properties: map<string, string>)
    ensures properties == MakeFeatureGetter(features, wordlist)(slug)
  {
    properties := map[];
    for i := 0 to |features|
      invariant properties == FeatureRecord(features[..i], wordlist, slug)
    {
      var feature := features[i];
      assert features[..i + 1][..i] == features[..i];
      var props := GetProps(wordlist, slug);
      var property := feature.property(slug, props);
      if Truthy(property) {
        properties := properties[feature.name := property.value];
      }
    }
    assert features[..|features|] == features;
  }

  /** Feature `i` of the list is named `name` and holds of the slug. */
  predicate NamedHit(features: seq<SlugFeature>, wordlist: Wordlist, slug: Slug, name: string, i: int) {
    0 <= i < |features| && features[i].name == name && Truthy(features[i].property(slug, PropsOf(wordlist, slug)))
  }

  /** A name is a key exactly when some feature of that name holds of the
      slug, and its value is the result of the last such feature. */
  lemma {:induction false} FeatureRecordSpec(features: seq<SlugFeature>, wordlist: Wordlist, slug: Slug, name: string)
    ensures name in FeatureRecord(features, wordlist, slug) <==>
      exists i :: NamedHit(features, wordlist, slug, name, i)
    ensures name in FeatureRecord(features, wordlist, slug) ==>
      exists i :: NamedHit(features, wordlist, slug, name, i) &&
        FeatureRecord(features, wordlist, slug)[name] == features[i].property(slug, PropsOf(wordlist, slug)).value &&
        forall j :: i < j ==> !NamedHit(features, wordlist, slug, name, j)
  {
    if features != [] {
      var prefix := features[..|features| - 1];
      var n := |features| - 1;
      FeatureRecordSpec(prefix, wordlist, slug, name);
      forall i | 0 <= i < n
        ensures NamedHit(features, wordlist, slug, name, i) == NamedHit(prefix, wordlist, slug, name, i)
      {
        assert prefix[i] == features[i];
      }
      if NamedHit(features, wordlist, slug, name, n) {
        assert FeatureRecord(features, wordlist, slug)[name] == features[n].property(slug, PropsOf(wordlist, slug)).value;
      } else {
        assert forall i :: NamedHit(features, wordlist, slug, name, i) ==> NamedHit(prefix, wordlist, slug, name, i);
        assert forall i :: NamedHit(prefix, wordlist, slug, name, i) ==> NamedHit(features, wordlist, slug, name, i);
        if name in FeatureRecord(features, wordlist, slug) {
          var i :| NamedHit(prefix, wordlist, slug, name, i) &&
            FeatureRecord(prefix, wordlist, slug)[name] == prefix[i].property(slug, PropsOf(wordlist, slug)).value &&
            forall j :: i < j ==> !NamedHit(prefix, wordlist, slug, name, j);
          assert NamedHit(features, wordlist, slug, name, i);
        }
      }
    }
  }
}
