/** The feature catalog `featureLinkers` of src/features/index.ts builds its
    linkers from: the families of src/features/letterCount.ts,
    src/features/letterSequence.ts and src/features/substring.ts, which
    define no feature (so contribute nothing), the positional and
    palindrome features, and the wordplay features. */
module FeatureCatalog {
  import opened Prelude
  import opened LetterBitsets
  import opened LogNums
  import opened Wordlists
  import opened Linkers
  import opened LogProbCaches
  import opened FeatureIndex
  import opened OtherFeatures
  import Features
  import Wordplay

  /** A word feature of src/feature.ts used where src/features/index.ts
      expects one taking `(slug, props)`: the extra argument is ignored, and
      the feature's own baseline is not read (the cache computes its own). */
  function Lift(f: Features.Feature): (g: SlugFeature)
    ensures g.name == f.name
  {
    SlugFeature(f.name, (w: Slug, props: Props) => f.property(w))
  }

  /** The lifted property is the feature's, whatever the props. */
  lemma LiftProperty(f: Features.Feature, w: Slug, props: Props)
    ensures Lift(f).property(w, props) == f.property(w)
  {
  }

  /** A lifted feature hits the same words as the feature itself. */
  lemma {:induction false} LiftHitCount(wordlist: Wordlist, f: Features.Feature, words: seq<Slug>)
    ensures Features.HitCount(words, OnSlug(wordlist, Lift(f).property)) == Features.HitCount(words, f.property)
  {
    if words != [] {
      LiftHitCount(wordlist, f, words[1..]);
    }
  }

  function LiftAll(fs: seq<Features.Feature>): (r: seq<SlugFeature>)
    ensures |r| == |fs|
    ensures forall i :: 0 <= i < |fs| ==> r[i] == Lift(fs[i])
  {
    seq(|fs|, i requires 0 <= i < |fs| => Lift(fs[i]))
  }

  /** `wordplayFeatures(wordlist)` gets its wordlist from the caller, which
      may pass none; `booleanFeature` then reads `logProb` of `undefined`
      for the very first feature and throws (`None` here). */
  function WordplayFeaturesCalledWith(arith: Arith, wordlist: Option<Wordlist>): (r: Option<seq<Features.Feature>>)
    requires wordlist.Some? ==> wordlist.value.Valid()
    ensures r.None? <==> wordlist.None?
    ensures r.Some? ==> |r.value| == 193
  {
    match wordlist
    case None => None
    case Some(wl) => Some(Wordplay.WordplayFeatures(arith, wl))
  }

  /** The catalog as src/features/index.ts assembles it: `wordplayFeatures()`
      is called without the wordlist `featureLinkers` receives, so building
      the catalog throws (`None`) whatever that wordlist is. */
  function CatalogAsWritten(arith: Arith, wordlist: Wordlist): Option<seq<SlugFeature>>
    requires wordlist.Valid()
  {
    match WordplayFeaturesCalledWith(arith, None)
    case None => None
    case Some(wordplay) => Some(OtherFeatureList() + LiftAll(wordplay))
  }

  /** The catalog as written never gets built. */
  lemma CatalogAsWrittenThrows(arith: Arith, wordlist: Wordlist)
    requires wordlist.Valid()
    ensures CatalogAsWritten(arith, wordlist).None?
  {
    assert WordplayFeaturesCalledWith(arith, None) == None;
  }

  /** The catalog with `wordplayFeatures(wordlist)` passed the wordlist it
      needs: the 392 positional and palindrome features, then the 193
      wordplay features. */
  function Catalog(arith: Arith, wordlist: Wordlist): (r: seq<SlugFeature>)
    requires wordlist.Valid()
    ensures |r| == 392 + 193
  {
    OtherFeatureListShape(0, 0);
    OtherFeatureList() + LiftAll(Wordplay.WordplayFeatures(arith, wordlist))
  }

  /** Catalog order: the features of src/features/other.ts in their order,
      then each wordplay feature in its order, with its name and its
      property. */
  lemma CatalogShape(arith: Arith, wordlist: Wordlist, i: nat, w: Slug, props: Props)
    requires wordlist.Valid() && i < 392 + 193
    ensures var r := Catalog(arith, wordlist);
      var wordplay := Wordplay.WordplayFeatures(arith, wordlist);
      && (i < 392 ==> r[i] == OtherFeatureList()[i])
      && (i >= 392 ==> r[i].name == wordplay[i - 392].name && r[i].property(w, props) == wordplay[i - 392].property(w))
  {
    OtherFeatureListShape(0, 0);
  }

  /** `featureLinkers(wordlist)` over the catalog: the linker of every
      feature whose baseline is not zero, in catalog order. */
  method AllFeatureLinkers(cache: LogProbCache, arith: Arith, wordlist: Wordlist)
    returns (linkers: seq<Linker>, ghost kept: seq<nat>, ghost baselines: seq<LogNum>)
    requires cache.Valid() && wordlist.Valid()
    modifies cache
    ensures cache.Valid()
    ensures |baselines| == 392 + 193
    ensures |linkers| == |kept| && Util.Increasing(kept)
    ensures forall j :: 0 <= j < |kept| ==> kept[j] < 392 + 193
    ensures forall i :: 0 <= i < 392 + 193 ==> (i in kept <==> !IsZero(baselines[i]))
    ensures forall j :: 0 <= j < |kept| ==>
      linkers[j] == MakeLinker(arith, wordlist, Catalog(arith, wordlist)[kept[j]], baselines[kept[j]])
  {
    linkers, kept, baselines := FeatureLinkers(cache, arith, wordlist, Catalog(arith, wordlist));
  }
}
