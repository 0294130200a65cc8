/** src/features/other.ts: letters at fixed positions, palindromes and
    almost-palindromes. */
module OtherFeatures {
  import opened Prelude
  import opened LetterBitsets
  import opened Util
  import opened FeatureIndex

  /** `slug.at(index)`: a non-negative index counts from the start, a
      negative one from the end; outside the slug there is no character. */
  function At(slug: string, index: int): (r: Option<char>)
    ensures r.Some? <==> -|slug| <= index < |slug|
  {
    if 0 <= index < |slug| then Some(slug[index])
    else if -|slug| <= index < 0 then Some(slug[|slug| + index])
    else None
  }

  /** The index as printed: one-based from the start, or negative from the end. */
  function TextIndex(index: int): string {
    IntToString(if index >= 0 then index + 1 else index)
  }

  /** `hasAtIndex(letter, index)`. */
  function HasAtIndex(letter: char, index: int): (f: SlugFeature)
    ensures f.name == "has " + [letter] + " at index " + TextIndex(index)
  {
    SlugFeature("has " + [letter] + " at index " + TextIndex(index), (slug: Slug, props: Props) =>
      if At(slug, index) == Some(letter)
      then Some("index(" + slug + ", " + TextIndex(index) + ") = " + [letter])
      else None)
  }

  /** The feature holds of a slug exactly when the letter is at that
      position, counting from the end for a negative index. */
  lemma HasAtIndexHolds(letter: char, index: int, slug: Slug, props: Props)
    ensures HasAtIndex(letter, index).property(slug, props).Some? <==>
      (0 <= index < |slug| && slug[index] == letter) || (-|slug| <= index < 0 && slug[|slug| + index] == letter)
    ensures HasAtIndex(letter, index).property(slug, props).Some? ==>
      HasAtIndex(letter, index).property(slug, props).value == "index(" + slug + ", " + TextIndex(index) + ") = " + [letter]
  {
  }

  /** Position `i` from the start and position `i - |slug|` from the end name
      the same character. */
  lemma AtFromEitherEnd(slug: string, i: int)
    requires 0 <= i < |slug|
    ensures At(slug, i) == At(slug, i - |slug|) == Some(slug[i])
  {
  }

  /** Reversing the slug swaps the two ends: position `i` of the slug is
      position `-i - 1` of its reversal. */
  lemma AtReversed(slug: string, i: int)
    ensures At(Reverse(slug), -i - 1) == At(slug, i)
  {
  }

  /** Printed indices never coincide: index 0 prints as 1, and negative
      indices keep their sign. */
  lemma TextIndexInjective(i: int, j: int)
    requires TextIndex(i) == TextIndex(j)
    ensures i == j
  {
    IntToStringInjective(if i >= 0 then i + 1 else i, if j >= 0 then j + 1 else j);
  }

  /** Distinct letter-position features have distinct names. */
  lemma HasAtIndexNamesDistinct(l1: char, i1: int, l2: char, i2: int)
    requires HasAtIndex(l1, i1).name == HasAtIndex(l2, i2).name
    ensures l1 == l2 && i1 == i2
  {
    var n1 := HasAtIndex(l1, i1).name;
    var n2 := HasAtIndex(l2, i2).name;
    assert n1[4] == l1 && n2[4] == l2;
    assert n1[15..] == TextIndex(i1);
    assert n2[15..] == TextIndex(i2);
    TextIndexInjective(i1, i2);
  }

  /** `slug.split("").reverse().join("")`. */
  function Reverse(s: string): (r: string)
    ensures |r| == |s|
    ensures forall i :: 0 <= i < |s| ==> r[i] == s[|s| - 1 - i]
  {
    seq(|s|, i requires 0 <= i < |s| => s[|s| - 1 - i])
  }

  /** Reading the slug backwards gives the slug. */
  predicate IsPalindrome(s: string) {
    forall i :: 0 <= i < |s| ==> s[i] == s[|s| - 1 - i]
  }

  /** Among the first `k` outer-to-inner pairs of positions, those holding
      different characters. */
  function Mismatches(s: string, k: nat): (n: nat)
    requires k <= |s| / 2
    ensures n <= k
  {
    if k == 0 then 0
    else Mismatches(s, k - 1) + (if s[k - 1] != s[|s| - k] then 1 else 0)
  }

  /** The number of mismatched pairs of the whole slug. */
  function MismatchCount(s: string): nat {
    Mismatches(s, |s| / 2)
  }

  lemma {:induction false} MismatchesMonotone(s: string, a: nat, b: nat)
    requires a <= b <= |s| / 2
    ensures Mismatches(s, a) <= Mismatches(s, b)
    decreases b
  {
    if a < b {
      MismatchesMonotone(s, a, b - 1);
    }
  }

  /** No mismatch among the first `k` pairs means every one of them matches. */
  lemma {:induction false} MismatchesZero(s: string, k: nat)
    requires k <= |s| / 2
    ensures Mismatches(s, k) == 0 <==> forall i :: 0 <= i < k ==> s[i] == s[|s| - 1 - i]
  {
    if k > 0 {
      MismatchesZero(s, k - 1);
    }
  }

  /** A slug is a palindrome exactly when no pair of mirrored positions is
      mismatched. */
  lemma PalindromeIffNoMismatch(s: string)
    ensures IsPalindrome(s) <==> MismatchCount(s) == 0
  {
    MismatchesZero(s, |s| / 2);
    if MismatchCount(s) == 0 {
      forall i | 0 <= i < |s| ensures s[i] == s[|s| - 1 - i] {
        if i >= |s| / 2 && |s| - 1 - i < |s| / 2 {
          assert s[|s| - 1 - i] == s[|s| - 1 - (|s| - 1 - i)];
        }
      }
    }
  }

  /** A palindrome is its own reversal, and conversely. */
  lemma PalindromeIffReverse(s: string)
    ensures IsPalindrome(s) <==> Reverse(s) == s
  {
    if Reverse(s) == s {
      forall i | 0 <= i < |s| ensures s[i] == s[|s| - 1 - i] {
        assert Reverse(s)[i] == s[i];
      }
    }
  }

  /** The result of the `is palindrome` property. */
  function PalindromeResult(slug: string): (r: Option<string>) {
    if IsPalindrome(slug) then Some(slug + " reversed = " + slug) else None
  }

  /** The loop of the `is palindrome` property: the two ends move inwards
      and the first mismatch returns null. */
  method PalindromeProperty(slug: string) returns (r: Option<string>)
    ensures r == PalindromeResult(slug)
  {
    PalindromeIffNoMismatch(slug);
    var i, j := 0, |slug| - 1;
    while i < j
      invariant 0 <= i <= |slug| / 2 && j == |slug| - 1 - i
      invariant Mismatches(slug, i) == 0
    {
      if slug[i] != slug[j] {
        MismatchesMonotone(slug, i + 1, |slug| / 2);
        return None;
      }
      i, j := i + 1, j - 1;
    }
    return Some(slug + " reversed = " + slug);
  }

  /** The result of the `is almost palindrome` property. */
  function AlmostPalindromeResult(slug: string): (r: Option<string>) {
    var mismatches := MismatchCount(slug);
    if mismatches == 1 then Some(slug + " reversed = " + Reverse(slug))
    else if mismatches == 0 then Some(slug + " reversed = " + slug)
    else None
  }

  /** The loop of the `is almost palindrome` property: counts the mismatched
      pairs from the ends inwards. */
  method AlmostPalindromeProperty(slug: string) returns (r: Option<string>)
    ensures r == AlmostPalindromeResult(slug)
  {
    var mismatches := 0;
    var i, j := 0, |slug| - 1;
    while i < j
      invariant 0 <= i <= |slug| / 2 && j == |slug| - 1 - i
      invariant mismatches == Mismatches(slug, i)
    {
      if slug[i] != slug[j] {
        mismatches := mismatches + 1;
      }
      i, j := i + 1, j - 1;
    }
    r := if mismatches == 1 then Some(slug + " reversed = " + Reverse(slug))
      else if mismatches == 0 then Some(slug + " reversed = " + slug)
      else None;
  }

  /** A palindrome is also an almost-palindrome, with the same sentence. */
  lemma PalindromeIsAlmost(slug: string)
    requires PalindromeResult(slug).Some?
    ensures AlmostPalindromeResult(slug) == PalindromeResult(slug)
  {
    PalindromeIffNoMismatch(slug);
  }

  /** An almost-palindrome that is not a palindrome differs from its
      reversal. */
  lemma AlmostButNotPalindrome(slug: string)
    requires AlmostPalindromeResult(slug).Some? && PalindromeResult(slug).None?
    ensures MismatchCount(slug) == 1
    ensures AlmostPalindromeResult(slug) == Some(slug + " reversed = " + Reverse(slug))
    ensures Reverse(slug) != slug
  {
    PalindromeIffNoMismatch(slug);
    PalindromeIffReverse(slug);
  }

  /** `palindrome()`. */
  function Palindrome(): (f: SlugFeature)
    ensures f.name == "is palindrome"
  {
    SlugFeature("is palindrome", (slug: Slug, props: Props) => PalindromeResult(slug))
  }

  /** `almostPalindrome()`. */
  function AlmostPalindrome(): (f: SlugFeature)
    ensures f.name == "is almost palindrome"
  {
    SlugFeature("is almost palindrome", (slug: Slug, props: Props) => AlmostPalindromeResult(slug))
  }

  /** The two palindrome features report what the loops compute. */
  lemma PalindromeFeatures(slug: Slug, props: Props)
    ensures Palindrome().property(slug, props) == PalindromeResult(slug)
    ensures AlmostPalindrome().property(slug, props) == AlmostPalindromeResult(slug)
  {
  }

  /** The arguments of the product: a letter or an index. */
  datatype Arg = LetterArg(letter: char) | IndexArg(index: int)

  /** `hasAtIndex` spread over one tuple of the product.  Every tuple of the
      product below is a letter followed by an index; any other shape is
      read with `a` and 0. */
  function HasAtIndexOf(t: seq<Arg>): SlugFeature {
    var letter := if |t| >= 1 && t[0].LetterArg? then t[0].letter else 'a';
    var index := if |t| >= 2 && t[1].IndexArg? then t[1].index else 0;
    HasAtIndex(letter, index)
  }

  /** `[LETTERS, interval(-5, 9)]`. */
  function AtIndexArgs(): (args: seq<seq<Arg>>)
    ensures |args| == 2 && |args[0]| == 26 && |args[1]| == 15
    ensures forall l :: 0 <= l < 26 ==> args[0][l] == LetterArg(LETTERS[l])
    ensures forall k :: 0 <= k < 15 ==> args[1][k] == IndexArg(k - 5)
  {
    var indices := Interval(-5, 9);
    [seq(26, l requires 0 <= l < 26 => LetterArg(LETTERS[l])),
     seq(15, k requires 0 <= k < 15 => IndexArg(indices[k]))]
  }

  /** `otherFeatures()`: 26 x 15 letter-position features, then
      `is palindrome` and `is almost palindrome`. */
  function OtherFeatureList(): (r: seq<SlugFeature>)
    ensures |r| == 392
    ensures r[390] == Palindrome() && r[391] == AlmostPalindrome()
  {
    var args := AtIndexArgs();
    assert ProductSize(args) == 26 * ProductSize(args[1..]);
    assert ProductSize(args[1..]) == 15 * ProductSize(args[2..]);
    assert args[2..] == [];
    MapProduct(HasAtIndexOf, args) + [Palindrome(), AlmostPalindrome()]
  }

  /** The 390 letter-position features come letter by letter, each letter
      with the indices -5 to 9 in order. */
  lemma OtherFeatureListShape(l: nat, k: nat)
    requires l < 26 && k < 15
    ensures OtherFeatureList()[l * 15 + k] == HasAtIndex(LETTERS[l], k - 5)
  {
    var args := AtIndexArgs();
    var p := MapProduct(HasAtIndexOf, args);
    assert ProductSize(args[1..]) == 15 * ProductSize(args[2..]);
    assert args[2..] == [];
    var rest := Product(args[1..]);
    assert args[1..][1..] == [];
    assert |rest| == 15;
    assert rest[k] == [IndexArg(k - 5)];
    ProductOrder(args, l, k);
    assert Product(args)[l * 15 + k] == [LetterArg(LETTERS[l]), IndexArg(k - 5)];
  }

  lemma AtIndexNamesDistinct(la: nat, ka: nat, lb: nat, kb: nat)
    requires la < 26 && lb < 26 && (la != lb || ka != kb)
    ensures HasAtIndex(LETTERS[la], ka - 5).name != HasAtIndex(LETTERS[lb], kb - 5).name
  {
    if HasAtIndex(LETTERS[la], ka - 5).name == HasAtIndex(LETTERS[lb], kb - 5).name {
      HasAtIndexNamesDistinct(LETTERS[la], ka - 5, LETTERS[lb], kb - 5);
      LettersAt(la);
      LettersAt(lb);
    }
  }

  lemma AtIndexNameIsNotPalindrome(l: char, i: int)
    ensures HasAtIndex(l, i).name != Palindrome().name
    ensures HasAtIndex(l, i).name != AlmostPalindrome().name
  {
    assert HasAtIndex(l, i).name[..2] == "ha";
    assert Palindrome().name[..2] == "is";
    assert AlmostPalindrome().name[..2] == "is";
  }

  /** The names of the other features are pairwise distinct, so none of them
      overwrites another in a feature record: two letter-position features
      differ in name ... */
  lemma OtherFeatureNamesDistinct(la: nat, ka: nat, lb: nat, kb: nat)
    requires la < 26 && ka < 15 && lb < 26 && kb < 15 && (la != lb || ka != kb)
    ensures |OtherFeatureList()| == 392
    ensures OtherFeatureList()[la * 15 + ka].name != OtherFeatureList()[lb * 15 + kb].name
  {
    OtherFeatureListShape(la, ka);
    OtherFeatureListShape(lb, kb);
    AtIndexNamesDistinct(la, ka, lb, kb);
  }

  /** ... and from the two palindrome features, which differ from each other. */
  lemma OtherPalindromeNamesDistinct(l: nat, k: nat)
    requires l < 26 && k < 15
    ensures |OtherFeatureList()| == 392
    ensures OtherFeatureList()[l * 15 + k].name != OtherFeatureList()[390].name
    ensures OtherFeatureList()[l * 15 + k].name != OtherFeatureList()[391].name
    ensures OtherFeatureList()[390].name != OtherFeatureList()[391].name
  {
    OtherFeatureListShape(l, k);
    AtIndexNameIsNotPalindrome(LETTERS[l], k - 5);
    assert Palindrome().name[3] != AlmostPalindrome().name[3];
  }

  /** "abca" reads "acba" backwards, one mismatched pair away. */
  lemma SampleAbca()
    ensures PalindromeResult("abca") == None
    ensures AlmostPalindromeResult("abca") == Some("abca reversed = acba")
  {
    assert Mismatches("abca", 2) == 1 by {
      assert Mismatches("abca", 1) == 0;
    }
    assert Reverse("abca") == "acba";
    assert "abca" + " reversed = " + "acba" == "abca reversed = acba";
    assert !IsPalindrome("abca") by {
      assert "abca"[1] != "abca"[2];
    }
  }

  /** "level" is a palindrome, hence an almost-palindrome too. */
  lemma SampleLevel()
    ensures PalindromeResult("level") == Some("level reversed = level")
    ensures AlmostPalindromeResult("level") == Some("level reversed = level")
  {
    assert Mismatches("level", 2) == 0 by {
      assert Mismatches("level", 1) == 0;
    }
    PalindromeIffNoMismatch("level");
    assert "level" + " reversed = " + "level" == "level reversed = level";
  }

  /** "stone" has two mismatched pairs. */
  lemma SampleStone()
    ensures AlmostPalindromeResult("stone") == None
  {
    assert Mismatches("stone", 2) == 2 by {
      assert Mismatches("stone", 1) == 1;
    }
  }

  /** "stone" ends in e: the feature for index -1 holds. */
  lemma SampleStoneEndsInE(props: Props)
    ensures HasAtIndex('e', -1).name == "has e at index -1"
    ensures HasAtIndex('e', -1).property("stone", props) == Some("index(stone, -1) = e")
  {
    assert TextIndex(-1) == "-1" by {
      assert NatToString(1) == "1";
    }
    assert "index(" + "stone" + ", " + "-1" + ") = " + ['e'] == "index(stone, -1) = e";
    assert "has " + ['e'] + " at index " + "-1" == "has e at index -1";
  }
}
