/** The letter-multiset code of src/lib/letterBitset.ts: the 26 letter counts
    of a slug packed into one integer, 5 bits (one base-32 digit) per letter,
    `data = sum of count(c) * 32^(c - 'a')`.  Integers are unbounded here, as
    `bigint` is in the source. */
module LetterBitsets {
  import opened Prelude

  const LETTERS: string := "abcdefghijklmnopqrstuvwxyz"

  predicate IsLetter(c: char) {
    'a' <= c <= 'z'
  }

  /** A canonical word: lower-case letters only. */
  predicate IsSlug(s: string) {
    forall i :: 0 <= i < |s| ==> IsLetter(s[i])
  }

  /** The words the rest of the system passes around: `LetterBitset.from`
      throws on any other character, since its lane mask is then undefined. */
  type Slug = s: string | IsSlug(s) witness ""

  /** `toIndex`: the lane of a letter. */
  function ToIndex(c: char): (i: nat)
    requires IsLetter(c)
    ensures i < 26
  {
    c as int - 'a' as int
  }

  /** `fromIndex`: the letter of a lane. */
  function FromIndex(i: nat): (c: char)
    requires i < 26
    ensures IsLetter(c) && ToIndex(c) == i
  {
    (97 + i) as char
  }

  lemma LettersAt(i: nat)
    requires i < 26
    ensures |LETTERS| == 26 && LETTERS[i] == FromIndex(i)
  {
  }

  /** `1n << (5n * i)`. */
  function Pow32(i: nat): (p: nat)
    ensures p >= 1
  {
    if i == 0 then 1 else 32 * Pow32(i - 1)
  }

  /** `letterMasks[toIndex(c)]`: the unit of the letter's lane. */
  function LetterMask(c: char): nat
    requires IsLetter(c)
  {
    Pow32(ToIndex(c))
  }

  /** The masks grow strictly, so no two letters share one. */
  lemma {:induction false} Pow32Increasing(i: nat, j: nat)
    requires i < j
    ensures Pow32(i) < Pow32(j)
    decreases j
  {
    if i < j - 1 {
      Pow32Increasing(i, j - 1);
    }
  }

  lemma Pow32Injective(i: nat, j: nat)
    requires Pow32(i) == Pow32(j)
    ensures i == j
  {
    if i < j {
      Pow32Increasing(i, j);
    } else if j < i {
      Pow32Increasing(j, i);
    }
  }

  /** Lane `i` of `data`: the base-32 digit at position `i` (floor division,
      as `>>` on a `bigint`, then the low five bits, as `& 31n`). */
  function Lane(data: int, i: nat): (n: nat)
    ensures n < 32
    decreases i
  {
    if i == 0 then data % 32 else Lane(data / 32, i - 1)
  }

  lemma DivUnique(x: int, m: int, q: int, r: int)
    requires m > 0 && x == m * q + r && 0 <= r < m
    ensures x / m == q && x % m == r
  {
    var q' := x / m;
    var r' := x % m;
    assert x == m * q' + r';
    if q' < q {
      assert m * q == m * q' + m * (q - q');
      MulAtLeast(m, q - q');
    } else if q' > q {
      assert m * q' == m * q + m * (q' - q);
      MulAtLeast(m, q' - q);
    }
  }

  lemma MulAtLeast(m: int, k: int)
    requires m > 0 && k >= 1
    ensures m * k >= m
  {
    assert m * k == m + m * (k - 1);
  }

  lemma DivDiv32(d: int, p: nat)
    requires p >= 1
    ensures (d / 32) / p == d / (32 * p)
  {
    var q, r := d / 32, d % 32;
    var q2, r2 := q / p, q % p;
    assert d == 32 * q + r;
    assert q == p * q2 + r2;
    assert d == (32 * p) * q2 + (32 * r2 + r) by {
      assert 32 * q == 32 * (p * q2) + 32 * r2;
      assert 32 * (p * q2) == (32 * p) * q2;
    }
    assert 32 * r2 + r < 32 * p by {
      assert r2 <= p - 1;
      assert 32 * r2 <= 32 * (p - 1);
    }
    DivUnique(d, 32 * p, q2, 32 * r2 + r);
  }

  /** A number below `Pow32(k)` is determined by its first `k` lanes. */
  lemma {:induction false} LanesDetermine(d: int, e: int, k: nat)
    requires 0 <= d < Pow32(k) && 0 <= e < Pow32(k)
    requires forall i :: 0 <= i < k ==> Lane(d, i) == Lane(e, i)
    ensures d == e
  {
    if k > 0 {
      forall i | 0 <= i < k - 1
        ensures Lane(d / 32, i) == Lane(e / 32, i)
      {
        assert Lane(d, i + 1) == Lane(e, i + 1);
      }
      LanesDetermine(d / 32, e / 32, k - 1);
      assert Lane(d, 0) == Lane(e, 0);
    }
  }

  /** Two codes within the 26 lanes are equal exactly when every letter's lane
      agrees. */
  lemma LetterLanesDetermine(d: int, e: int)
    ensures 0 <= d < Pow32(26) && 0 <= e < Pow32(26) ==>
      (d == e <==> forall c :: IsLetter(c) ==> Lane(d, ToIndex(c)) == Lane(e, ToIndex(c)))
  {
    if 0 <= d < Pow32(26) && 0 <= e < Pow32(26) && forall c :: IsLetter(c) ==> Lane(d, ToIndex(c)) == Lane(e, ToIndex(c)) {
      forall i | 0 <= i < 26
        ensures Lane(d, i) == Lane(e, i)
      {
        assert Lane(d, ToIndex(FromIndex(i))) == Lane(e, ToIndex(FromIndex(i)));
      }
      LanesDetermine(d, e, 26);
    }
  }

  /** The recursive lane is exactly the source's shift-and-mask. */
  lemma {:induction false} LaneIsShiftAndMask(data: int, i: nat)
    ensures Lane(data, i) == (data / Pow32(i)) % 32
    decreases i
  {
    if i > 0 {
      LaneIsShiftAndMask(data / 32, i - 1);
      DivDiv32(data, Pow32(i - 1));
    }
  }

  /** Adding one unit to a lane that is below 31 raises that lane by one and
      leaves every other lane alone (no carry). */
  lemma {:induction false} LaneAddUnit(data: int, i: nat, j: nat)
    requires Lane(data, i) < 31
    ensures Lane(data + Pow32(i), j) == if j == i then Lane(data, i) + 1 else Lane(data, j)
    decreases i + j
  {
    if i == 0 {
      if j > 0 {
        assert (data + 1) / 32 == data / 32;
      }
    } else {
      assert (data + Pow32(i)) / 32 == data / 32 + Pow32(i - 1);
      if j > 0 {
        LaneAddUnit(data / 32, i - 1, j - 1);
      }
    }
  }

  /** Removing one unit from a lane that is at least 1 lowers that lane by one
      and leaves every other lane alone (no borrow). */
  lemma {:induction false} LaneSubUnit(data: int, i: nat, j: nat)
    requires Lane(data, i) >= 1
    ensures Lane(data - Pow32(i), j) == if j == i then Lane(data, i) - 1 else Lane(data, j)
    decreases i + j
  {
    if i == 0 {
      if j > 0 {
        assert (data - 1) / 32 == data / 32;
      }
    } else {
      assert (data - Pow32(i)) / 32 == data / 32 - Pow32(i - 1);
      if j > 0 {
        LaneSubUnit(data / 32, i - 1, j - 1);
      }
    }
  }

  /** The value `from` accumulates: one lane unit per character, left to right. */
  function Code(s: string): nat
    requires IsSlug(s)
  {
    if s == [] then 0 else Code(s[..|s| - 1]) + LetterMask(s[|s| - 1])
  }

  lemma CodeAppend(s: string, c: char)
    requires IsSlug(s) && IsLetter(c)
    ensures IsSlug(s + [c]) && Code(s + [c]) == Code(s) + LetterMask(c)
  {
    assert (s + [c])[..|s|] == s;
  }

  /** The 26 letter counts of a word, `a` first. */
  function Counts(s: string): (r: seq<nat>)
    ensures |r| == 26
  {
    seq(26, i requires 0 <= i < 26 => multiset(s)[FromIndex(i)])
  }

  /** Base-32 number whose digits, least significant first, are `c`. */
  function Packed(c: seq<nat>): nat {
    if c == [] then 0 else c[0] + 32 * Packed(c[1..])
  }

  /** Every letter occurs at most `k` times. */
  predicate Bounded(s: string, k: nat) {
    forall c :: IsLetter(c) ==> multiset(s)[c] <= k
  }

  predicate DigitsBelow(c: seq<nat>, k: nat) {
    forall j :: 0 <= j < |c| ==> c[j] < k
  }

  lemma {:induction false} PackedInc(c: seq<nat>, k: nat)
    requires k < |c|
    ensures Packed(c[k := c[k] + 1]) == Packed(c) + Pow32(k)
  {
    if k > 0 {
      assert c[k := c[k] + 1][1..] == c[1..][k - 1 := c[k] + 1];
      PackedInc(c[1..], k - 1);
    }
  }

  lemma CountsAppend(s: string, c: char)
    requires IsLetter(c)
    ensures Counts(s + [c]) == Counts(s)[ToIndex(c) := Counts(s)[ToIndex(c)] + 1]
  {
    assert multiset(s + [c]) == multiset(s) + multiset{c};
    forall i | 0 <= i < 26
      ensures Counts(s + [c])[i] == Counts(s)[ToIndex(c) := Counts(s)[ToIndex(c)] + 1][i]
    {
      assert FromIndex(i) == c <==> i == ToIndex(c);
    }
  }

  /** The accumulated code is the packed letter histogram. */
  lemma {:induction false} CodeIsPacked(s: string)
    requires IsSlug(s)
    ensures Code(s) == Packed(Counts(s))
  {
    if s == [] {
      assert Counts(s) == seq(26, i => 0);
      var z := seq(26, i => 0);
      ZeroPacked(z);
    } else {
      var t, c := s[..|s| - 1], s[|s| - 1];
      assert s == t + [c];
      CodeIsPacked(t);
      CountsAppend(t, c);
      PackedInc(Counts(t), ToIndex(c));
    }
  }

  lemma {:induction false} ZeroPacked(z: seq<nat>)
    requires forall j :: 0 <= j < |z| ==> z[j] == 0
    ensures Packed(z) == 0
  {
    if z != [] {
      ZeroPacked(z[1..]);
    }
  }

  /** With every digit below 32, lane `i` reads back digit `i`. */
  lemma {:induction false} LanePacked(c: seq<nat>, i: nat)
    requires DigitsBelow(c, 32) && i < |c|
    ensures Lane(Packed(c), i) == c[i]
  {
    var p := Packed(c);
    DivUnique(p, 32, Packed(c[1..]), c[0]);
    if i > 0 {
      LanePacked(c[1..], i - 1);
    }
  }

  lemma PackedInjective(c: seq<nat>, d: seq<nat>)
    requires |c| == |d| && DigitsBelow(c, 32) && DigitsBelow(d, 32)
    requires Packed(c) == Packed(d)
    ensures c == d
  {
    forall i | 0 <= i < |c| ensures c[i] == d[i] {
      LanePacked(c, i);
      LanePacked(d, i);
    }
  }

  lemma BoundedDigits(s: string, k: nat)
    requires Bounded(s, k)
    ensures DigitsBelow(Counts(s), k + 1)
  {
    forall j | 0 <= j < 26 ensures Counts(s)[j] < k + 1 {
      assert IsLetter(FromIndex(j));
    }
  }

  /** For slugs, the 26 counts determine the whole multiset. */
  lemma SlugMultisetFromCounts(s: string, t: string)
    requires IsSlug(s) && IsSlug(t) && Counts(s) == Counts(t)
    ensures multiset(s) == multiset(t)
  {
    forall c ensures multiset(s)[c] == multiset(t)[c] {
      if IsLetter(c) {
        assert Counts(s)[ToIndex(c)] == Counts(t)[ToIndex(c)];
        assert FromIndex(ToIndex(c)) == c;
      } else {
        assert c !in s && c !in t;
      }
    }
  }

  /** `index(L)` of `from(s)` counts the occurrences of `L` in `s` (0 for an
      absent letter), as long as no letter occurs more than 31 times. */
  lemma IndexCountsLetter(s: string, letter: char)
    requires IsSlug(s) && Bounded(s, 31) && IsLetter(letter)
    ensures Lane(Code(s), ToIndex(letter)) == multiset(s)[letter]
  {
    CodeIsPacked(s);
    BoundedDigits(s, 31);
    LanePacked(Counts(s), ToIndex(letter));
  }

  /** `from` does not depend on the order of the characters. */
  lemma CodePermutationInvariant(s: string, t: string)
    requires IsSlug(s) && IsSlug(t) && multiset(s) == multiset(t)
    ensures Code(s) == Code(t)
  {
    CodeIsPacked(s);
    CodeIsPacked(t);
    assert Counts(s) == Counts(t);
  }

  /** `equals` decides "same letter multiset", for counts up to 31. */
  lemma CodeEqualIffAnagram(s: string, t: string)
    requires IsSlug(s) && IsSlug(t) && Bounded(s, 31) && Bounded(t, 31)
    ensures Code(s) == Code(t) <==> multiset(s) == multiset(t)
  {
    if Code(s) == Code(t) {
      CodeIsPacked(s);
      CodeIsPacked(t);
      BoundedDigits(s, 31);
      BoundedDigits(t, 31);
      PackedInjective(Counts(s), Counts(t));
      SlugMultisetFromCounts(s, t);
    }
    if multiset(s) == multiset(t) {
      CodePermutationInvariant(s, t);
    }
  }

  /** `letterMasks.findIndex(mask => diff === mask)`, scanning from lane `from`. */
  function FindMaskIndex(diff: int, from: nat): (k: int)
    requires from <= 26
    ensures k != -1 ==> from <= k < 26 && Pow32(k) == diff
    decreases 26 - from
  {
    if from == 26 then -1
    else if Pow32(from) == diff then from
    else FindMaskIndex(diff, from + 1)
  }

  /** No mask of the lanes `lo` to `hi - 1` equals `diff`. */
  predicate NoMaskIn(diff: int, lo: nat, hi: nat) {
    forall j: nat :: lo <= j < hi ==> Pow32(j) != diff
  }

  /** `findIndex` gives -1 exactly when no mask from lane `from` on equals
      `diff`, and otherwise the first lane whose mask does. */
  lemma {:induction false} FindMaskIndexSpec(diff: int, from: nat)
    requires from <= 26
    ensures var k := FindMaskIndex(diff, from);
      && (k == -1 <==> NoMaskIn(diff, from, 26))
      && (k != -1 ==> NoMaskIn(diff, from, k))
    decreases 26 - from
  {
    if from == 26 {
    } else if Pow32(from) == diff {
      assert FindMaskIndex(diff, from) == from;
      assert !NoMaskIn(diff, from, 26) by {
        var j: nat := from;
        assert from <= j < 26 && Pow32(j) == diff;
      }
    } else {
      FindMaskIndexSpec(diff, from + 1);
      var k := FindMaskIndex(diff, from + 1);
      assert FindMaskIndex(diff, from) == k;
      if k != -1 {
        assert from + 1 <= k < 26 && Pow32(k) == diff;
        assert !NoMaskIn(diff, from, 26);
      } else {
        assert NoMaskIn(diff, from + 1, 26);
      }
    }
  }

  /** The class `LetterBitset`: an immutable code. */
  datatype LetterBitset = LetterBitset(data: int) {

    /** `LetterBitset.from(slug)`: adds one lane unit per character. */
    static method From(slug: string) returns (b: LetterBitset)
      requires IsSlug(slug)
      ensures b.data == Code(slug)
    {
      var data := 0;
      var i := 0;
      while i < |slug|
        invariant 0 <= i <= |slug|
        invariant data == Code(slug[..i])
      {
        assert slug[..i + 1] == slug[..i] + [slug[i]];
        CodeAppend(slug[..i], slug[i]);
        data := data + LetterMask(slug[i]);
        i := i + 1;
      }
      assert slug[..i] == slug;
      b := LetterBitset(data);
    }

    /** `index(letter)`: the count stored in the letter's lane. */
    function Index(letter: char): (n: nat)
      requires IsLetter(letter)
      ensures n < 32
      ensures n == (data / LetterMask(letter)) % 32
    {
      LaneIsShiftAndMask(data, ToIndex(letter));
      Lane(data, ToIndex(letter))
    }

    /** `equals(other)`: for codes within the 26 lanes, the same count of
        every letter. */
    predicate Equals(other: LetterBitset)
      ensures 0 <= data < Pow32(26) && 0 <= other.data < Pow32(26) ==>
        (Equals(other) <==> forall c :: IsLetter(c) ==> Index(c) == other.Index(c))
    {
      LetterLanesDetermine(data, other.data);
      data == other.data
    }

    /** `transaddOf(other)`: the letter whose lane unit is exactly
        `this.data - other.data`, if there is one. */
    function TransaddOf(other: LetterBitset): (r: Option<char>)
      ensures r.Some? ==> IsLetter(r.value) && LetterMask(r.value) == data - other.data
    {
      var index := FindMaskIndex(data - other.data, 0);
      if index == -1 then None
      else
        assert Pow32(index) == data - other.data;
        Some(FromIndex(index))
    }

    /** `transdeleteOf(other)` is `other.transaddOf(this)`. */
    function TransdeleteOf(other: LetterBitset): (r: Option<char>)
      ensures r.Some? ==> IsLetter(r.value) && LetterMask(r.value) == other.data - data
    {
      other.TransaddOf(this)
    }
  }

  /** At most one letter can be the answer: the masks are pairwise distinct. */
  lemma TransaddOfUnique(a: LetterBitset, b: LetterBitset, m: char)
    requires IsLetter(m) && LetterMask(m) == a.data - b.data
    ensures a.TransaddOf(b) == Some(m)
  {
    var k := FindMaskIndex(a.data - b.data, 0);
    FindMaskIndexSpec(a.data - b.data, 0);
    assert Pow32(ToIndex(m)) == a.data - b.data;
    assert k != -1;
    Pow32Injective(k, ToIndex(m));
  }

  /** Identical multisets never give a transadd. */
  lemma TransaddOfSelfIsNone(a: LetterBitset, b: LetterBitset)
    requires a.Equals(b)
    ensures a.TransaddOf(b) == None
  {
  }

  /** `transaddOf` finds `L` exactly when `s` is `t` plus one `L`, provided no
      letter of `s` occurs more than 31 times and none of `t` more than 30
      (otherwise a lane of `t` can borrow from the next one; see
      `TransaddBorrow`). */
  lemma TransaddOfIffOneMore(s: string, t: string, letter: char)
    requires IsSlug(s) && IsSlug(t) && Bounded(s, 31) && Bounded(t, 30)
    ensures LetterBitset(Code(s)).TransaddOf(LetterBitset(Code(t))) == Some(letter)
        <==> IsLetter(letter) && multiset(s) == multiset(t) + multiset{letter}
  {
    var a, b := LetterBitset(Code(s)), LetterBitset(Code(t));
    if IsLetter(letter) && multiset(s) == multiset(t) + multiset{letter} {
      CodeAppend(t, letter);
      assert multiset(t + [letter]) == multiset(t) + multiset{letter};
      CodePermutationInvariant(s, t + [letter]);
      TransaddOfUnique(a, b, letter);
    }
    if a.TransaddOf(b) == Some(letter) {
      CodeAppend(t, letter);
      var t' := t + [letter];
      assert multiset(t') == multiset(t) + multiset{letter};
      assert Bounded(t', 31) by {
        forall c | IsLetter(c) ensures multiset(t')[c] <= 31 {
        }
      }
      CodeEqualIffAnagram(s, t');
    }
  }

  /** Under the same bounds, any transadd makes `s` exactly one letter longer
      than `t`; so a word with no more letters than `t` gets null. */
  lemma TransaddOfLonger(s: string, t: string)
    requires IsSlug(s) && IsSlug(t) && Bounded(s, 31) && Bounded(t, 30)
    requires |s| <= |t|
    ensures LetterBitset(Code(s)).TransaddOf(LetterBitset(Code(t))) == None
  {
    var r := LetterBitset(Code(s)).TransaddOf(LetterBitset(Code(t)));
    if r.Some? {
      TransaddOfIffOneMore(s, t, r.value);
      assert false;
    }
  }

  /** `transdeleteOf` finds `L` exactly when `t` is `s` plus one `L`. */
  lemma TransdeleteOfIffOneLess(s: string, t: string, letter: char)
    requires IsSlug(s) && IsSlug(t) && Bounded(s, 30) && Bounded(t, 31)
    ensures LetterBitset(Code(s)).TransdeleteOf(LetterBitset(Code(t))) == Some(letter)
        <==> IsLetter(letter) && multiset(t) == multiset(s) + multiset{letter}
  {
    TransaddOfIffOneMore(t, s, letter);
  }

  lemma {:induction false} CodeOfRepeatedA(n: nat)
    ensures IsSlug(seq(n, _ => 'a')) && Code(seq(n, _ => 'a')) == n
  {
    if n > 0 {
      var s := seq(n, _ => 'a');
      assert s[..n - 1] == seq(n - 1, _ => 'a');
      CodeOfRepeatedA(n - 1);
    }
  }

  /** Why the per-letter bound matters: with 31 `a`s in `t`, the lanes borrow.
      "b" minus 31 `a`s is 32 - 31 = 1, the mask of `a`, although "b" is not
      31 `a`s plus one `a`. */
  lemma TransaddBorrow()
    ensures var t := seq(31, _ => 'a');
      && IsSlug(t) && Bounded(t, 31)
      && LetterBitset(Code("b")).TransaddOf(LetterBitset(Code(t))) == Some('a')
      && multiset("b") != multiset(t) + multiset{'a'}
  {
    var t := seq(31, _ => 'a');
    CodeOfRepeatedA(31);
    assert Code("b") == 32 by {
      assert "b"[..0] == [];
    }
    assert Bounded(t, 31) by {
      assert multiset(t)['a'] <= |t|;
      forall c | IsLetter(c) && c != 'a' ensures multiset(t)[c] == 0 {
        assert c !in t;
      }
    }
    assert multiset("b")['b'] == 1;
    assert 'b' !in t;
    assert (multiset(t) + multiset{'a'})['b'] == 0;
  }
}
