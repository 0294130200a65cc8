/** src/lib/letterCounter.ts: the same 26 x 5-bit code as `LetterBitset`, held
    in a mutable field that `add` and `sub` change in place. */
module LetterCounters {
  import opened Prelude
  import opened LetterBitsets

  class LetterCounter {
    var data: int

    /** `new LetterCounter()`: the empty multiset. */
    constructor ()
      ensures data == 0
      ensures forall c :: IsLetter(c) ==> Index(c) == 0
    {
      data := 0;
    }

    /** `new LetterCounter(data)`. */
    constructor FromData(data: int)
      ensures this.data == data
    {
      this.data := data;
    }

    /** `LetterCounter.from(slug)`: adds one lane unit per character. */
    static method From(slug: string) returns (c: LetterCounter)
      requires IsSlug(slug)
      ensures fresh(c) && c.data == Code(slug)
    {
      var data := 0;
      for i := 0 to |slug|
        invariant data == Code(slug[..i])
      {
        assert slug[..i + 1] == slug[..i] + [slug[i]];
        CodeAppend(slug[..i], slug[i]);
        data := data + LetterMask(slug[i]);
      }
      assert slug[..|slug|] == slug;
      c := new LetterCounter.FromData(data);
    }

    /** `index(letter)`: the count in the letter's lane. */
    function Index(letter: char): (n: nat)
      requires IsLetter(letter)
      reads this
      ensures n < 32 && n == Lane(data, ToIndex(letter))
    {
      LetterBitset(data).Index(letter)
    }

    /** `add(letter)`: one more of `letter`; when its lane is below 31 no other
        lane changes. */
    method Add(letter: char)
      requires IsLetter(letter)
      modifies this
      ensures data == old(data) + LetterMask(letter)
      ensures old(Index(letter)) < 31 ==>
        && Index(letter) == old(Index(letter)) + 1
        && forall c :: IsLetter(c) && c != letter ==> Index(c) == old(Index(c))
    {
      ghost var before := data;
      data := data + LetterMask(letter);
      if Lane(before, ToIndex(letter)) < 31 {
        forall c | IsLetter(c)
          ensures Lane(data, ToIndex(c)) == if c == letter then Lane(before, ToIndex(c)) + 1 else Lane(before, ToIndex(c))
        {
          LaneAddUnit(before, ToIndex(letter), ToIndex(c));
        }
      }
    }

    /** `sub(letter)`: one fewer of `letter`; when its lane is at least 1 no
        other lane changes. */
    method Sub(letter: char)
      requires IsLetter(letter)
      modifies this
      ensures data == old(data) - LetterMask(letter)
      ensures old(Index(letter)) >= 1 ==>
        && Index(letter) == old(Index(letter)) - 1
        && forall c :: IsLetter(c) && c != letter ==> Index(c) == old(Index(c))
    {
      ghost var before := data;
      data := data - LetterMask(letter);
      if Lane(before, ToIndex(letter)) >= 1 {
        forall c | IsLetter(c)
          ensures Lane(data, ToIndex(c)) == if c == letter then Lane(before, ToIndex(c)) - 1 else Lane(before, ToIndex(c))
        {
          LaneSubUnit(before, ToIndex(letter), ToIndex(c));
        }
      }
    }

    /** `equals(other)`: the comparison of `LetterBitset`, so for codes within
        the 26 lanes, the same count of every letter. */
    predicate Equals(other: LetterCounter)
      reads this, other
      ensures 0 <= data < Pow32(26) && 0 <= other.data < Pow32(26) ==>
        (Equals(other) <==> forall c :: IsLetter(c) ==> Index(c) == other.Index(c))
    {
      LetterBitset(data).Equals(LetterBitset(other.data))
    }

    /** `transaddOf(other)`: the letter whose lane unit is `this.data - other.data`. */
    function TransaddOf(other: LetterCounter): (r: Option<char>)
      reads this, other
      ensures r == LetterBitset(data).TransaddOf(LetterBitset(other.data))
      ensures r.Some? ==> IsLetter(r.value) && LetterMask(r.value) == data - other.data
      ensures data == other.data ==> r == None
    {
      LetterBitset(data).TransaddOf(LetterBitset(other.data))
    }

    /** `transdeleteOf(other)` is `other.transaddOf(this)`. */
    function TransdeleteOf(other: LetterCounter): (r: Option<char>)
      reads this, other
      ensures r.Some? ==> IsLetter(r.value) && LetterMask(r.value) == other.data - data
      ensures data == other.data ==> r == None
    {
      other.TransaddOf(this)
    }
  }

  /** `add(L)` then `sub(L)` gives back the very same code, whatever the lanes hold. */
  method AddThenSub(counter: LetterCounter, letter: char)
    requires IsLetter(letter)
    modifies counter
    ensures counter.data == old(counter.data)
  {
    counter.Add(letter);
    counter.Sub(letter);
  }

  /** The counter built by `from` answers `index` with the letter's count, and
      `transaddOf` with the added letter, under the bounds of `LetterBitsets`. */
  method FromThenQuery(s: string, t: string, letter: char) returns (count: nat, added: Option<char>)
    requires IsSlug(s) && IsSlug(t) && Bounded(s, 31) && Bounded(t, 30) && IsLetter(letter)
    ensures count == multiset(s)[letter]
    ensures added.Some? <==> exists c :: IsLetter(c) && multiset(s) == multiset(t) + multiset{c}
    ensures added.Some? ==> multiset(s) == multiset(t) + multiset{added.value}
  {
    var a := LetterCounter.From(s);
    var b := LetterCounter.From(t);
    count := a.Index(letter);
    IndexCountsLetter(s, letter);
    added := a.TransaddOf(b);
    if added.Some? {
      TransaddOfIffOneMore(s, t, added.value);
    } else {
      forall c | IsLetter(c) ensures multiset(s) != multiset(t) + multiset{c} {
        TransaddOfIffOneMore(s, t, c);
      }
    }
  }
}
