/** src/features/wordplay.ts: wordplay features (adding, removing, changing
    or rearranging letters to reach another corpus word). */
module Wordplay {
  import opened Prelude
  import opened LetterBitsets
  import opened LogNums
  import opened Wordlists
  import opened Features
  import opened OtherFeatures

  /** The first non-null candidate `test(i)` for `from <= i < n`: the value
      a loop over `i` that returns at its first hit gives back. */
  function FirstHit(test: nat -> Option<string>, from: nat, n: nat): Option<string>
    decreases n - from
  {
    if from >= n then None
    else if test(from).Some? then test(from)
    else FirstHit(test, from + 1, n)
  }

  /** A hit exists exactly when some candidate is non-null, and the hit is the
      candidate of the least such position. */
  lemma {:induction false} FirstHitSpec(test: nat -> Option<string>, from: nat, n: nat)
    ensures FirstHit(test, from, n).Some? <==> exists i :: from <= i < n && test(i).Some?
    ensures FirstHit(test, from, n).Some? ==>
      exists i :: from <= i < n && FirstHit(test, from, n) == test(i) &&
        forall j :: from <= j < i ==> test(j).None?
    decreases n - from
  {
    if from < n && test(from).None? {
      FirstHitSpec(test, from + 1, n);
      if FirstHit(test, from, n).Some? {
        var i :| from + 1 <= i < n && FirstHit(test, from + 1, n) == test(i) &&
          forall j :: from + 1 <= j < i ==> test(j).None?;
        assert forall j :: from <= j < i ==> test(j).None?;
      }
    }
  }

  // ----- prepend, append, behead, curtail, reverse -----

  /** The `can prepend L` property. */
  function PrependResult(wordlist: Wordlist, letter: char, word: string): Option<string>
    requires wordlist.Valid()
  {
    var prepended := [letter] + word;
    if wordlist.IsWord(prepended)
    then Some("can prepend " + [letter] + " to " + word + " to get a word (" + prepended + ")")
    else None
  }

  /** The `can append L` property. */
  function AppendResult(wordlist: Wordlist, letter: char, word: string): Option<string>
    requires wordlist.Valid()
  {
    var appended := word + [letter];
    if wordlist.IsWord(appended)
    then Some("can append " + [letter] + " to " + word + " to get a word (" + appended + ")")
    else None
  }

  /** `word.slice(1)`: empty for the empty word. */
  function Beheaded(word: string): (r: string)
    ensures word != [] ==> [word[0]] + r == word
    ensures word == [] ==> r == []
  {
    if word == [] then [] else word[1..]
  }

  /** `word.slice(0, word.length - 1)`: empty for the empty word (the end
      -1 counts from the end and is clamped to 0). */
  function Curtailed(word: string): (r: string)
    ensures word != [] ==> r + [word[|word| - 1]] == word
    ensures word == [] ==> r == []
  {
    if word == [] then [] else word[..|word| - 1]
  }

  /** The `can behead` property. */
  function BeheadResult(wordlist: Wordlist, word: string): Option<string>
    requires wordlist.Valid()
  {
    var beheaded := Beheaded(word);
    if wordlist.IsWord(beheaded)
    then Some("can behead " + word + " to get a word (" + beheaded + ")")
    else None
  }

  /** The `can curtail` property. */
  function CurtailResult(wordlist: Wordlist, word: string): Option<string>
    requires wordlist.Valid()
  {
    var curtailed := Curtailed(word);
    if wordlist.IsWord(curtailed)
    then Some("can curtail " + word + " to get a word (" + curtailed + ")")
    else None
  }

  /** The `can reverse` property. */
  function ReverseResult(wordlist: Wordlist, word: string): Option<string>
    requires wordlist.Valid()
  {
    var reversed := Reverse(word);
    if wordlist.IsWord(reversed)
    then Some("can reverse " + word + " to get a word (" + reversed + ")")
    else None
  }

  /** Prepending and beheading undo each other: between two corpus words
      `w` and `L + w`, the first can get `L` prepended and the second can be
      beheaded; and `w` can get `L` prepended only when `L + w` is a word. */
  lemma PrependBeheadDual(wordlist: Wordlist, letter: char, word: string)
    requires wordlist.Valid()
    ensures PrependResult(wordlist, letter, word).Some? <==> [letter] + word in wordlist.words
    ensures PrependResult(wordlist, letter, word).Some? && word in wordlist.words ==>
      BeheadResult(wordlist, [letter] + word) ==
        Some("can behead " + ([letter] + word) + " to get a word (" + word + ")")
  {
    assert Beheaded([letter] + word) == word;
  }

  /** Appending and curtailing undo each other in the same way. */
  lemma AppendCurtailDual(wordlist: Wordlist, letter: char, word: string)
    requires wordlist.Valid()
    ensures AppendResult(wordlist, letter, word).Some? <==> word + [letter] in wordlist.words
    ensures AppendResult(wordlist, letter, word).Some? && word in wordlist.words ==>
      CurtailResult(wordlist, word + [letter]) ==
        Some("can curtail " + (word + [letter]) + " to get a word (" + word + ")")
  {
    assert Curtailed(word + [letter]) == word;
  }

  /** Reversal is an involution: a corpus word that can be reversed into a
      word reverses into a word that can be reversed back. */
  lemma ReverseDual(wordlist: Wordlist, word: string)
    requires wordlist.Valid()
    ensures ReverseResult(wordlist, word).Some? <==> Reverse(word) in wordlist.words
    ensures ReverseResult(wordlist, word).Some? && word in wordlist.words ==>
      ReverseResult(wordlist, Reverse(word)) ==
        Some("can reverse " + Reverse(word) + " to get a word (" + word + ")")
  {
    assert Reverse(Reverse(word)) == word;
  }

  // ----- insert, delete, change -----

  /** `${word.slice(0, i)}${letter}${word.slice(i)}`. */
  function Inserted(word: string, i: nat, letter: char): (r: string)
    requires i <= |word|
    ensures |r| == |word| + 1 && r[i] == letter
  {
    word[..i] + [letter] + word[i..]
  }

  /** `${word.slice(0, i)}${word.slice(i + 1)}`. */
  function Deleted(word: string, i: nat): (r: string)
    requires i < |word|
    ensures |r| == |word| - 1
  {
    word[..i] + word[i + 1..]
  }

  /** `${word.slice(0, i)}${letter}${word.slice(i + 1)}`. */
  function Changed(word: string, i: nat, letter: char): (r: string)
    requires i < |word|
    ensures |r| == |word| && r[i] == letter
  {
    word[..i] + [letter] + word[i + 1..]
  }

  /** Deleting the inserted letter gives the word back ... */
  lemma DeleteInserted(word: string, i: nat, letter: char)
    requires i <= |word|
    ensures Deleted(Inserted(word, i, letter), i) == word
  {
    var v := Inserted(word, i, letter);
    assert v[..i] == word[..i];
    assert v[i + 1..] == word[i..];
  }

  /** ... and changing a letter back does too. */
  lemma ChangeChanged(word: string, i: nat, letter: char)
    requires i < |word|
    ensures Changed(Changed(word, i, letter), i, word[i]) == word
  {
    var v := Changed(word, i, letter);
    assert v[..i] == word[..i];
    assert v[i + 1..] == word[i + 1..];
  }

  /** Candidate `i` of the `can insert L` loop. */
  function InsertTest(wordlist: Wordlist, letter: char, word: string): nat -> Option<string>
    requires wordlist.Valid()
  {
    (i: nat) =>
      if i <= |word| && wordlist.IsWord(Inserted(word, i, letter))
      then Some("can insert " + [letter] + " in " + word + " to get a word (" + Inserted(word, i, letter) + ")")
      else None
  }

  /** The `can insert L` property: the first position, from 0 to the length,
      where inserting the letter gives a word. */
  function InsertResult(wordlist: Wordlist, letter: char, word: string): Option<string>
    requires wordlist.Valid()
  {
    FirstHit(InsertTest(wordlist, letter, word), 0, |word| + 1)
  }

  /** The loop of the `can insert L` property. */
  method InsertProperty(wordlist: Wordlist, letter: char, word: string) returns (r: Option<string>)
    requires wordlist.Valid()
    ensures r == InsertResult(wordlist, letter, word)
  {
    ghost var test := InsertTest(wordlist, letter, word);
    for i := 0 to |word| + 1
      invariant FirstHit(test, 0, |word| + 1) == FirstHit(test, i, |word| + 1)
    {
      var inserted := word[..i] + [letter] + word[i..];
      if wordlist.IsWord(inserted) {
        return Some("can insert " + [letter] + " in " + word + " to get a word (" + inserted + ")");
      }
    }
    return None;
  }

  /** Candidate `i` of the `can delete L` loop: position `i` must hold the
      letter. */
  function DeleteTest(wordlist: Wordlist, letter: char, word: string): nat -> Option<string>
    requires wordlist.Valid()
  {
    (i: nat) =>
      if i < |word| && word[i] == letter && wordlist.IsWord(Deleted(word, i))
      then Some("can delete " + [letter] + " in " + word + " to get a word (" + Deleted(word, i) + ")")
      else None
  }

  /** The `can delete L` property. */
  function DeleteResult(wordlist: Wordlist, letter: char, word: string): Option<string>
    requires wordlist.Valid()
  {
    FirstHit(DeleteTest(wordlist, letter, word), 0, |word|)
  }

  /** The loop of the `can delete L` property. */
  method DeleteProperty(wordlist: Wordlist, letter: char, word: string) returns (r: Option<string>)
    requires wordlist.Valid()
    ensures r == DeleteResult(wordlist, letter, word)
  {
    ghost var test := DeleteTest(wordlist, letter, word);
    for i := 0 to |word|
      invariant FirstHit(test, 0, |word|) == FirstHit(test, i, |word|)
    {
      if word[i] != letter {
        continue;
      }
      var deleted := word[..i] + word[i + 1..];
      if wordlist.IsWord(deleted) {
        return Some("can delete " + [letter] + " in " + word + " to get a word (" + deleted + ")");
      }
    }
    return None;
  }

  /** Candidate `i` of the `can change to L` loop: position `i` must hold
      another letter. */
  function ChangeTest(wordlist: Wordlist, letter: char, word: string): nat -> Option<string>
    requires wordlist.Valid()
  {
    (i: nat) =>
      if i < |word| && word[i] != letter && wordlist.IsWord(Changed(word, i, letter))
      then Some("can change to " + [letter] + " in " + word + " to get a word (" + Changed(word, i, letter) + ")")
      else None
  }

  /** The `can change to L` property. */
  function ChangeResult(wordlist: Wordlist, letter: char, word: string): Option<string>
    requires wordlist.Valid()
  {
    FirstHit(ChangeTest(wordlist, letter, word), 0, |word|)
  }

  /** The loop of the `can change to L` property. */
  method ChangeProperty(wordlist: Wordlist, letter: char, word: string) returns (r: Option<string>)
    requires wordlist.Valid()
    ensures r == ChangeResult(wordlist, letter, word)
  {
    ghost var test := ChangeTest(wordlist, letter, word);
    for i := 0 to |word|
      invariant FirstHit(test, 0, |word|) == FirstHit(test, i, |word|)
    {
      if word[i] == letter {
        continue;
      }
      var changed := word[..i] + [letter] + word[i + 1..];
      if wordlist.IsWord(changed) {
        return Some("can change to " + [letter] + " in " + word + " to get a word (" + changed + ")");
      }
    }
    return None;
  }

  /** A word can have the letter inserted exactly when some insertion
      position gives a corpus word. */
  lemma InsertMeaning(wordlist: Wordlist, letter: char, word: string)
    requires wordlist.Valid()
    ensures InsertResult(wordlist, letter, word).Some? <==>
      exists i :: 0 <= i <= |word| && Inserted(word, i, letter) in wordlist.words
  {
    var test := InsertTest(wordlist, letter, word);
    FirstHitSpec(test, 0, |word| + 1);
    if exists i :: 0 <= i <= |word| && Inserted(word, i, letter) in wordlist.words {
      var i :| 0 <= i <= |word| && Inserted(word, i, letter) in wordlist.words;
      assert test(i).Some?;
    }
  }

  /** A word can have the letter deleted exactly when deleting it at one of
      its positions gives a corpus word. */
  lemma DeleteMeaning(wordlist: Wordlist, letter: char, word: string)
    requires wordlist.Valid()
    ensures DeleteResult(wordlist, letter, word).Some? <==>
      exists i :: 0 <= i < |word| && word[i] == letter && Deleted(word, i) in wordlist.words
  {
    var test := DeleteTest(wordlist, letter, word);
    FirstHitSpec(test, 0, |word|);
    if exists i :: 0 <= i < |word| && word[i] == letter && Deleted(word, i) in wordlist.words {
      var i :| 0 <= i < |word| && word[i] == letter && Deleted(word, i) in wordlist.words;
      assert test(i).Some?;
    }
  }

  /** A word can be changed to the letter exactly when replacing another
      letter by it at one position gives a corpus word. */
  lemma ChangeMeaning(wordlist: Wordlist, letter: char, word: string)
    requires wordlist.Valid()
    ensures ChangeResult(wordlist, letter, word).Some? <==>
      exists i :: 0 <= i < |word| && word[i] != letter && Changed(word, i, letter) in wordlist.words
  {
    var test := ChangeTest(wordlist, letter, word);
    FirstHitSpec(test, 0, |word|);
    if exists i :: 0 <= i < |word| && word[i] != letter && Changed(word, i, letter) in wordlist.words {
      var i :| 0 <= i < |word| && word[i] != letter && Changed(word, i, letter) in wordlist.words;
      assert test(i).Some?;
    }
  }

  /** Inserting and deleting undo each other: when a corpus word gets the
      letter inserted into another corpus word, that word can have the
      letter deleted. */
  lemma InsertDeleteDual(wordlist: Wordlist, letter: char, word: string, i: nat)
    requires wordlist.Valid() && word in wordlist.words
    requires i <= |word| && Inserted(word, i, letter) in wordlist.words
    ensures InsertResult(wordlist, letter, word).Some?
    ensures DeleteResult(wordlist, letter, Inserted(word, i, letter)).Some?
  {
    InsertMeaning(wordlist, letter, word);
    var v := Inserted(word, i, letter);
    DeleteInserted(word, i, letter);
    DeleteMeaning(wordlist, letter, v);
  }

  /** Changing is symmetric: when a corpus word changes to the letter at
      position `i` into another corpus word, that word changes back to the
      old letter. */
  lemma ChangeDual(wordlist: Wordlist, letter: char, word: string, i: nat)
    requires wordlist.Valid() && word in wordlist.words
    requires i < |word| && word[i] != letter && Changed(word, i, letter) in wordlist.words
    ensures ChangeResult(wordlist, letter, word).Some?
    ensures ChangeResult(wordlist, word[i], Changed(word, i, letter)).Some?
  {
    ChangeMeaning(wordlist, letter, word);
    var v := Changed(word, i, letter);
    ChangeChanged(word, i, letter);
    ChangeMeaning(wordlist, word[i], v);
  }

  // ----- anagram, transadd, transdelete -----

  /** The `is anagram` property: a corpus word with the same letters, if it
      is non-empty. */
  function AnagramResult(wordlist: Wordlist, word: Slug): Option<string>
    requires wordlist.Valid()
  {
    var anagrammed := wordlist.IsAnagram(word);
    if anagrammed.Some? && anagrammed.value != ""
    then Some(word + " has an anagram (" + anagrammed.value + ")")
    else None
  }

  /** Only the empty slug has code 0. */
  lemma {:induction false} CodeZero(s: Slug)
    ensures Code(s) == 0 <==> s == []
  {
  }

  /** Every non-empty corpus word has an anagram: the corpus word with its
      letters that comes last, possibly itself. */
  lemma AnagramOfCorpusWord(wordlist: Wordlist, word: Slug)
    requires wordlist.Valid() && word in wordlist.words && word != []
    ensures AnagramResult(wordlist, word).Some?
  {
    var i :| 0 <= i < |wordlist.words| && wordlist.words[i] == word;
    assert Codes(wordlist.words)[i] == Code(word);
    var a := wordlist.IsAnagram(word);
    CodeZero(word);
    CodeZero(a.value);
  }

  /** The feature's meaning: a word is reported exactly when it is non-empty
      and some corpus word has the same letter multiset (itself included), as
      long as no letter occurs more than 31 times. */
  lemma AnagramMeaning(wordlist: Wordlist, word: Slug)
    requires wordlist.Valid() && wordlist.WordsBounded(31) && Bounded(word, 31)
    ensures AnagramResult(wordlist, word).Some? <==>
      word != [] && exists i :: 0 <= i < |wordlist.words| && multiset(wordlist.words[i]) == multiset(word)
  {
    wordlist.IsAnagramMeaning(word);
    var a := wordlist.IsAnagram(word);
    CodeZero(word);
    if a.Some? {
      CodeZero(a.value);
    }
  }

  /** The `has transadd with L` property. */
  function TransaddResult(wordlist: Wordlist, letter: char, word: Slug): Option<string>
    requires wordlist.Valid() && IsLetter(letter)
  {
    CodeAppend(word, letter);
    var transadded := wordlist.IsAnagram(word + [letter]);
    if transadded.Some? && transadded.value != ""
    then Some(word + " has a transadd with " + [letter] + " (" + transadded.value + ")")
    else None
  }

  /** `word + letter` as a slug. */
  function AppendLetter(word: Slug, letter: char): (r: Slug)
    requires IsLetter(letter)
    ensures r == word + [letter]
  {
    CodeAppend(word, letter);
    word + [letter]
  }

  /** A word has a transadd with the letter exactly when some corpus word has
      its letters and one more of that letter (when no letter occurs more
      than 30 times in the word nor 31 times in a corpus word). */
  lemma TransaddMeaning(wordlist: Wordlist, letter: char, word: Slug)
    requires wordlist.Valid() && IsLetter(letter)
    requires wordlist.WordsBounded(31) && Bounded(word, 30)
    ensures TransaddResult(wordlist, letter, word).Some? <==>
      exists i :: 0 <= i < |wordlist.words| && multiset(wordlist.words[i]) == multiset(word) + multiset{letter}
  {
    var s := AppendLetter(word, letter);
    assert multiset(s) == multiset(word) + multiset{letter};
    assert Bounded(s, 31) by {
      forall c | IsLetter(c) ensures multiset(s)[c] <= 31 { }
    }
    wordlist.IsAnagramMeaning(s);
    var a := wordlist.IsAnagram(s);
    if a.Some? {
      assert multiset(a.value) == multiset(s);
      assert letter in multiset(a.value);
      assert a.value != "";
    }
  }

  /** Candidate `i` of the `has transdelete with L` loop. */
  function TransdeleteTest(wordlist: Wordlist, letter: char, word: Slug): nat -> Option<string>
    requires wordlist.Valid()
  {
    (i: nat) =>
      if i < |word| && word[i] == letter then
        var transdeleted := wordlist.IsAnagram(DeletedSlug(word, i));
        if transdeleted.Some? && transdeleted.value != ""
        then Some(word + " has a transdelete with " + [letter] + " (" + transdeleted.value + ")")
        else None
      else None
  }

  /** `Deleted` on a slug is a slug. */
  function DeletedSlug(word: Slug, i: nat): (r: Slug)
    requires i < |word|
    ensures r == Deleted(word, i)
  {
    var d := Deleted(word, i);
    assert IsSlug(d) by {
      forall k | 0 <= k < |d| ensures IsLetter(d[k]) {
        if k < i {
          assert d[k] == word[k];
        } else {
          assert d[k] == word[k + 1];
        }
      }
    }
    d
  }

  /** The `has transdelete with L` property. */
  function TransdeleteResult(wordlist: Wordlist, letter: char, word: Slug): Option<string>
    requires wordlist.Valid()
  {
    FirstHit(TransdeleteTest(wordlist, letter, word), 0, |word|)
  }

  /** The loop of the `has transdelete with L` property. */
  method TransdeleteProperty(wordlist: Wordlist, letter: char, word: Slug) returns (r: Option<string>)
    requires wordlist.Valid()
    ensures r == TransdeleteResult(wordlist, letter, word)
  {
    ghost var test := TransdeleteTest(wordlist, letter, word);
    for i := 0 to |word|
      invariant FirstHit(test, 0, |word|) == FirstHit(test, i, |word|)
    {
      if word[i] == letter {
        var transdeleted := wordlist.IsAnagram(DeletedSlug(word, i));
        if transdeleted.Some? && transdeleted.value != "" {
          return Some(word + " has a transdelete with " + [letter] + " (" + transdeleted.value + ")");
        }
      }
    }
    return None;
  }

  /** Deleting a letter at one of its positions removes one of it from the
      multiset. */
  lemma DeletedMultiset(word: string, i: nat)
    requires i < |word|
    ensures multiset(Deleted(word, i)) + multiset{word[i]} == multiset(word)
  {
    assert word == word[..i] + [word[i]] + word[i + 1..];
  }

  /** Some non-empty corpus word has the letters of `word` less one `letter`. */
  predicate HasTransdeleteWord(wordlist: Wordlist, letter: char, word: string) {
    exists k :: 0 <= k < |wordlist.words| && wordlist.words[k] != "" &&
      multiset(wordlist.words[k]) + multiset{letter} == multiset(word)
  }

  /** Deleting a letter keeps a multiset bound. */
  lemma DeletedBounded(word: Slug, p: nat)
    requires Bounded(word, 31) && p < |word|
    ensures Bounded(DeletedSlug(word, p), 31)
  {
    DeletedMultiset(word, p);
    var d := DeletedSlug(word, p);
    forall c | IsLetter(c) ensures multiset(d)[c] <= 31 {
      assert multiset(d)[c] <= multiset(word)[c];
    }
  }

  /** The letters of `word` less position `p` are exactly the multisets that
      give `word` back with `word[p]` added. */
  lemma DeletedIff(m: multiset<char>, word: string, p: nat)
    requires p < |word|
    ensures m == multiset(Deleted(word, p)) <==> m + multiset{word[p]} == multiset(word)
  {
    DeletedMultiset(word, p);
    if m + multiset{word[p]} == multiset(word) {
      MultisetCancel(m, multiset(Deleted(word, p)), word[p]);
    }
  }

  /** The anagram lookup of `word` less position `p` finds a corpus word
      exactly when one has the letters of `word` less that one. */
  lemma DeletedAnagram(wordlist: Wordlist, word: Slug, p: nat)
    requires wordlist.Valid() && wordlist.WordsBounded(31) && Bounded(word, 31) && p < |word|
    ensures var a := wordlist.IsAnagram(DeletedSlug(word, p));
      && (a.Some? <==> exists k :: 0 <= k < |wordlist.words| && multiset(wordlist.words[k]) + multiset{word[p]} == multiset(word))
      && (a.Some? ==> a.value in wordlist.words && multiset(a.value) + multiset{word[p]} == multiset(word))
  {
    var d := DeletedSlug(word, p);
    DeletedBounded(word, p);
    wordlist.IsAnagramMeaning(d);
    forall k | 0 <= k < |wordlist.words|
      ensures multiset(wordlist.words[k]) == multiset(d) <==> multiset(wordlist.words[k]) + multiset{word[p]} == multiset(word)
    {
      DeletedIff(multiset(wordlist.words[k]), word, p);
    }
    var a := wordlist.IsAnagram(d);
    if a.Some? {
      DeletedIff(multiset(a.value), word, p);
    }
  }

  /** When candidate `p` of the transdelete loop hits. */
  lemma TransdeleteTestIff(wordlist: Wordlist, letter: char, word: Slug, p: nat)
    requires wordlist.Valid()
    ensures TransdeleteTest(wordlist, letter, word)(p).Some? <==>
      && p < |word| && word[p] == letter
      && wordlist.IsAnagram(DeletedSlug(word, p)).Some?
      && wordlist.IsAnagram(DeletedSlug(word, p)).value != ""
  {
  }

  lemma TransdeleteSound(wordlist: Wordlist, letter: char, word: Slug)
    requires wordlist.Valid() && wordlist.WordsBounded(31) && Bounded(word, 31)
    requires TransdeleteResult(wordlist, letter, word).Some?
    ensures letter in word && HasTransdeleteWord(wordlist, letter, word)
  {
    var test := TransdeleteTest(wordlist, letter, word);
    FirstHitSpec(test, 0, |word|);
    var p :| 0 <= p < |word| && test(p).Some?;
    TransdeleteTestIff(wordlist, letter, word, p);
    DeletedAnagram(wordlist, word, p);
    var a := wordlist.IsAnagram(DeletedSlug(word, p));
    var k :| 0 <= k < |wordlist.words| && wordlist.words[k] == a.value;
    assert word[p] == letter;
    assert wordlist.words[k] != "" && multiset(wordlist.words[k]) + multiset{letter} == multiset(word);
  }

  lemma TransdeleteTestAt(wordlist: Wordlist, letter: char, word: Slug, p: nat)
    requires wordlist.Valid() && wordlist.WordsBounded(31) && Bounded(word, 31)
    requires p < |word| && word[p] == letter && HasTransdeleteWord(wordlist, letter, word)
    ensures TransdeleteTest(wordlist, letter, word)(p).Some?
  {
    var k :| 0 <= k < |wordlist.words| && wordlist.words[k] != "" &&
      multiset(wordlist.words[k]) + multiset{letter} == multiset(word);
    DeletedAnagram(wordlist, word, p);
    var a := wordlist.IsAnagram(DeletedSlug(word, p));
    assert a.Some?;
    MultisetCancel(multiset(a.value), multiset(wordlist.words[k]), letter);
    assert |a.value| == |wordlist.words[k]| by {
      assert |multiset(a.value)| == |a.value|;
      assert |multiset(wordlist.words[k])| == |wordlist.words[k]|;
    }
    TransdeleteTestIff(wordlist, letter, word, p);
  }

  lemma MultisetCancel(a: multiset<char>, b: multiset<char>, x: char)
    requires a + multiset{x} == b + multiset{x}
    ensures a == b
  {
    forall y ensures a[y] == b[y] {
      assert (a + multiset{x})[y] == (b + multiset{x})[y];
    }
  }

  lemma TransdeleteComplete(wordlist: Wordlist, letter: char, word: Slug)
    requires wordlist.Valid() && wordlist.WordsBounded(31) && Bounded(word, 31)
    requires letter in word && HasTransdeleteWord(wordlist, letter, word)
    ensures TransdeleteResult(wordlist, letter, word).Some?
  {
    var p :| 0 <= p < |word| && word[p] == letter;
    TransdeleteTestAt(wordlist, letter, word, p);
    FirstHitSpec(TransdeleteTest(wordlist, letter, word), 0, |word|);
  }

  /** A word has a transdelete with the letter exactly when the letter occurs
      in it and some non-empty corpus word has its letters less one of that
      letter (when no letter occurs 32 times or more). */
  lemma TransdeleteMeaning(wordlist: Wordlist, letter: char, word: Slug)
    requires wordlist.Valid() && IsLetter(letter)
    requires wordlist.WordsBounded(31) && Bounded(word, 31)
    ensures TransdeleteResult(wordlist, letter, word).Some? <==>
      letter in word && HasTransdeleteWord(wordlist, letter, word)
  {
    if TransdeleteResult(wordlist, letter, word).Some? {
      TransdeleteSound(wordlist, letter, word);
    }
    if letter in word && HasTransdeleteWord(wordlist, letter, word) {
      TransdeleteComplete(wordlist, letter, word);
    }
  }

  // ----- the features -----

  function Prepend(arith: Arith, wordlist: Wordlist, letter: char): (f: Feature)
    requires wordlist.Valid()
    ensures f.name == "can prepend " + [letter]
    ensures forall w: Slug :: f.property(w) == PrependResult(wordlist, letter, w)
  {
    BooleanFeature(arith, "can prepend " + [letter], (w: Slug) => PrependResult(wordlist, letter, w), wordlist)
  }

  function Append(arith: Arith, wordlist: Wordlist, letter: char): (f: Feature)
    requires wordlist.Valid()
    ensures f.name == "can append " + [letter]
    ensures forall w: Slug :: f.property(w) == AppendResult(wordlist, letter, w)
  {
    BooleanFeature(arith, "can append " + [letter], (w: Slug) => AppendResult(wordlist, letter, w), wordlist)
  }

  function InsertWith(arith: Arith, wordlist: Wordlist, letter: char): (f: Feature)
    requires wordlist.Valid()
    ensures f.name == "can insert " + [letter]
    ensures forall w: Slug :: f.property(w) == InsertResult(wordlist, letter, w)
  {
    BooleanFeature(arith, "can insert " + [letter], (w: Slug) => InsertResult(wordlist, letter, w), wordlist)
  }

  function Behead(arith: Arith, wordlist: Wordlist): (f: Feature)
    requires wordlist.Valid()
    ensures f.name == "can behead"
    ensures forall w: Slug :: f.property(w) == BeheadResult(wordlist, w)
  {
    BooleanFeature(arith, "can behead", (w: Slug) => BeheadResult(wordlist, w), wordlist)
  }

  function Curtail(arith: Arith, wordlist: Wordlist): (f: Feature)
    requires wordlist.Valid()
    ensures f.name == "can curtail"
    ensures forall w: Slug :: f.property(w) == CurtailResult(wordlist, w)
  {
    BooleanFeature(arith, "can curtail", (w: Slug) => CurtailResult(wordlist, w), wordlist)
  }

  function DeleteWith(arith: Arith, wordlist: Wordlist, letter: char): (f: Feature)
    requires wordlist.Valid()
    ensures f.name == "can delete " + [letter]
    ensures forall w: Slug :: f.property(w) == DeleteResult(wordlist, letter, w)
  {
    BooleanFeature(arith, "can delete " + [letter], (w: Slug) => DeleteResult(wordlist, letter, w), wordlist)
  }

  function Change(arith: Arith, wordlist: Wordlist, letter: char): (f: Feature)
    requires wordlist.Valid()
    ensures f.name == "can change to " + [letter]
    ensures forall w: Slug :: f.property(w) == ChangeResult(wordlist, letter, w)
  {
    BooleanFeature(arith, "can change to " + [letter], (w: Slug) => ChangeResult(wordlist, letter, w), wordlist)
  }

  function ReverseFeature(arith: Arith, wordlist: Wordlist): (f: Feature)
    requires wordlist.Valid()
    ensures f.name == "can reverse"
    ensures forall w: Slug :: f.property(w) == ReverseResult(wordlist, w)
  {
    BooleanFeature(arith, "can reverse", (w: Slug) => ReverseResult(wordlist, w), wordlist)
  }

  function Anagram(arith: Arith, wordlist: Wordlist): (f: Feature)
    requires wordlist.Valid()
    ensures f.name == "is anagram"
    ensures forall w: Slug :: f.property(w) == AnagramResult(wordlist, w)
  {
    BooleanFeature(arith, "is anagram", (w: Slug) => AnagramResult(wordlist, w), wordlist)
  }

  function TransaddWith(arith: Arith, wordlist: Wordlist, letter: char): (f: Feature)
    requires wordlist.Valid() && IsLetter(letter)
    ensures f.name == "has transadd with " + [letter]
    ensures forall w: Slug :: f.property(w) == TransaddResult(wordlist, letter, w)
  {
    BooleanFeature(arith, "has transadd with " + [letter], (w: Slug) => TransaddResult(wordlist, letter, w), wordlist)
  }

  function TransdeleteWith(arith: Arith, wordlist: Wordlist, letter: char): (f: Feature)
    requires wordlist.Valid()
    ensures f.name == "has transdelete with " + [letter]
    ensures forall w: Slug :: f.property(w) == TransdeleteResult(wordlist, letter, w)
  {
    BooleanFeature(arith, "has transdelete with " + [letter], (w: Slug) => TransdeleteResult(wordlist, letter, w), wordlist)
  }

  /** The combined property of `withEveryLetter`: the first truthy result
      among the features, else null. */
  function FirstTruthy(features: seq<Feature>, word: Slug): Option<string> {
    if features == [] then None
    else
      var property := features[0].property(word);
      if Truthy(property) then property else FirstTruthy(features[1..], word)
  }

  /** The combined result is the first of the hits the any-of linker lists. */
  lemma {:induction false} FirstTruthyIsFirstHit(features: seq<Feature>, word: Slug)
    ensures FirstTruthy(features, word) ==
      if HitsOf(features, word) == [] then None else Some(HitsOf(features, word)[0])
  {
    if features != [] {
      FirstTruthyIsFirstHit(features[1..], word);
    }
  }

  /** The loop of the combined property. */
  method CombinedProperty(features: seq<Feature>, word: Slug) returns (r: Option<string>)
    ensures r == FirstTruthy(features, word)
  {
    for i := 0 to |features|
      invariant FirstTruthy(features, word) == FirstTruthy(features[i..], word)
    {
      assert features[i..][1..] == features[i + 1..];
      var property := features[i].property(word);
      if Truthy(property) {
        return property;
      }
    }
    return None;
  }

  /** `withEveryLetter(name, feature, wordlist)`: the feature for each letter
      in alphabetical order, then the combined feature, whose baseline is the
      sum of theirs. */
  function WithEveryLetter(arith: Arith, name: string, feature: char --> Feature): (r: seq<Feature>)
    requires forall c :: IsLetter(c) ==> feature.requires(c)
    ensures forall i :: 0 <= i < 26 ==> IsLetter(LETTERS[i])
    ensures |r| == 27
    ensures forall i :: 0 <= i < 26 ==> r[i] == feature(LETTERS[i])
    ensures r[26].name == name
  {
    assert forall i :: 0 <= i < 26 ==> IsLetter(LETTERS[i]) by {
      forall i | 0 <= i < 26 ensures IsLetter(LETTERS[i]) {
        LettersAt(i);
      }
    }
    var features := seq(26, i requires 0 <= i < 26 => feature(LETTERS[i]));
    var logProbs := seq(26, i requires 0 <= i < 26 => feature(LETTERS[i]).logProb);
    var combined := Feature(name, arith.sum(logProbs), (w: Slug) => FirstTruthy(features, w));
    var r := features + [combined];
    assert r[..26] == features;
    r
  }

  /** The combined feature takes the sum of the letter features' baselines,
      and reports the first truthy result among them. */
  lemma WithEveryLetterCombined(arith: Arith, name: string, feature: char --> Feature, w: Slug)
    requires forall c :: IsLetter(c) ==> feature.requires(c)
    ensures var r := WithEveryLetter(arith, name, feature);
      && r[26].logProb == arith.sum(seq(26, i requires 0 <= i < 26 => r[i].logProb))
      && r[26].property(w) == FirstTruthy(r[..26], w)
  {
    var r := WithEveryLetter(arith, name, feature);
    assert r[..26] == seq(26, i requires 0 <= i < 26 => feature(LETTERS[i]));
    assert seq(26, i requires 0 <= i < 26 => r[i].logProb) == seq(26, i requires 0 <= i < 26 => feature(LETTERS[i]).logProb);
  }

  /** The families of `wordplayFeatures`, one `withEveryLetter` each. */
  function PrependFamily(arith: Arith, wordlist: Wordlist): seq<Feature>
    requires wordlist.Valid()
  {
    WithEveryLetter(arith, "can prepend letter", (l: char) => Prepend(arith, wordlist, l))
  }

  function AppendFamily(arith: Arith, wordlist: Wordlist): seq<Feature>
    requires wordlist.Valid()
  {
    WithEveryLetter(arith, "can append letter", (l: char) => Append(arith, wordlist, l))
  }

  function InsertFamily(arith: Arith, wordlist: Wordlist): seq<Feature>
    requires wordlist.Valid()
  {
    WithEveryLetter(arith, "can insert letter", (l: char) => InsertWith(arith, wordlist, l))
  }

  function DeleteFamily(arith: Arith, wordlist: Wordlist): seq<Feature>
    requires wordlist.Valid()
  {
    WithEveryLetter(arith, "can delete letter", (l: char) => DeleteWith(arith, wordlist, l))
  }

  function ChangeFamily(arith: Arith, wordlist: Wordlist): seq<Feature>
    requires wordlist.Valid()
  {
    WithEveryLetter(arith, "can change letter", (l: char) => Change(arith, wordlist, l))
  }

  function TransaddFamily(arith: Arith, wordlist: Wordlist): seq<Feature>
    requires wordlist.Valid()
  {
    WithEveryLetter(arith, "has transadd", (l: char) requires IsLetter(l) => TransaddWith(arith, wordlist, l))
  }

  function TransdeleteFamily(arith: Arith, wordlist: Wordlist): seq<Feature>
    requires wordlist.Valid()
  {
    WithEveryLetter(arith, "has transdelete", (l: char) => TransdeleteWith(arith, wordlist, l))
  }

  /** The order `wordplayFeatures` lists the families and single features
      in. */
  function Assemble(prepend: seq<Feature>, append: seq<Feature>, insert: seq<Feature>,
                    behead: Feature, curtail: Feature, delete: seq<Feature>, change: seq<Feature>,
                    reverse: Feature, anagram: Feature, transadd: seq<Feature>, transdelete: seq<Feature>): seq<Feature>
  {
    prepend + append + insert + [behead, curtail] + delete + change + [reverse, anagram] + transadd + transdelete
  }

  /** Where each part lands when every family has 27 features. */
  lemma AssembleAt(prepend: seq<Feature>, append: seq<Feature>, insert: seq<Feature>,
                   behead: Feature, curtail: Feature, delete: seq<Feature>, change: seq<Feature>,
                   reverse: Feature, anagram: Feature, transadd: seq<Feature>, transdelete: seq<Feature>, i: nat)
    requires |prepend| == |append| == |insert| == |delete| == |change| == |transadd| == |transdelete| == 27
    requires i < 27
    ensures var r := Assemble(prepend, append, insert, behead, curtail, delete, change, reverse, anagram, transadd, transdelete);
      && |r| == 193
      && r[i] == prepend[i] && r[27 + i] == append[i] && r[54 + i] == insert[i]
      && r[81] == behead && r[82] == curtail
      && r[83 + i] == delete[i] && r[110 + i] == change[i]
      && r[137] == reverse && r[138] == anagram
      && r[139 + i] == transadd[i] && r[166 + i] == transdelete[i]
  {
  }

  /** `wordplayFeatures(wordlist)`. */
  function WordplayFeatures(arith: Arith, wordlist: Wordlist): (r: seq<Feature>)
    requires wordlist.Valid()
    ensures |r| == 193
  {
    Assemble(PrependFamily(arith, wordlist), AppendFamily(arith, wordlist), InsertFamily(arith, wordlist),
             Behead(arith, wordlist), Curtail(arith, wordlist),
             DeleteFamily(arith, wordlist), ChangeFamily(arith, wordlist),
             ReverseFeature(arith, wordlist), Anagram(arith, wordlist),
             TransaddFamily(arith, wordlist), TransdeleteFamily(arith, wordlist))
  }

  /** The order of `wordplayFeatures`: each letter family letter by letter
      followed by its combined feature, with behead and curtail after the
      insertions and reverse and anagram after the changes. */
  lemma WordplayFeaturesShape(arith: Arith, wordlist: Wordlist, i: nat)
    requires wordlist.Valid() && i < 26
    ensures var r := WordplayFeatures(arith, wordlist);
      && r[i].name == "can prepend " + [LETTERS[i]] && r[26].name == "can prepend letter"
      && r[27 + i].name == "can append " + [LETTERS[i]] && r[53].name == "can append letter"
      && r[54 + i].name == "can insert " + [LETTERS[i]] && r[80].name == "can insert letter"
      && r[81].name == "can behead" && r[82].name == "can curtail"
      && r[83 + i].name == "can delete " + [LETTERS[i]] && r[109].name == "can delete letter"
      && r[110 + i].name == "can change to " + [LETTERS[i]] && r[136].name == "can change letter"
      && r[137].name == "can reverse" && r[138].name == "is anagram"
      && r[139 + i].name == "has transadd with " + [LETTERS[i]] && r[165].name == "has transadd"
      && r[166 + i].name == "has transdelete with " + [LETTERS[i]] && r[192].name == "has transdelete"
  {
    var p, a, ins := PrependFamily(arith, wordlist), AppendFamily(arith, wordlist), InsertFamily(arith, wordlist);
    var bh, ct := Behead(arith, wordlist), Curtail(arith, wordlist);
    var d, ch := DeleteFamily(arith, wordlist), ChangeFamily(arith, wordlist);
    var rv, an := ReverseFeature(arith, wordlist), Anagram(arith, wordlist);
    var ta, td := TransaddFamily(arith, wordlist), TransdeleteFamily(arith, wordlist);
    AssembleAt(p, a, ins, bh, ct, d, ch, rv, an, ta, td, i);
    AssembleAt(p, a, ins, bh, ct, d, ch, rv, an, ta, td, 26);
  }
}
