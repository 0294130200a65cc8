/** src/linker.ts: the shapes every linker produces. */
module Linkers {
  import opened Prelude
  import opened LetterBitsets
  import opened LogNums

  /** A relationship among a set of words, with its strength; `name`, when
      present, overrides the linker's name. */
  datatype Link = Link(name: Option<string>, logProb: LogNum, description: seq<string>)

  /** A named function from a list of words to links.  The optional
      `ordered` flag of `eval` is not read by any modelled linker. */
  datatype Linker = Linker(name: string, eval: seq<Slug> -> seq<Link>)

  /** The link name `"{name} ({k} / {n})"`. */
  function CountedName(name: string, k: nat, n: nat): string {
    name + " (" + NatToString(k) + " / " + NatToString(n) + ")"
  }

  /** The counts can be read back from a counted name: different counts give
      different names. */
  lemma CountedNameInjective(name: string, k: nat, n: nat, k': nat, n': nat)
    requires CountedName(name, k, n) == CountedName(name, k', n')
    ensures k == k' && n == n'
  {
    var a, b := NatToString(k), NatToString(k');
    var c, d := NatToString(n), NatToString(n');
    var prefix := name + " (";
    var x, y := " / " + (c + ")"), " / " + (d + ")");
    CountedNameSplit(name, a, c);
    CountedNameSplit(name, b, d);
    DropPrefix(prefix, a + x);
    DropPrefix(prefix, b + y);
    // `a` and `b` are digit runs followed by a space, so they are equal.
    DigitRunPrefix(a + x, a, b, x, y);
    NatToStringInjective(k, k');
    DropPrefix(" / ", c + ")");
    DropPrefix(" / ", d + ")");
    assert c == (c + ")")[..|c|];
    assert d == (d + ")")[..|d|];
    NatToStringInjective(n, n');
  }

  /** The counted name, regrouped after its opening. */
  lemma CountedNameSplit(name: string, a: string, c: string)
    ensures name + " (" + a + " / " + c + ")" == (name + " (") + (a + (" / " + (c + ")")))
  {
  }

  lemma DropPrefix(p: string, t: string)
    ensures (p + t)[|p|..] == t
  {
  }

  /** Two digit runs that are each followed by a non-digit in the same string
      are equal. */
  lemma DigitRunPrefix(s: string, a: string, b: string, x: string, y: string)
    requires forall i :: 0 <= i < |a| ==> '0' <= a[i] <= '9'
    requires forall i :: 0 <= i < |b| ==> '0' <= b[i] <= '9'
    requires |x| >= 1 && !('0' <= x[0] <= '9') && |y| >= 1 && !('0' <= y[0] <= '9')
    requires s == a + x && s == b + y
    ensures a == b && x == y
  {
    LeadingDigitsOf(a, x);
    LeadingDigitsOf(b, y);
    assert a == s[..|a|] && b == s[..|b|];
  }

  /** The length of the run of decimal digits that `s` starts with. */
  function LeadingDigits(s: string): nat {
    if s == [] || !('0' <= s[0] <= '9') then 0 else 1 + LeadingDigits(s[1..])
  }

  lemma {:induction false} LeadingDigitsOf(a: string, x: string)
    requires forall i :: 0 <= i < |a| ==> '0' <= a[i] <= '9'
    requires |x| >= 1 && !('0' <= x[0] <= '9')
    ensures LeadingDigits(a + x) == |a|
  {
    if a != [] {
      assert (a + x)[1..] == a[1..] + x;
      LeadingDigitsOf(a[1..], x);
    }
  }
}
