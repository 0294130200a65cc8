/** src/lib/util.ts: capitalising a slug at positions, printing an index
    annotation, integer intervals and the cartesian product. */
module Util {
  import opened Prelude

  /** `String.prototype.toUpperCase` on one character, for the ASCII range
      only: the lower-case letters `a`-`z` become `A`-`Z` and every other
      character is returned unchanged.  JavaScript also maps non-ASCII letters
      (`é` to `É`, `ß` to `SS`); slugs never contain them. */
  function Upper(c: char): (u: char)
    ensures 'a' <= c <= 'z' ==> 'A' <= u <= 'Z' && u as int == c as int - 32
    ensures !('a' <= c <= 'z') ==> u == c
  {
    if 'a' <= c <= 'z' then (c as int - 32) as char else c
  }

  /** What `capitalizeAt(slug, indices)` returns: every position listed in
      `indices` upper-cased, all others as they are. */
  function Capitalized(slug: string, indices: seq<int>): (r: string)
    ensures |r| == |slug|
    ensures forall i :: 0 <= i < |slug| && i in indices ==> r[i] == Upper(slug[i])
    ensures forall i :: 0 <= i < |slug| && i !in indices ==> r[i] == slug[i]
  {
    seq(|slug|, i requires 0 <= i < |slug| => if i in indices then Upper(slug[i]) else slug[i])
  }

  /** `capitalizeAt`: pushes one character per position of the slug. */
  method CapitalizeAt(slug: string, indices: seq<int>) returns (r: string)
    ensures r == Capitalized(slug, indices)
  {
    var capitalized: seq<char> := [];
    for i := 0 to |slug|
      invariant capitalized == Capitalized(slug[..i], indices)
    {
      capitalized := capitalized + [if i in indices then Upper(slug[i]) else slug[i]];
    }
    assert slug[..|slug|] == slug;
    r := capitalized;
  }

  /** Only the in-range positions matter: two index lists that agree on them
      capitalise alike, whatever their order, repetitions or out-of-range
      entries. */
  lemma {:induction false} CapitalizedInRangeOnly(slug: string, a: seq<int>, b: seq<int>)
    requires forall i :: 0 <= i < |slug| ==> (i in a <==> i in b)
    ensures Capitalized(slug, a) == Capitalized(slug, b)
  {
  }

  /** Strictly increasing, hence without repetitions. */
  predicate Increasing(s: seq<int>) {
    forall i, j :: 0 <= i < j < |s| ==> s[i] < s[j]
  }

  /** Inserts `x` into the increasing sequence `s`, unless it is already there. */
  function InsertSorted(s: seq<int>, x: int): (r: seq<int>)
    requires Increasing(s)
    ensures Increasing(r)
    ensures forall y :: y in r <==> y in s || y == x
  {
    if s == [] then [x]
    else if x < s[0] then [x] + s
    else if x == s[0] then s
    else
      var t := InsertSorted(s[1..], x);
      assert forall y :: y in s <==> y == s[0] || y in s[1..];
      assert forall k :: 0 <= k < |t| ==> s[0] < t[k] by {
        forall k | 0 <= k < |t| ensures s[0] < t[k] {
          assert t[k] in t;
          if t[k] != x {
            var m :| 0 <= m < |s[1..]| && s[1..][m] == t[k];
            assert s[0] < s[m + 1];
          }
        }
      }
      [s[0]] + t
  }

  /** `Array.from(new Set(indices)).sort((a, b) => a - b)`. */
  function SortedSet(s: seq<int>): (r: seq<int>)
    ensures Increasing(r)
    ensures forall y :: y in r <==> y in s
  {
    if s == [] then []
    else
      var r := InsertSorted(SortedSet(s[..|s| - 1]), s[|s| - 1]);
      assert forall y :: y in s <==> y in s[..|s| - 1] || y == s[|s| - 1] by {
        assert s == s[..|s| - 1] + [s[|s| - 1]];
      }
      r
  }

  /** An increasing sequence is determined by its elements, so the contract of
      `SortedSet` pins the result down completely. */
  lemma {:induction false} IncreasingUnique(a: seq<int>, b: seq<int>)
    requires Increasing(a) && Increasing(b)
    requires forall y :: y in a <==> y in b
    ensures a == b
    decreases |a|
  {
    if a != [] {
      assert a[0] in a;
      assert a[0] in b;
    }
    if b != [] {
      assert b[0] in b;
      assert b[0] in a;
    }
    if a != [] && b != [] {
      assert a[0] in b && b[0] in a;
      var ka :| 0 <= ka < |b| && b[ka] == a[0];
      var kb :| 0 <= kb < |a| && a[kb] == b[0];
      assert b[0] <= a[0] && a[0] <= b[0];
      assert a == [a[0]] + a[1..] && b == [b[0]] + b[1..];
      forall y ensures y in a[1..] <==> y in b[1..] {
        if y in a[1..] {
          var k :| 0 <= k < |a[1..]| && a[1..][k] == y;
          assert a[0] < a[k + 1];
          assert y in b && y != b[0];
          assert y in b[1..];
        }
        if y in b[1..] {
          var k :| 0 <= k < |b[1..]| && b[1..][k] == y;
          assert b[0] < b[k + 1];
          assert y in a && y != a[0];
          assert y in a[1..];
        }
      }
      IncreasingUnique(a[1..], b[1..]);
      assert a == [a[0]] + a[1..] && b == [b[0]] + b[1..];
    }
  }

  /** `Math.min(...s)` and `Math.max(...s)` of a non-empty list. */
  function Min(s: seq<int>): (m: int)
    requires |s| >= 1
    ensures m in s && forall i :: 0 <= i < |s| ==> m <= s[i]
  {
    if |s| == 1 then s[0] else var m := Min(s[1..]); if s[0] <= m then s[0] else m
  }

  function Max(s: seq<int>): (m: int)
    requires |s| >= 1
    ensures m in s && forall i :: 0 <= i < |s| ==> s[i] <= m
  {
    if |s| == 1 then s[0] else var m := Max(s[1..]); if s[0] >= m then s[0] else m
  }

  /** More than two distinct indices whose span equals their count. */
  predicate IsInterval(s: seq<int>)
    requires Increasing(s)
  {
    |s| > 2 && Max(s) - Min(s) == |s| - 1
  }

  /** The part of the annotation between `index(slug, ` and `)`. */
  function IndexString(s: seq<int>): string
    requires Increasing(s)
  {
    if IsInterval(s) then IntToString(Min(s)) + ".." + IntToString(Max(s))
    else
      var shown := s[..if |s| < 5 then |s| else 5];
      Join(seq(|shown|, k requires 0 <= k < |shown| => IntToString(shown[k])), ", ")
        + (if |s| > 5 then ", ..." else "")
  }

  /** `printIndexSlug(slug, indices)`: the annotation opens with
      `index(slug, ` and ends with `capitalizeAt` on the indices as given, so
      sorting and de-duplicating them changes only the listed part. */
  function PrintIndexSlug(slug: string, indices: seq<int>): (r: string)
    ensures |r| >= 12 + 2 * |slug|
    ensures r[..8 + |slug|] == "index(" + slug + ", "
    ensures r[|r| - |slug|..] == Capitalized(slug, indices)
  {
    var s := SortedSet(indices);
    CapitalizedInRangeOnly(slug, s, indices);
    "index(" + slug + ", " + IndexString(s) + ") = " + Capitalized(slug, s)
  }

  /** The annotation depends only on the set of indices: their order and
      repetitions do not show. */
  lemma PrintIndexSlugSetOnly(slug: string, a: seq<int>, b: seq<int>)
    requires forall y :: y in a <==> y in b
    ensures PrintIndexSlug(slug, a) == PrintIndexSlug(slug, b)
  {
    IncreasingUnique(SortedSet(a), SortedSet(b));
  }

  /** The increasing sequence `lo, lo + 1, ..., hi`. */
  predicate Contiguous(s: seq<int>) {
    forall i :: 0 < i < |s| ==> s[i] == s[i - 1] + 1
  }

  lemma {:induction false} ContiguousSpan(s: seq<int>)
    requires |s| >= 1 && Contiguous(s)
    ensures forall i :: 0 <= i < |s| ==> s[i] == s[0] + i
  {
    var k := 1;
    while k < |s|
      invariant 1 <= k <= |s|
      invariant forall i :: 0 <= i < k ==> s[i] == s[0] + i
    {
      assert s[k] == s[k - 1] + 1;
      k := k + 1;
    }
  }

  /** The first and last elements of an increasing sequence are its minimum
      and maximum. */
  lemma MinMaxOfIncreasing(s: seq<int>)
    requires Increasing(s) && |s| >= 1
    ensures Min(s) == s[0] && Max(s) == s[|s| - 1]
  {
  }

  /** The range form is printed exactly when there are more than two indices
      and they form one contiguous run: two adjacent indices are listed. */
  lemma {:induction false} IntervalIffContiguous(s: seq<int>)
    requires Increasing(s)
    ensures IsInterval(s) <==> |s| > 2 && Contiguous(s)
  {
    if |s| > 2 {
      MinMaxOfIncreasing(s);
      if Max(s) - Min(s) == |s| - 1 {
        // The steps between neighbours are each at least 1 and add up to |s| - 1.
        var k := 1;
        while k < |s|
          invariant 1 <= k <= |s|
          invariant forall i :: 0 <= i < k ==> s[i] == s[0] + i
        {
          assert s[k] >= s[k - 1] + 1;
          if s[k] > s[k - 1] + 1 {
            GapsAtLeast(s, k);
            assert false;
          }
          k := k + 1;
        }
      } else {
        if Contiguous(s) {
          ContiguousSpan(s);
        }
      }
    }
  }

  /** In an increasing sequence the value at `j >= i` is at least `s[i] + (j - i)`. */
  lemma {:induction false} IncreasingSpread(s: seq<int>, i: int, j: int)
    requires Increasing(s) && 0 <= i <= j < |s|
    ensures s[j] >= s[i] + (j - i)
    decreases j - i
  {
    if i < j {
      IncreasingSpread(s, i + 1, j);
    }
  }

  lemma {:induction false} GapsAtLeast(s: seq<int>, k: int)
    requires Increasing(s) && 1 <= k < |s|
    requires s[k] > s[k - 1] + 1 && s[k - 1] == s[0] + (k - 1)
    ensures s[|s| - 1] - s[0] > |s| - 1
  {
    IncreasingSpread(s, k, |s| - 1);
  }

  /** With no indices at all the annotation is `index(slug, ) = slug`. */
  lemma PrintIndexSlugEmpty(slug: string)
    ensures PrintIndexSlug(slug, []) == "index(" + slug + ", ) = " + slug
  {
    assert SortedSet([]) == [];
    assert IndexString([]) == "";
    assert Capitalized(slug, []) == slug;
  }

  /** The listed form shows the first five sorted indices, and appends `, ...`
      exactly when more are hidden. */
  lemma ListedForm(s: seq<int>)
    requires Increasing(s) && !IsInterval(s)
    ensures |s| > 5 <==> |IndexString(s)| >= 5 && IndexString(s)[|IndexString(s)| - 5..] == ", ..."
  {
    var shown := s[..if |s| < 5 then |s| else 5];
    var parts := seq(|shown|, k requires 0 <= k < |shown| => IntToString(shown[k]));
    JoinEnd(parts, ", ");
  }

  /** A join of non-empty strings that each end in a digit ends in a digit. */
  lemma {:induction false} JoinEnd(parts: seq<string>, sep: string)
    requires forall k :: 0 <= k < |parts| ==> |parts[k]| >= 1 && '0' <= parts[k][|parts[k]| - 1] <= '9'
    ensures var j := Join(parts, sep); parts != [] ==> |j| >= 1 && '0' <= j[|j| - 1] <= '9'
  {
    if |parts| > 1 {
      JoinEnd(parts[1..], sep);
    }
  }

  /** `interval(start, end)`: the integers from `start` to `end` inclusive,
      empty when `end < start` (a negative array length is clamped to 0). */
  function Interval(start: int, end: int): (r: seq<int>)
    ensures |r| == if end - start + 1 < 0 then 0 else end - start + 1
    ensures forall i :: 0 <= i < |r| ==> r[i] == start + i
  {
    var n := if end - start + 1 < 0 then 0 else end - start + 1;
    seq(n, i requires 0 <= i < n => start + i)
  }

  /** The interval holds exactly the integers between its ends, once each and
      in increasing order. */
  lemma IntervalMembers(start: int, end: int)
    ensures Increasing(Interval(start, end))
    ensures forall x :: x in Interval(start, end) <==> start <= x <= end
  {
    var r := Interval(start, end);
    forall x | start <= x <= end ensures x in r {
      assert r[x - start] == x;
    }
  }

  /** The product of the argument lengths. */
  function ProductSize<T>(args: seq<seq<T>>): nat {
    if args == [] then 1 else |args[0]| * ProductSize(args[1..])
  }

  /** Every tuple of `rest` prefixed with each element of `first` in turn. */
  function Extend<T>(first: seq<T>, rest: seq<seq<T>>): seq<seq<T>> {
    if first == [] then []
    else seq(|rest|, j requires 0 <= j < |rest| => [first[0]] + rest[j]) + Extend(first[1..], rest)
  }

  /** `product(...args)`: the cartesian product, the first argument varying
      slowest.  With no arguments the source throws, hence the precondition.
      There are as many tuples as the product of the argument lengths. */
  function Product<T>(args: seq<seq<T>>): (r: seq<seq<T>>)
    requires |args| >= 1
    ensures |r| == ProductSize(args)
    decreases |args|
  {
    if |args| == 1 then
      assert args[1..] == [];
      seq(|args[0]|, i requires 0 <= i < |args[0]| => [args[0][i]])
    else
      ExtendSize(args[0], Product(args[1..]));
      Extend(args[0], Product(args[1..]))
  }

  lemma {:induction false} ExtendSize<T>(first: seq<T>, rest: seq<seq<T>>)
    ensures |Extend(first, rest)| == |first| * |rest|
  {
    if first != [] {
      ExtendSize(first[1..], rest);
      assert |first| * |rest| == |rest| + (|first| - 1) * |rest|;
    }
  }

  lemma {:induction false} ExtendIndex<T>(first: seq<T>, rest: seq<seq<T>>, i: nat, j: nat)
    requires i < |first| && j < |rest|
    ensures |Extend(first, rest)| == |first| * |rest|
    ensures i * |rest| + j < |first| * |rest|
    ensures Extend(first, rest)[i * |rest| + j] == [first[i]] + rest[j]
  {
    ExtendSize(first, rest);
    BlockBound(i, j, |first|, |rest|);
    if i > 0 {
      ExtendIndex(first[1..], rest, i - 1, j);
      BlockShift(i, j, |rest|);
    }
  }

  lemma BlockBound(i: nat, j: nat, m: nat, n: nat)
    requires i < m && j < n
    ensures i * n + j < m * n
  {
    assert i * n <= (m - 1) * n;
    assert (m - 1) * n + n == m * n;
  }

  lemma BlockShift(i: nat, j: nat, n: nat)
    requires i > 0
    ensures i * n + j == n + ((i - 1) * n + j)
  {
  }

  lemma {:induction false} ExtendMembers<T>(first: seq<T>, rest: seq<seq<T>>, t: seq<T>)
    ensures t in Extend(first, rest) <==> |t| >= 1 && t[0] in first && t[1..] in rest
  {
    if first != [] {
      ExtendMembers(first[1..], rest, t);
      var block := seq(|rest|, j requires 0 <= j < |rest| => [first[0]] + rest[j]);
      assert t in Extend(first, rest) <==> t in block || t in Extend(first[1..], rest);
      if t in block {
        var j :| 0 <= j < |rest| && block[j] == t;
        assert t[1..] == rest[j];
      }
      if |t| >= 1 && t[0] == first[0] && t[1..] in rest {
        var j :| 0 <= j < |rest| && rest[j] == t[1..];
        assert block[j] == t;
      }
      if |t| >= 1 {
        assert t[0] in first <==> t[0] == first[0] || t[0] in first[1..] by {
          assert first == [first[0]] + first[1..];
        }
      }
    }
  }

  /** A tuple is in the product exactly when it picks one element from each
      argument, in order. */
  lemma {:induction false} ProductMembers<T>(args: seq<seq<T>>, t: seq<T>)
    requires |args| >= 1
    ensures t in Product(args) <==> |t| == |args| && forall k :: 0 <= k < |t| ==> t[k] in args[k]
    decreases |args|
  {
    if |args| == 1 {
      var p := Product(args);
      if t in p {
        var i :| 0 <= i < |p| && p[i] == t;
      }
      if |t| == 1 && t[0] in args[0] {
        var i :| 0 <= i < |args[0]| && args[0][i] == t[0];
        assert p[i] == t;
      }
    } else {
      ExtendMembers(args[0], Product(args[1..]), t);
      if |t| >= 1 {
        ProductMembers(args[1..], t[1..]);
      }
      if |t| == |args| {
        assert (forall k :: 0 <= k < |t| ==> t[k] in args[k]) <==>
          t[0] in args[0] && forall k :: 0 <= k < |t[1..]| ==> t[1..][k] in args[1..][k] by {
          forall k | 1 <= k < |t| ensures t[k] == t[1..][k - 1] && args[k] == args[1..][k - 1] { }
        }
      }
    }
  }

  /** The first argument varies slowest: tuple number `i * |P| + j`, where `P`
      is the product of the other arguments, is `args[0][i]` followed by
      `P[j]`. */
  lemma ProductOrder<T>(args: seq<seq<T>>, i: nat, j: nat)
    requires |args| >= 2 && i < |args[0]| && j < |Product(args[1..])|
    ensures i * |Product(args[1..])| + j < |Product(args)|
    ensures Product(args)[i * |Product(args[1..])| + j] == [args[0][i]] + Product(args[1..])[j]
  {
    ExtendIndex(args[0], Product(args[1..]), i, j);
  }

  /** Every tuple occurs exactly once when the arguments have no repetitions. */
  lemma {:induction false} ProductDistinct<T>(args: seq<seq<T>>)
    requires |args| >= 1
    requires forall k :: 0 <= k < |args| ==> Distinct(args[k])
    ensures Distinct(Product(args))
    decreases |args|
  {
    if |args| == 1 {
    } else {
      ProductDistinct(args[1..]);
      ExtendDistinct(args[0], Product(args[1..]));
    }
  }

  lemma {:induction false} ExtendDistinct<T>(first: seq<T>, rest: seq<seq<T>>)
    requires Distinct(first) && Distinct(rest)
    ensures Distinct(Extend(first, rest))
  {
    if first != [] {
      var block := seq(|rest|, j requires 0 <= j < |rest| => [first[0]] + rest[j]);
      assert Distinct(block) by {
        forall i, j | 0 <= i < j < |block| ensures block[i] != block[j] {
          assert block[i][1..] == rest[i] && block[j][1..] == rest[j];
        }
      }
      ExtendDistinct(first[1..], rest);
      var tail := Extend(first[1..], rest);
      forall i | 0 <= i < |tail| ensures tail[i] !in block {
        ExtendMembers(first[1..], rest, tail[i]);
        assert first[0] !in first[1..];
      }
      DistinctConcat(block, tail);
    }
  }

  /** `mapProduct(fn, ...args)`: `fn` applied to each tuple of the product, in
      the product's order. */
  function MapProduct<T, R>(fn: seq<T> -> R, args: seq<seq<T>>): (r: seq<R>)
    requires |args| >= 1
    ensures |r| == |Product(args)|
    ensures forall i :: 0 <= i < |r| ==> r[i] == fn(Product(args)[i])
    ensures |r| == ProductSize(args)
  {
    var p := Product(args);
    seq(|p|, i requires 0 <= i < |p| => fn(p[i]))
  }
}
