/** Value types shared by the whole model. */
module Basics {

  datatype Option<+T> = None | Some(value: T)

  /** Go's uint16: every value the code stores in one must be shown to fit. */
  type uint16 = x: int | 0 <= x < 0x1_0000

  /** Go's int64, in which additions wrap around. */
  type int64 = x: int | -0x8000_0000_0000_0000 <= x < 0x8000_0000_0000_0000

  /** The one 64-bit value that is congruent to `x`. */
  function Wrap64(x: int): (r: int64)
    ensures (x - r) % 0x1_0000_0000_0000_0000 == 0
  {
    (x + 0x8000_0000_0000_0000) % 0x1_0000_0000_0000_0000 - 0x8000_0000_0000_0000
  }

  lemma QuotientRemainder(x: int, n: nat)
    requires n > 0
    ensures x == (x / n) * n + x % n
  {
  }

  /** A Go string: a sequence of bytes. */
  type Text = seq<bv8>
}

/** The first position of a member of a sequence. */
module Searching {

  /** The first position of `x`, or the length of `s` when it is absent. */
  function Find<T(==)>(s: seq<T>, x: T): (i: nat)
    ensures i <= |s|
    ensures i < |s| ==> s[i] == x
    ensures forall j :: 0 <= j < i ==> s[j] != x
  {
    if s == [] || s[0] == x then 0 else 1 + Find(s[1..], x)
  }

  lemma FindUnique<T>(s: seq<T>, x: T, i: nat)
    requires i <= |s| && (i < |s| ==> s[i] == x) && forall j :: 0 <= j < i ==> s[j] != x
    ensures Find(s, x) == i
  {
  }
}

/** Counting arguments over distinct sequences. */
module Counting {

  ghost predicate Distinct<T>(s: seq<T>) {
    forall i, j :: 0 <= i < j < |s| ==> s[i] != s[j]
  }

  function UpTo(n: nat): (r: set<int>)
    ensures |r| == n && forall x :: x in r <==> 1 <= x <= n
  {
    if n == 0 then {} else UpTo(n - 1) + {n}
  }

  lemma {:induction false} SizeOfDistinct<T>(s: seq<T>, S: set<T>)
    requires Distinct(s) && forall y :: y in s <==> y in S
    ensures |s| == |S|
  {
    if s == [] {
      assert S == {};
    } else {
      var y := s[|s| - 1];
      assert y in S;
      forall z
        ensures z in s[..|s| - 1] <==> z in S - {y}
      {
        assert z in s <==> z in s[..|s| - 1] || z == y;
      }
      SizeOfDistinct(s[..|s| - 1], S - {y});
    }
  }

  /** Pigeonhole: |S| distinct members of S are all of S. */
  lemma {:induction false} Exhausts<T>(s: seq<T>, S: set<T>, x: T)
    requires Distinct(s) && (forall y :: y in s ==> y in S) && |s| == |S|
    requires x in S
    ensures x in s
  {
    if s == [] || s[|s| - 1] == x {
    } else {
      Exhausts(s[..|s| - 1], S - {s[|s| - 1]}, x);
    }
  }

  lemma SameMultiset<T>(a: multiset<T>, b: multiset<T>)
    requires forall x :: x in a || x in b ==> a[x] == b[x]
    ensures a == b
  {
  }
}
