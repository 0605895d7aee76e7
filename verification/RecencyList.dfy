/** The simple structure that a bucket of util/ecache must agree with: a list of
    entries, most recently touched first, no key twice. */
module RecencyList {
  import opened Basics

  /** One cached item; `expireAt` is 0 once the item has been marked as deleted. */
  datatype Entry<V> = Entry(key: Text, val: V, expireAt: int) {
    predicate Live() { expireAt > 0 }
  }

  type Recency<V> = seq<Entry<V>>

  /** Position of key `k`, or the length of the list when it is absent. */
  function IndexOf<V>(l: Recency<V>, k: Text): (i: nat)
    ensures i <= |l|
    ensures i < |l| ==> l[i].key == k
    ensures forall j :: 0 <= j < i ==> l[j].key != k
  {
    if l == [] || l[0].key == k then 0 else 1 + IndexOf(l[1..], k)
  }

  predicate Stored<V>(l: Recency<V>, k: Text) { IndexOf(l, k) < |l| }

  ghost predicate DistinctKeys<V>(l: Recency<V>) {
    forall i, j :: 0 <= i < j < |l| ==> l[i].key != l[j].key
  }

  function MoveToFront<T>(s: seq<T>, i: nat): seq<T>
    requires i < |s|
  {
    [s[i]] + s[..i] + s[i + 1..]
  }

  function SinkToBack<T>(s: seq<T>, i: nat): seq<T>
    requires i < |s|
  {
    s[..i] + s[i + 1..] + [s[i]]
  }

  function Put<V>(l: Recency<V>, cap: nat, e: Entry<V>): Recency<V>
    requires cap > 0
  {
    var i := IndexOf(l, e.key);
    if i < |l| then MoveToFront(l[i := e], i)
    else if |l| < cap then [e] + l
    else [e] + l[..|l| - 1]
  }

  /** The entry whose eviction the inspector is told about, if any. */
  function Evicted<V>(l: Recency<V>, cap: nat, k: Text): Option<Entry<V>>
    requires cap > 0
  {
    if !Stored(l, k) && |l| >= cap && l[|l| - 1].Live() then Some(l[|l| - 1]) else None
  }

  function Get<V>(l: Recency<V>, k: Text): Recency<V> {
    var i := IndexOf(l, k);
    if i < |l| then MoveToFront(l, i) else l
  }

  function Lookup<V>(l: Recency<V>, k: Text): Option<Entry<V>> {
    var i := IndexOf(l, k);
    if i < |l| then Some(l[i]) else None
  }

  function LiveEntry<V>(l: Recency<V>, k: Text): Option<Entry<V>> {
    var i := IndexOf(l, k);
    if i < |l| && l[i].Live() then Some(l[i]) else None
  }

  function Del<V>(l: Recency<V>, k: Text): Recency<V> {
    var i := IndexOf(l, k);
    if i < |l| && l[i].Live() then SinkToBack(l[i := l[i].(expireAt := 0)], i) else l
  }

  /** A callback may keep state: its answer depends on all the entries it has been called
      on, the current one last. */
  type Walker<!V> = Recency<V> -> bool

  /** The entries that `walker` has been called on after a walk from position `p` on, when it
      had been called on `seen` before: live entries only, until it answers false. */
  function Walked<V>(l: Recency<V>, walker: Walker<V>, seen: Recency<V>, p: nat := 0): Recency<V>
    requires p <= |l|
    decreases |l| - p
  {
    if p == |l| then seen
    else if !l[p].Live() then Walked(l, walker, seen, p + 1)
    else if !walker(seen + [l[p]]) then seen + [l[p]]
    else Walked(l, walker, seen + [l[p]], p + 1)
  }

  /** The live entries from position `p` on. */
  function LiveFrom<V>(l: Recency<V>, p: nat := 0): Recency<V>
    requires p <= |l|
    decreases |l| - p
  {
    if p == |l| then [] else (if l[p].Live() then [l[p]] else []) + LiveFrom(l, p + 1)
  }

  lemma {:induction false} LiveFromElements<V>(l: Recency<V>, p: nat, e: Entry<V>)
    requires p <= |l|
    ensures e in LiveFrom(l, p) <==> e in l[p..] && e.Live()
    decreases |l| - p
  {
    if p == |l| {
    } else {
      LiveFromElements(l, p + 1, e);
      assert l[p..] == [l[p]] + l[p + 1..];
    }
  }

  /** From `before` to `after` the walker was called on the entries of `live`, in that order:
      on all of them, or up to and including the first one that it refused. */
  ghost predicate Visits<V>(live: Recency<V>, walker: Walker<V>, before: Recency<V>, after: Recency<V>) {
    && |before| <= |after| <= |before| + |live| && after == before + live[..|after| - |before|]
    && (forall i :: |before| < i < |after| ==> walker(after[..i]))
    && (after != before + live ==> after != before && !walker(after))
  }

  lemma VisitsExtend<V>(live: Recency<V>, walker: Walker<V>, before: Recency<V>, after: Recency<V>)
    requires Visits(live, walker, before, after)
    ensures before <= after
  {
  }

  lemma VisitsOne<V>(e: Entry<V>, rest: Recency<V>, walker: Walker<V>, seen: Recency<V>, after: Recency<V>)
    requires walker(seen + [e]) && Visits(rest, walker, seen + [e], after)
    ensures Visits([e] + rest, walker, seen, after)
  {
    var live, n := [e] + rest, |after| - |seen|;
    assert after[..|seen| + 1] == seen + [e];
    assert live[..n] == [e] + rest[..n - 1];
    assert seen + live == seen + [e] + rest;
  }

  /** A walk visits the live entries in recency order. */
  lemma {:induction false} WalkVisits<V>(l: Recency<V>, walker: Walker<V>, seen: Recency<V>, p: nat)
    requires p <= |l|
    ensures Visits(LiveFrom(l, p), walker, seen, Walked(l, walker, seen, p))
    decreases |l| - p
  {
    if p == |l| {
    } else if !l[p].Live() {
      WalkVisits(l, walker, seen, p + 1);
      assert LiveFrom(l, p) == LiveFrom(l, p + 1);
    } else if walker(seen + [l[p]]) {
      WalkVisits(l, walker, seen + [l[p]], p + 1);
      hide Visits;
      VisitsOne(l[p], LiveFrom(l, p + 1), walker, seen, Walked(l, walker, seen, p));
    } else {
      assert LiveFrom(l, p)[..1] == [l[p]];
    }
  }

  /** Where a key is, when keys are distinct, is determined by any position that holds it. */
  lemma IndexOfUnique<V>(l: Recency<V>, k: Text, i: nat)
    requires DistinctKeys(l) && i < |l| && l[i].key == k
    ensures IndexOf(l, k) == i
  {
  }

  /** What a put keeps: everything but the old entry of its key and, when a new key meets a
      full list, the entry touched longest ago. */
  lemma PutKeeps<V>(l: Recency<V>, cap: nat, e: Entry<V>, j: nat)
    requires cap > 0 && j < |l| && l[j].key != e.key
    requires Stored(l, e.key) || |l| < cap || j < |l| - 1
    ensures l[j] in Put(l, cap, e)
  {
    var i, r := IndexOf(l, e.key), Put(l, cap, e);
    assert r[if i < |l| && i < j then j else j + 1] == l[j];
  }

  /** What a deletion keeps: every other key's entry. */
  lemma DelKeeps<V>(l: Recency<V>, k: Text, j: nat)
    requires j < |l| && l[j].key != k
    ensures l[j] in Del(l, k)
  {
    var i, r := IndexOf(l, k), Del(l, k);
    assert r[if i < |l| && l[i].Live() && i < j then j - 1 else j] == l[j];
  }

  lemma PutStored<V>(l: Recency<V>, cap: nat, e: Entry<V>)
    requires cap > 0 && Stored(l, e.key)
    ensures Evicted(l, cap, e.key) == None
    ensures var i := IndexOf(l, e.key); Put(l, cap, e) == MoveToFront(l[i := e], i)
  {
  }

  lemma PutFull<V>(l: Recency<V>, e: Entry<V>)
    requires l != [] && !Stored(l, e.key)
    ensures Evicted(l, |l|, e.key) == if l[|l| - 1].Live() then Some(l[|l| - 1]) else None
    ensures Put(l, |l|, e) == MoveToFront(l[|l| - 1 := e], |l| - 1)
  {
  }

  lemma DelLive<V>(l: Recency<V>, k: Text)
    requires Stored(l, k) && l[IndexOf(l, k)].Live()
    ensures var i := IndexOf(l, k);
            && Del(l, k) == SinkToBack(l[i := l[i].(expireAt := 0)], i)
            && LiveEntry(l, k) == Some(l[i])
  {
  }

  lemma DelMiss<V>(l: Recency<V>, k: Text)
    requires LiveEntry(l, k).None?
    ensures Del(l, k) == l
  {
  }
}
