/** One bucket of util/ecache: a doubly linked list threaded through an index array. */
module LinkedBucket {
  import opened Basics
  import opened Counting
  import opened RecencyList

  /** Column 0 of the link array holds the predecessor, column 1 the successor. */
  const PREV: uint16 := 0
  const NEXT: uint16 := 1

  /** `s` lists the slots 1..n, each exactly once. */
  ghost predicate Slots(s: seq<uint16>, n: nat) {
    && |s| == n
    && (forall i :: 0 <= i < |s| ==> 1 <= s[i] <= n)
    && (forall i, j :: 0 <= i < j < |s| ==> s[i] != s[j])
  }

  /** Following `fwd` from the sentinel 0 visits `s` in order and returns to 0;
      following `bwd` visits it in the opposite order. */
  ghost predicate Circle(bwd: seq<uint16>, fwd: seq<uint16>, s: seq<uint16>) {
    && |bwd| == |fwd| > |s|
    && Slots(s, |s|)
    && fwd[0] == (if s == [] then 0 else s[0])
    && bwd[0] == (if s == [] then 0 else s[|s| - 1])
    && (s != [] ==> bwd[s[0]] == 0 && fwd[s[|s| - 1]] == 0)
    && (forall i, j :: 0 <= i && j == i + 1 && j < |s| ==> fwd[s[i]] == s[j] && bwd[s[j]] == s[i])
  }

  ghost function Reversed<T>(s: seq<T>): (r: seq<T>)
    ensures |r| == |s| && forall i :: 0 <= i < |s| ==> r[i] == s[|s| - 1 - i]
  {
    seq(|s|, i requires 0 <= i < |s| => s[|s| - 1 - i])
  }

  /** One column of the link array. */
  ghost function Column(d: array2<uint16>, c: uint16): (r: seq<uint16>)
    requires c < d.Length1
    reads d
    ensures |r| == d.Length0 && forall i :: 0 <= i < |r| ==> r[i] == d[i, c]
  {
    seq(d.Length0, i requires 0 <= i < d.Length0 reads d => d[i, c])
  }

  /** The circle read backwards is a circle with the two columns swapped. */
  lemma ReversedCircle(bwd: seq<uint16>, fwd: seq<uint16>, s: seq<uint16>)
    requires Circle(bwd, fwd, s)
    ensures Circle(fwd, bwd, Reversed(s))
  {
  }

  /** A column after three of its cells have been overwritten. */
  ghost function Write3(c: seq<uint16>, i: nat, x: uint16, j: nat, y: uint16, k: nat, z: uint16): (r: seq<uint16>)
    requires i < |c| && j < |c| && k < |c|
  {
    c[i := x][j := y][k := z]
  }

  /** The slot after position `i`, or the sentinel. */
  ghost function After(s: seq<uint16>, i: nat): uint16 {
    if i + 1 < |s| then s[i + 1] else 0
  }

  lemma Neighbours(bwd: seq<uint16>, fwd: seq<uint16>, s: seq<uint16>, i: nat)
    requires Circle(bwd, fwd, s) && i < |s|
    ensures |bwd| == |fwd| > |s|
    ensures fwd[s[i]] == After(s, i)
    ensures bwd[s[i]] == if i == 0 then 0 else s[i - 1]
  {
  }

  /** The cells that are overwritten are pairwise different. */
  lemma Apart(s: seq<uint16>, i: nat)
    requires Slots(s, |s|) && 0 < i < |s|
    ensures s[i - 1] != s[i] && s[i] != s[0]
    ensures After(s, i) != s[i] && After(s, i) != s[0]
    ensures 0 != s[i] && 0 != s[i - 1] && After(s, i) <= |s|
  {
  }

  /** Every slot in use is visited by the circle. */
  lemma SlotsCover(s: seq<uint16>, n: nat, x: uint16) returns (i: nat)
    requires Slots(s, n) && 1 <= x <= n
    ensures i < |s| && s[i] == x
  {
    Exhausts(s, UpTo(n), x);
    i :| 0 <= i < |s| && s[i] == x;
  }

  lemma MoveToFrontSlots(s: seq<uint16>, n: nat, i: nat)
    requires Slots(s, n) && i < n
    ensures Slots(MoveToFront(s, i), n)
  {
    MovedAt(s, i);
    hide MoveToFront;
  }

  lemma MoveAt<T>(s: seq<T>, i: nat, p: nat)
    requires i < |s| && p < |s|
    ensures MoveToFront(s, i)[p] == if p == 0 then s[i] else if p <= i then s[p - 1] else s[p]
  {
  }

  /** The link between positions `p` and `p + 1` once slot `s[i]` has been moved to the front. */
  lemma RewiredLink(bwd: seq<uint16>, fwd: seq<uint16>, s: seq<uint16>, i: nat, p: nat)
    requires Circle(bwd, fwd, s) && Slots(s, |s|) && 0 < i < |s| && p + 1 < |s|
    ensures Write3(fwd, s[i - 1], After(s, i), s[i], s[0], 0, s[i])[MoveToFront(s, i)[p]] == MoveToFront(s, i)[p + 1]
    ensures Write3(bwd, After(s, i), s[i - 1], s[i], 0, s[0], s[i])[MoveToFront(s, i)[p + 1]] == MoveToFront(s, i)[p]
  {
    hide Circle;
    Apart(s, i);
    MoveAt(s, i, p);
    MoveAt(s, i, p + 1);
    if 0 < p { Neighbours(bwd, fwd, s, if p <= i then p - 1 else p); }
    Neighbours(bwd, fwd, s, if p < i then p else p + 1);
  }

  /** Unlinking a slot that is not first and linking it in after the sentinel moves it to
      the front of the circle. */
  lemma Rewired(bwd: seq<uint16>, fwd: seq<uint16>, s: seq<uint16>, i: nat)
    requires Circle(bwd, fwd, s) && 0 < i < |s|
    ensures Circle(Write3(bwd, After(s, i), s[i - 1], s[i], 0, s[0], s[i]),
                   Write3(fwd, s[i - 1], After(s, i), s[i], s[0], 0, s[i]),
                   MoveToFront(s, i))
  {
    var x, s' := s[i], MoveToFront(s, i);
    var bwd' := Write3(bwd, After(s, i), s[i - 1], x, 0, s[0], x);
    var fwd' := Write3(fwd, s[i - 1], After(s, i), x, s[0], 0, x);
    MoveToFrontSlots(s, |s|, i);
    forall p, q | 0 <= p && q == p + 1 && q < |s'|
      ensures fwd'[s'[p]] == s'[q] && bwd'[s'[q]] == s'[p]
    {
      RewiredLink(bwd, fwd, s, i, p);
    }
    Neighbours(bwd, fwd, s, |s| - 1);
  }

  lemma PrependSlots(s: seq<uint16>, n: uint16)
    requires Slots(s, |s|) && n == |s| + 1
    ensures Slots([n] + s, |s| + 1)
  {
    var s' := [n] + s;
    assert forall p :: 1 <= p < |s'| ==> s'[p] == s[p - 1];
  }

  /** The link between positions `p` and `p + 1` once the fresh slot `n` is first. */
  lemma PrependedLink(bwd: seq<uint16>, fwd: seq<uint16>, s: seq<uint16>, n: uint16, p: nat)
    requires Circle(bwd, fwd, s) && Slots(s, |s|) && n == |s| + 1 < |bwd| && p < |s|
    ensures fwd[0] < |bwd| && fwd[0] == s[0]
    ensures Write3(fwd, n, fwd[0], 0, n, 0, n)[([n] + s)[p]] == ([n] + s)[p + 1]
    ensures Write3(bwd, fwd[0], n, n, 0, n, 0)[([n] + s)[p + 1]] == ([n] + s)[p]
  {
    assert fwd[0] == s[0];
    hide Circle;
    Neighbours(bwd, fwd, s, p);
    if 0 < p { Neighbours(bwd, fwd, s, p - 1); }
  }

  /** Linking a fresh slot in after the sentinel. */
  lemma Prepended(bwd: seq<uint16>, fwd: seq<uint16>, s: seq<uint16>, n: uint16)
    requires Circle(bwd, fwd, s) && n == |s| + 1 < |bwd|
    ensures fwd[0] <= |s| && (fwd[0] == 0 <==> s == [])
    ensures Circle(Write3(bwd, fwd[0], n, n, 0, n, 0), Write3(fwd, n, fwd[0], 0, n, 0, n), [n] + s)
  {
    var s' := [n] + s;
    var bwd' := Write3(bwd, fwd[0], n, n, 0, n, 0);
    var fwd' := Write3(fwd, n, fwd[0], 0, n, 0, n);
    PrependSlots(s, n);
    forall p, q | 0 <= p && q == p + 1 && q < |s'|
      ensures fwd'[s'[p]] == s'[q] && bwd'[s'[q]] == s'[p]
    {
      PrependedLink(bwd, fwd, s, n, p);
    }
    if s != [] {
      Neighbours(bwd, fwd, s, |s| - 1);
      assert s'[|s'| - 1] == s[|s| - 1];
    }
  }

  /** `hmap` is a bijection between the stored keys and the slots 1..n. */
  ghost predicate Keyed<V>(hmap: map<Text, uint16>, m: seq<Entry<V>>, n: nat) {
    && n <= |m|
    && (forall k :: k in hmap ==> 1 <= hmap[k] <= n)
    && (forall x :: 0 <= x < n ==> m[x].key in hmap)
    && (forall k, x :: k in hmap && 0 <= x < n ==> (hmap[k] == x + 1 <==> m[x].key == k))
  }

  /** The entries of the slots `s`. */
  ghost function Read<V>(m: seq<Entry<V>>, s: seq<uint16>): (l: Recency<V>)
    requires forall i :: 0 <= i < |s| ==> 1 <= s[i] <= |m|
    ensures |l| == |s| && forall i :: 0 <= i < |l| ==> l[i] == m[s[i] - 1]
  {
    seq(|s|, i requires 0 <= i < |s| => m[s[i] - 1])
  }

  lemma ReadDistinct<V>(hmap: map<Text, uint16>, m: seq<Entry<V>>, s: seq<uint16>)
    requires Slots(s, |s|) && Keyed(hmap, m, |s|)
    ensures DistinctKeys(Read(m, s))
  {
    var l := Read(m, s);
    forall i, j | 0 <= i < j < |l|
      ensures l[i].key != l[j].key
    {
      var x, y := s[i] - 1, s[j] - 1;
      assert hmap[m[x].key] == x + 1 && hmap[m[y].key] == y + 1;
    }
  }

  lemma ReadStored<V>(hmap: map<Text, uint16>, m: seq<Entry<V>>, s: seq<uint16>, k: Text)
    requires Slots(s, |s|) && Keyed(hmap, m, |s|)
    ensures Stored(Read(m, s), k) <==> k in hmap
  {
    var l := Read(m, s);
    if k in hmap {
      var i := SlotsCover(s, |s|, hmap[k]);
      assert l[i].key == k;
    }
  }

  /** A stored key's slot is at the position where the recency list holds that key. */
  lemma Position<V>(hmap: map<Text, uint16>, m: seq<Entry<V>>, s: seq<uint16>, k: Text) returns (i: nat)
    requires Slots(s, |s|) && Keyed(hmap, m, |s|) && k in hmap
    ensures i < |s| && s[i] == hmap[k] && IndexOf(Read(m, s), k) == i
  {
    i := SlotsCover(s, |s|, hmap[k]);
    ReadDistinct(hmap, m, s);
    IndexOfUnique(Read(m, s), k, i);
  }

  lemma ReadMoved<V>(m: seq<Entry<V>>, s: seq<uint16>, i: nat)
    requires Slots(s, |s|) && |s| <= |m| && i < |s|
    ensures (forall j :: 0 <= j < |s| ==> 1 <= MoveToFront(s, i)[j] <= |m|)
            && Read(m, MoveToFront(s, i)) == MoveToFront(Read(m, s), i)
    ensures (forall j :: 0 <= j < |s| ==> 1 <= SinkToBack(s, i)[j] <= |m|)
            && Read(m, SinkToBack(s, i)) == SinkToBack(Read(m, s), i)
  {
    MovedAt(s, i);
    MovedAt(Read(m, s), i);
    hide MoveToFront, SinkToBack;
  }

  lemma MovedAt<T>(s: seq<T>, i: nat)
    requires i < |s|
    ensures |MoveToFront(s, i)| == |SinkToBack(s, i)| == |s|
    ensures forall p :: 0 <= p < |s| ==>
              MoveToFront(s, i)[p] == s[if p == 0 then i else if p <= i then p - 1 else p]
    ensures forall p :: 0 <= p < |s| ==>
              SinkToBack(s, i)[p] == s[if p < i then p else if p < |s| - 1 then p + 1 else i]
  {
  }

  /** Moving to the front of the reversed circle is sinking to the back of the circle. */
  lemma SunkCircle(bwd: seq<uint16>, fwd: seq<uint16>, s: seq<uint16>, i: nat)
    requires i < |s| && Circle(fwd, bwd, MoveToFront(Reversed(s), |s| - 1 - i))
    ensures Circle(bwd, fwd, SinkToBack(s, i))
  {
    var s' := SinkToBack(s, i);
    assert MoveToFront(Reversed(s), |s| - 1 - i) == Reversed(s');
    ReversedCircle(fwd, bwd, Reversed(s'));
    assert Reversed(Reversed(s')) == s';
  }

  lemma KeyedSize<V>(hmap: map<Text, uint16>, m: seq<Entry<V>>, n: nat)
    requires Keyed(hmap, m, n)
    ensures |hmap| == n
  {
    var keys := seq(n, x requires 0 <= x < n => m[x].key);
    assert forall k :: k in keys <==> k in hmap.Keys by {
      forall k | k in hmap
        ensures k in keys
      {
        assert keys[hmap[k] - 1] == k;
      }
    }
    forall x, y | 0 <= x < y < n
      ensures keys[x] != keys[y]
    {
      assert hmap[m[x].key] == x + 1;
    }
    SizeOfDistinct(keys, hmap.Keys);
  }

  lemma KeyedAppended<V>(hmap: map<Text, uint16>, m: seq<Entry<V>>, n: nat, e: Entry<V>)
    requires Keyed(hmap, m, n) && n < |m| <= 0xFFFF && e.key !in hmap
    ensures Keyed(hmap[e.key := n + 1], m[n := e], n + 1)
  {
  }

  lemma ReadAppended<V>(m: seq<Entry<V>>, s: seq<uint16>, e: Entry<V>)
    requires Slots(s, |s|) && |s| < |m| <= 0xFFFF
    ensures Slots([|s| + 1] + s, |s| + 1)
    ensures Read(m[|s| := e], [|s| + 1] + s) == [e] + Read(m, s)
  {
  }

  lemma ReadWritten<V>(m: seq<Entry<V>>, s: seq<uint16>, i: nat, e: Entry<V>)
    requires Slots(s, |s|) && |s| <= |m| && i < |s|
    ensures Read(m[s[i] - 1 := e], s) == Read(m, s)[i := e]
  {
  }

  lemma KeyedRewritten<V>(hmap: map<Text, uint16>, m: seq<Entry<V>>, n: nat, x: nat, e: Entry<V>)
    requires Keyed(hmap, m, n) && x < n && m[x].key == e.key
    ensures Keyed(hmap, m[x := e], n)
  {
  }

  lemma KeyedReplaced<V>(hmap: map<Text, uint16>, m: seq<Entry<V>>, n: nat, x: nat, e: Entry<V>)
    requires Keyed(hmap, m, n) && x < n <= 0xFFFF && e.key !in hmap
    ensures Keyed((hmap - {m[x].key})[e.key := x + 1], m[x := e], n)
  {
  }

  /** The live entry of `k`, read through the map. */
  lemma EntryAt<V>(hmap: map<Text, uint16>, m: seq<Entry<V>>, s: seq<uint16>, k: Text)
    requires Slots(s, |s|) && Keyed(hmap, m, |s|)
    ensures k in hmap ==> 1 <= hmap[k] <= |m|
    ensures LiveEntry(Read(m, s), k) ==
            if k in hmap && m[hmap[k] - 1].Live() then Some(m[hmap[k] - 1]) else None
  {
    ReadStored(hmap, m, s, k);
    if k in hmap {
      var i := Position(hmap, m, s, k);
    }
  }

  lemma InRange(s: seq<uint16>, n: nat)
    requires Slots(s, n)
    ensures forall i :: 0 <= i < |s| ==> 1 <= s[i] <= n
  {
  }

  lemma Ends(bwd: seq<uint16>, fwd: seq<uint16>, s: seq<uint16>)
    requires Circle(bwd, fwd, s)
    ensures fwd[0] == (if s == [] then 0 else s[0])
    ensures bwd[0] == (if s == [] then 0 else s[|s| - 1])
  {
  }

  class Bucket<V(0)> {
    const dlnk: array2<uint16>
    const m: array<Entry<V>>
    var hmap: map<Text, uint16>
    var last: uint16
    /** The slots in recency order, head first. */
    ghost var order: seq<uint16>

    ghost predicate Valid()
      reads this, dlnk, m
    {
      && dlnk.Length0 == m.Length + 1 && dlnk.Length1 == 2
      && m.Length < 0x1_0000 && last <= m.Length
      && |order| == last && Slots(order, last)
      && Keyed(hmap, m[..], last)
      && Circle(Column(dlnk, PREV), Column(dlnk, NEXT), order)
    }

    /** The recency list that the bucket stands for. */
    ghost function Contents(): (l: Recency<V>)
      requires Valid()
      reads this, dlnk, m
    {
      Read(m[..], order)
    }

    /** The parallel assignment of `ajust`, for a slot `idx` between `before` and `after`. */
    method Relink(idx: uint16, f: uint16, t: uint16, ghost before: uint16, ghost after: uint16, ghost head: uint16)
      requires dlnk.Length1 == 2 && f < 2 && t < 2 && f != t
      requires idx < dlnk.Length0 && before < dlnk.Length0 && after < dlnk.Length0 && head < dlnk.Length0
      requires dlnk[idx, f] == before && dlnk[idx, t] == after && dlnk[0, t] == head
      requires before != idx && after != idx && idx != head && after != head && idx != 0 && before != 0
      modifies dlnk
      ensures Column(dlnk, f) == Write3(old(Column(dlnk, f)), after, before, idx, 0, head, idx)
      ensures Column(dlnk, t) == Write3(old(Column(dlnk, t)), before, after, idx, head, 0, idx)
    {
      dlnk[dlnk[idx, t], f], dlnk[dlnk[idx, f], t], dlnk[idx, f], dlnk[idx, t], dlnk[dlnk[0, t], f], dlnk[0, t] :=
        dlnk[idx, f], dlnk[idx, t], 0, dlnk[0, t], idx, idx;
    }

    /** Moves `idx`, at position `i` of the circle `s` read along `t`, to the front of it. */
    method Rethread(idx: uint16, f: uint16, t: uint16, ghost s: seq<uint16>, ghost i: nat)
      requires dlnk.Length1 == 2 && f < 2 && t < 2 && f != t
      requires Circle(Column(dlnk, f), Column(dlnk, t), s)
      requires i < |s| && s[i] == idx
      modifies dlnk
      ensures Circle(Column(dlnk, f), Column(dlnk, t), MoveToFront(s, i))
    {
      ghost var bwd, fwd := Column(dlnk, f), Column(dlnk, t);
      Neighbours(bwd, fwd, s, i);
      if dlnk[idx, f] != 0 {
        Apart(s, i);
        Rewired(bwd, fwd, s, i);
        Relink(idx, f, t, s[i - 1], After(s, i), s[0]);
      } else {
        assert MoveToFront(s, i) == s;
      }
    }

    /** The same code moves a slot to the head (`f` is PREV) and sinks it to the tail. */
    method Ajust(idx: uint16, f: uint16, t: uint16, ghost s: seq<uint16>, ghost i: nat)
      returns (ghost s': seq<uint16>)
      requires dlnk.Length1 == 2 && Circle(Column(dlnk, PREV), Column(dlnk, NEXT), s)
      requires i < |s| && s[i] == idx
      requires (f == PREV && t == NEXT) || (f == NEXT && t == PREV)
      modifies dlnk
      ensures Circle(Column(dlnk, PREV), Column(dlnk, NEXT), s')
      ensures s' == if t == NEXT then MoveToFront(s, i) else SinkToBack(s, i)
    {
      hide Circle, MoveToFront, SinkToBack, Column;
      if t == NEXT {
        Rethread(idx, f, t, s, i);
        s' := MoveToFront(s, i);
      } else {
        ReversedCircle(Column(dlnk, PREV), Column(dlnk, NEXT), s);
        Rethread(idx, f, t, Reversed(s), |s| - 1 - i);
        SunkCircle(Column(dlnk, PREV), Column(dlnk, NEXT), s, i);
        s' := SinkToBack(s, i);
      }
    }

    /** Refreshes the slot at position `i` to the head. */
    method Refresh(idx: uint16, ghost i: nat)
      requires Valid() && i < last && order[i] == idx
      modifies this`order, dlnk
      ensures Valid()
      ensures Contents() == MoveToFront(old(Contents()), i)
    {
      hide Circle, Keyed, MoveToFront, Column;
      MoveToFrontSlots(order, last, i);
      ReadMoved(m[..], order, i);
      order := Ajust(idx, PREV, NEXT, order, i);
    }

    /** Sinks the slot at position `i` to the tail. */
    method Sink(idx: uint16, ghost i: nat)
      requires Valid() && i < last && order[i] == idx
      modifies this`order, dlnk
      ensures Valid()
      ensures Contents() == SinkToBack(old(Contents()), i)
      ensures order[last - 1] == idx
    {
      hide Circle, Keyed, Column;
      ReadMoved(m[..], order, i);
      order := Ajust(idx, NEXT, PREV, order, i);
    }

    constructor (cap: uint16)
      ensures Valid() && fresh(dlnk) && fresh(m)
      ensures m.Length == cap && Contents() == []
    {
      dlnk := new uint16[cap as int + 1, 2]((i, j) => 0);
      m := new Entry<V>[cap];
      hmap := map[];
      last := 0;
      order := [];
    }

    method Put(k: Text, v: V, expireAt: int) returns (added: int, evicted: Option<Entry<V>>)
      requires Valid() && m.Length > 0
      modifies this, dlnk, m
      ensures Valid()
      ensures Contents() == RecencyList.Put(old(Contents()), m.Length, Entry(k, v, expireAt))
      ensures added == if old(Stored(Contents(), k)) then 0 else 1
      ensures evicted == Evicted(old(Contents()), m.Length, k)
    {
      hide Circle, Keyed, Slots, IndexOf, RecencyList.Put, Column;
      if k in hmap {
        Update(k, v, expireAt);
        return 0, None;
      }
      if last == m.Length {
        evicted := Replace(k, v, expireAt);
        return 1, evicted;
      }
      Append(k, v, expireAt);
      return 1, None;
    }

    /** The part of `put` for a key that is stored. */
    method Update(k: Text, v: V, expireAt: int)
      requires Valid() && k in hmap && m.Length > 0
      modifies this`order, dlnk, m
      ensures Valid()
      ensures Stored(old(Contents()), k) && Evicted(old(Contents()), m.Length, k) == None
      ensures Contents() == RecencyList.Put(old(Contents()), m.Length, Entry(k, v, expireAt))
    {
      hide Circle, IndexOf, RecencyList.Put, MoveToFront, Column;
      var x := hmap[k];
      ghost var e := Entry(k, v, expireAt);
      ghost var i := Position(hmap, m[..], order, k);
      PutStored(Contents(), m.Length, e);
      KeyedRewritten(hmap, m[..], last, x - 1, e);
      ReadWritten(m[..], order, i, e);
      Store(x, m[x - 1].(val := v, expireAt := expireAt));
      Refresh(x, i);
    }

    /** The part of `put` for a new key when the bucket is full: the tail's slot is reused. */
    method Replace(k: Text, v: V, expireAt: int) returns (evicted: Option<Entry<V>>)
      requires Valid() && k !in hmap && 0 < last == m.Length
      modifies this`hmap, this`order, dlnk, m
      ensures Valid()
      ensures !Stored(old(Contents()), k) && evicted == Evicted(old(Contents()), m.Length, k)
      ensures Contents() == RecencyList.Put(old(Contents()), m.Length, Entry(k, v, expireAt))
    {
      hide Keyed, IndexOf, RecencyList.Put, MoveToFront, Column;
      ReadStored(hmap, m[..], order, k);
      PutFull(Contents(), Entry(k, v, expireAt));
      evicted := ReuseTail(k, v, expireAt);
      Refresh(dlnk[0, PREV], last - 1);
    }

    /** The tail's slot gets a new key; the links stay. */
    method ReuseTail(k: Text, v: V, expireAt: int) returns (evicted: Option<Entry<V>>)
      requires Valid() && k !in hmap && last > 0
      modifies this`hmap, m
      ensures Valid() && Contents() == old(Contents())[last - 1 := Entry(k, v, expireAt)]
      ensures var tail := old(Contents())[last - 1]; evicted == if tail.Live() then Some(tail) else None
    {
      hide IndexOf, Circle, Keyed, Slots, Read, Column;
      Ends(Column(dlnk, PREV), Column(dlnk, NEXT), order);
      InRange(order, last);
      var tail := dlnk[0, PREV];
      KeyedReplaced(hmap, m[..], last, tail - 1, Entry(k, v, expireAt));
      ReadWritten(m[..], order, last - 1, Entry(k, v, expireAt));
      evicted := if m[tail - 1].expireAt > 0 then Some(m[tail - 1]) else None;
      hmap := hmap - {m[tail - 1].key};
      hmap := hmap[k := tail];
      Store(tail, Entry(k, v, expireAt));
    }

    /** Overwrites the entry of one slot. */
    method Store(x: uint16, e: Entry<V>)
      requires 1 <= x <= m.Length
      modifies m
      ensures m[..] == old(m[..])[x - 1 := e]
    {
      m[x - 1] := e;
    }

    /** The part of `put` for a new key when a slot is still unused. */
    method Append(k: Text, v: V, expireAt: int)
      requires Valid() && k !in hmap && last < m.Length
      modifies this, dlnk, m
      ensures Valid()
      ensures !Stored(old(Contents()), k) && Evicted(old(Contents()), m.Length, k) == None
      ensures Contents() == RecencyList.Put(old(Contents()), m.Length, Entry(k, v, expireAt))
    {
      hide Circle, Keyed, IndexOf, Column;
      ReadStored(hmap, m[..], order, k);
      KeyedSize(hmap, m[..], last);
      KeyedAppended(hmap, m[..], last, Entry(k, v, expireAt));
      ReadAppended(m[..], order, Entry(k, v, expireAt));
      LinkNew();
      hmap := hmap[k := last];
      Store(last, Entry(k, v, expireAt));
    }

    /** The link part of appending: slot `last + 1` becomes the head. */
    method LinkNew()
      requires |hmap| == |order| == last && last as int + 1 < dlnk.Length0 <= 0x1_0000 && dlnk.Length1 == 2
      requires Circle(Column(dlnk, PREV), Column(dlnk, NEXT), order)
      modifies this`last, this`order, dlnk
      ensures last == old(last) + 1 && order == [last] + old(order)
      ensures Circle(Column(dlnk, PREV), Column(dlnk, NEXT), order)
    {
      hide Circle, Slots, Column;
      ghost var bwd, fwd := Column(dlnk, PREV), Column(dlnk, NEXT);
      Prepended(bwd, fwd, order, last + 1);
      last := last + 1;
      var head := dlnk[0, NEXT];
      if |hmap| <= 0 {
        SetLink(0, PREV, last);
      } else {
        SetLink(head, PREV, last);
      }
      SetLink(last, PREV, 0);
      SetLink(last, NEXT, head);
      SetLink(0, NEXT, last);
      order := [last] + order;
      assert Column(dlnk, PREV) == Write3(bwd, fwd[0], last, last, 0, last, 0);
      assert Column(dlnk, NEXT) == Write3(fwd, last, fwd[0], 0, last, 0, last);
    }

    method SetLink(i: uint16, c: uint16, x: uint16)
      requires i < dlnk.Length0 && c < dlnk.Length1 == 2
      modifies dlnk
      ensures Column(dlnk, c) == old(Column(dlnk, c))[i := x]
      ensures Column(dlnk, 1 - c) == old(Column(dlnk, 1 - c))
    {
      dlnk[i, c] := x;
    }

    method Get(k: Text) returns (r: Option<Entry<V>>)
      requires Valid()
      modifies this`order, dlnk
      ensures Valid()
      ensures Contents() == RecencyList.Get(old(Contents()), k)
      ensures r == Lookup(old(Contents()), k)
    {
      hide Circle, IndexOf, MoveToFront, Column;
      ReadStored(hmap, m[..], order, k);
      if k in hmap {
        var x := hmap[k];
        ghost var i := Position(hmap, m[..], order, k);
        Refresh(x, i);
        return Some(m[x - 1]);
      }
      return None;
    }

    /** Marks a live key as deleted and sinks it; `x` is its slot, or 0 when there was none. */
    method Del(k: Text) returns (x: uint16, e: int)
      requires Valid()
      modifies this`order, dlnk, m
      ensures Valid()
      ensures Contents() == RecencyList.Del(old(Contents()), k)
      ensures match LiveEntry(old(Contents()), k)
              case None => x == 0 && e == 0
              case Some(entry) =>
                && 0 < last && x == order[last - 1] && e == entry.expireAt
                && 1 <= x <= m.Length && m[x - 1] == entry.(expireAt := 0)
    {
      hide Circle, IndexOf, Keyed, Slots, RecencyList.Del, LiveEntry, Column;
      EntryAt(hmap, m[..], order, k);
      if k in hmap && m[hmap[k] - 1].expireAt > 0 {
        x := hmap[k];
        e := MarkAndSink(k, x);
      } else {
        DelMiss(Contents(), k);
        return 0, 0;
      }
    }

    /** The part of `del` for a live key. */
    method MarkAndSink(k: Text, x: uint16) returns (e: int)
      requires Valid() && k in hmap && x == hmap[k] && m[x - 1].Live()
      modifies this`order, dlnk, m
      ensures Valid() && Contents() == RecencyList.Del(old(Contents()), k)
      ensures 0 < last && x == order[last - 1]
      ensures LiveEntry(old(Contents()), k).Some? && e == LiveEntry(old(Contents()), k).value.expireAt
      ensures m[x - 1] == LiveEntry(old(Contents()), k).value.(expireAt := 0)
    {
      hide Circle, IndexOf, SinkToBack, RecencyList.Del, LiveEntry, Column;
      EntryAt(hmap, m[..], order, k);
      ghost var i := Position(hmap, m[..], order, k);
      DelLive(Contents(), k);
      e := Mark(x, i);
      Sink(x, i);
    }

    /** Clears the expiry time of the slot at position `i`. */
    method Mark(x: uint16, ghost i: nat) returns (e: int)
      requires Valid() && i < last && order[i] == x
      modifies m
      ensures Valid() && e == old(Contents())[i].expireAt
      ensures m[x - 1] == old(m[x - 1]).(expireAt := 0)
      ensures Contents() == old(Contents())[i := old(Contents())[i].(expireAt := 0)]
    {
      hide Circle, Column;
      KeyedRewritten(hmap, m[..], last, x - 1, m[x - 1].(expireAt := 0));
      ReadWritten(m[..], order, i, m[x - 1].(expireAt := 0));
      e := m[x - 1].expireAt;
      Store(x, m[x - 1].(expireAt := 0));
    }

    /** Releases the value of the slot at the tail. */
    method Release(x: uint16, nil: V)
      requires Valid() && 0 < last && x == order[last - 1]
      modifies m
      ensures Valid()
      ensures var l := old(Contents()); l != [] && Contents() == l[|l| - 1 := l[|l| - 1].(val := nil)]
    {
      hide Circle, Column;
      KeyedRewritten(hmap, m[..], last, x - 1, m[x - 1].(val := nil));
      ReadWritten(m[..], order, last - 1, m[x - 1].(val := nil));
      Store(x, m[x - 1].(val := nil));
    }

    lemma NextSlot(p: nat)
      requires Valid() && p < last
      ensures 1 <= order[p] <= last
      ensures m[order[p] - 1] == Contents()[p]
      ensures dlnk[order[p], NEXT] == After(order, p)
    {
      Neighbours(Column(dlnk, PREV), Column(dlnk, NEXT), order, p);
    }

    /** Calls `walker`, which has been called on `seen` before, on the live entries, most
        recent first, until it answers false; `visited` are all entries it was called on. */
    method Walk(walker: Walker<V>, seen: Recency<V>) returns (visited: Recency<V>)
      requires Valid()
      ensures visited == Walked(Contents(), walker, seen)
    {
      hide Keyed, IndexOf, Circle, Slots, Read, Column;
      Ends(Column(dlnk, PREV), Column(dlnk, NEXT), order);
      InRange(order, last);
      visited := seen;
      ghost var p: nat, l := 0, Contents();
      var idx := dlnk[0, NEXT];
      while idx != 0
        invariant p <= |l| && idx == (if p < |l| then order[p] else 0)
        invariant Walked(l, walker, seen) == Walked(l, walker, visited, p)
        decreases |l| - p
      {
        NextSlot(p);
        var e := m[idx - 1];
        if e.expireAt > 0 {
          visited := visited + [e];
          if !walker(visited) {
            return;
          }
        }
        idx, p := dlnk[idx, NEXT], p + 1;
      }
    }
  }
}
