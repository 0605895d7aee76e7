/** The concurrent cache of util/ecache: buckets chosen by a string hash, each with an
    optional second level. Each method is one locked section. */
module ShardedCache {
  import opened Basics
  import opened RecencyList
  import opened LinkedBucket
  import opened TwoLevel

  /** A stored value is an interface or a byte slice. */
  datatype Value<T> = Value(iface: Option<T>, bytes: seq<bv8>)

  method HashBKRD(s: Text) returns (hash: int)
    ensures hash == Hash(s)
    ensures -0x8000_0000 <= hash < 0x8000_0000 && (hash - Polynomial(s)) % 0x1_0000_0000 == 0
  {
    hash := 0;
    for i := 0 to |s|
      invariant hash == Hash(s[..i])
      invariant -0x8000_0000 <= hash < 0x8000_0000
    {
      assert s[..i + 1][..i] == s[..i];
      hash := Wrap32(Wrap32(hash * 131) + s[i] as int);
    }
    assert s[..|s|] == s;
    HashIsPolynomial(s);
  }

  /** All-ones mask of the smallest power of two that is at least `cap0`. */
  method MaskOfNextPowOf2(cap0: bv16) returns (mask: bv16)
    ensures mask & (mask + 1) == 0
    ensures cap0 <= 1 ==> mask == 0
    ensures cap0 > 1 ==> mask >> 1 < cap0 - 1 <= mask
  {
    var cap := cap0;
    if cap > 0 && cap & (cap - 1) == 0 {
      return cap - 1;
    }
    cap := cap | (cap >> 1);
    cap := cap | (cap >> 2);
    cap := cap | (cap >> 4);
    return cap | (cap >> 8);
  }

  /** `a & b` on two's-complement integers, lowest bit first; halving rounds down, which is
      the arithmetic shift. */
  function And(a: int, b: nat): nat
    decreases b
  {
    if b == 0 then 0 else 2 * And(a / 2, b / 2) + (a % 2) * (b % 2)
  }

  /** Masking with all ones is the remainder, for negative numbers too. */
  lemma {:induction false} MaskIsRemainder(a: int, n: nat)
    requires PowerOfTwo(n)
    ensures And(a, n - 1) == a % n
    decreases n
  {
    if n == 1 {
    } else {
      MaskIsRemainder(a / 2, n / 2);
      assert (n - 1) / 2 == n / 2 - 1;
      Halves(a, n / 2);
    }
  }

  lemma Halves(a: int, m: nat)
    requires m > 0
    ensures 2 * ((a / 2) % m) + a % 2 == a % (2 * m)
  {
    var q, r := (a / 2) / m, (a / 2) % m;
    assert a == 2 * (q * m + r) + a % 2;
    assert a == q * (2 * m) + (2 * r + a % 2);
    UniqueRemainder(a, 2 * m, q, 2 * r + a % 2);
  }

  lemma UniqueRemainder(a: int, d: nat, q: int, r: int)
    requires d > 0 && a == q * d + r && 0 <= r < d
    ensures a % d == r
  {
    var k := a / d - q;
    assert k * d == r - a % d by {
      assert a == (a / d) * d + a % d;
      assert k * d == (a / d) * d - q * d;
    }
    Multiple(k, d);
  }

  lemma Multiple(k: int, d: int)
    requires -d < k * d < d
    ensures k == 0
  {
  }

  predicate PowerOfTwo(n: nat) { n == 1 || (n > 1 && n % 2 == 0 && PowerOfTwo(n / 2)) }

  const POWERS := {1, 2, 4, 8, 16, 32, 64, 128, 256, 512, 1024, 2048, 4096, 8192, 16384, 32768}

  lemma PowersAre(n: nat)
    requires n in POWERS
    ensures PowerOfTwo(n) && n <= 0x8000
  {
    assert PowerOfTwo(1) && PowerOfTwo(2) && PowerOfTwo(4) && PowerOfTwo(8) && PowerOfTwo(16) && PowerOfTwo(32);
    assert PowerOfTwo(64) && PowerOfTwo(128) && PowerOfTwo(256) && PowerOfTwo(512) && PowerOfTwo(1024);
    assert PowerOfTwo(2048) && PowerOfTwo(4096) && PowerOfTwo(8192) && PowerOfTwo(16384) && PowerOfTwo(32768);
  }

  /** The number of buckets, `mask + 1` in 16 bits: a power of two, or 0 on wrap-around. */
  lemma MaskWidth(mask: bv16)
    requires mask & (mask + 1) == 0
    ensures mask == 0xFFFF ==> (mask + 1) as int == 0
    ensures mask != 0xFFFF ==> (mask + 1) as int == mask as int + 1
    ensures mask != 0xFFFF ==> (mask + 1) as int in POWERS
  {
    assert mask in {0, 1, 3, 7, 0xF, 0x1F, 0x3F, 0x7F, 0xFF,
                    0x1FF, 0x3FF, 0x7FF, 0xFFF, 0x1FFF, 0x3FFF, 0x7FFF, 0xFFFF};
  }

  /** One lock's share of the cache: a level-0 bucket and, in LRU-2 mode, a level-1 bucket. */
  class Shard<V(0)> {
    const l0: Bucket<V>
    const l1: Bucket?<V>

    ghost const Repr: set<object>

    ghost predicate Valid()
      reads Repr
    {
      && l0 in Repr && l0.dlnk in Repr && l0.m in Repr
      && (l1 != null ==> l1 in Repr && l1.dlnk in Repr && l1.m in Repr)
      && l0.Valid()
      && (l1 != null ==> l1 != l0 && l1.dlnk != l0.dlnk && l1.m != l0.m && l1.Valid())
    }

    ghost function Contents(): Pair<V>
      requires Valid()
      reads Repr
    {
      Pair(l0.Contents(), if l1 == null then None else Some(l1.Contents()))
    }

    ghost predicate Fits(cfg: Config) {
      && l0.m.Length == cfg.cap0
      && (l1 != null <==> cfg.cap1.Some?)
      && (l1 != null ==> l1.m.Length == cfg.cap1.value)
    }

    constructor (cap0: uint16, cap1: Option<uint16>)
      ensures Valid() && fresh(Repr)
      ensures l0.m.Length == cap0 && (l1 != null <==> cap1.Some?) && (l1 != null ==> l1.m.Length == cap1.value)
      ensures Contents() == Pair([], if cap1.Some? then Some([]) else None)
    {
      var b0 := new Bucket<V>(cap0);
      l0 := b0;
      if cap1.Some? {
        var b1 := new Bucket<V>(cap1.value);
        l1 := b1;
        Repr := {b0, b0.dlnk, b0.m, b1, b1.dlnk, b1.m};
      } else {
        l1 := null;
        Repr := {b0, b0.dlnk, b0.m};
      }
    }

    method Put(k: Text, v: V, expireAt: int, ghost cfg: Config)
      requires Valid() && cfg.Valid() && Fits(cfg)
      modifies Repr
      ensures Valid() && Contents() == PutPair(old(Contents()), cfg, Entry(k, v, expireAt))
    {
      hide RecencyList.Put, Circle, Keyed, Slots, Read;
      var _, _ := l0.Put(k, v, expireAt);
    }

    method GetLevel(b: Bucket<V>, k: Text, expiring: bool, now: int) returns (r: Option<V>)
      requires b.Valid()
      modifies b`order, b.dlnk
      ensures b.Valid() && b.Contents() == RecencyList.Get(old(b.Contents()), k)
      ensures r == Probe(old(b.Contents()), k, expiring, now)
    {
      hide IndexOf, Circle, Keyed, Slots, Read, RecencyList.Get;
      var e := b.Get(k);
      if e.Some? && e.value.expireAt > 0 && (!expiring || now < e.value.expireAt) {
        return Some(e.value.val);
      }
      return None;
    }

    method Get(k: Text, expiring: bool, now: int, ghost cfg: Config) returns (r: Option<V>)
      requires Valid() && cfg.Valid() && Fits(cfg) && cfg.expiring == expiring
      modifies Repr
      ensures Valid() && (Contents(), r) == GetPair(old(Contents()), cfg, k, now)
    {
      hide RecencyList.Put, RecencyList.Get, RecencyList.Del, IndexOf, Probe, Circle, Keyed, Slots, Read;
      if l1 == null {
        r := GetLevel(l0, k, expiring, now);
      } else {
        var x, e := l0.Del(k);
        if x == 0 {
          DelMiss(old(l0.Contents()), k);
          r := GetLevel(l1, k, expiring, now);
        } else {
          var v := l0.m[x - 1].val;
          var _, _ := l1.Put(k, v, e);
          r := Some(v);
        }
      }
    }

    method Walk(walker: Walker<V>, seen: Recency<V>) returns (visited: Recency<V>)
      requires Valid()
      ensures visited == WalkedPair(Contents(), walker, seen)
    {
      hide Circle, Keyed, Slots, Read;
      visited := l0.Walk(walker, seen);
      if l1 != null {
        visited := l1.Walk(walker, visited);
      }
    }

    /** The deleted copy that is reported, if any: the one that would have expired last. */
    method Del(k: Text, nil: V) returns (released: Option<V>)
      requires Valid()
      modifies Repr
      ensures Valid() && Contents() == DelPair(old(Contents()), k, nil)
      ensures var p := old(Contents());
              released == if ReleasesLevel1(p, k) then Some(LiveEntry(p.l1.value, k).value.val)
                          else if LiveEntry(p.l0, k).Some? then Some(LiveEntry(p.l0, k).value.val)
                          else None
    {
      hide RecencyList.Del, LiveEntry, Bucket.Valid, Bucket.Contents;
      released := None;
      var x, e := l0.Del(k);
      if l1 != null {
        var x2, e2 := l1.Del(k);
        if x2 != 0 && (x == 0 || e < e2) {
          released := Some(l1.m[x2 - 1].val);
          l1.Release(x2, nil);
          return;
        }
      }
      if x != 0 {
        released := Some(l0.m[x - 1].val);
        l0.Release(x, nil);
      }
    }
  }

  ghost function Footprint<V(0)>(shards: seq<Shard<V>>): set<object> {
    set s <- shards, o <- s.Repr :: o
  }

  ghost predicate AllFit<V(0)>(shards: seq<Shard<V>>, cfg: Config)
    reads Footprint(shards)
  {
    forall i :: 0 <= i < |shards| ==> shards[i].Valid() && shards[i].Fits(cfg)
  }

  /** No two shards share an object. */
  ghost predicate Separate<V(0)>(shards: seq<Shard<V>>) {
    forall i, j :: 0 <= i < j < |shards| ==> shards[i].Repr !! shards[j].Repr
  }

  lemma FootprintAppended<V(0)>(shards: seq<Shard<V>>, s: Shard<V>)
    ensures Footprint(shards + [s]) == Footprint(shards) + s.Repr
  {
    assert forall t :: t in shards + [s] <==> t in shards || t == s;
  }

  lemma ReprsIn<V(0)>(shards: seq<Shard<V>>)
    ensures forall i :: 0 <= i < |shards| ==> shards[i].Repr <= Footprint(shards)
  {
  }

  ghost function EmptyPair<V>(lru2: bool): Pair<V> {
    Pair([], if lru2 then Some([]) else None)
  }

  /** Allocates the buckets; all of them are empty and disjoint. */
  method MakeShards<V(0)>(n: nat, cap0: uint16, cap1: Option<uint16>, ghost cfg: Config) returns (made: seq<Shard<V>>)
    requires cfg.cap0 == cap0 && cfg.cap1 == cap1
    ensures |made| == n && fresh(Footprint(made)) && Separate(made) && AllFit(made, cfg)
    ensures forall i :: 0 <= i < n ==> made[i].Contents() == EmptyPair(cap1.Some?)
  {
    hide Shard.Valid, Shard.Contents;
    made := [];
    while |made| < n
      invariant |made| <= n && fresh(Footprint(made)) && Separate(made) && AllFit(made, cfg)
      invariant forall i :: 0 <= i < |made| ==> made[i].Contents() == EmptyPair(cap1.Some?)
    {
      made := MakeShard(made, cap0, cap1, cfg);
    }
  }

  method MakeShard<V(0)>(made: seq<Shard<V>>, cap0: uint16, cap1: Option<uint16>, ghost cfg: Config)
    returns (more: seq<Shard<V>>)
    requires cfg.cap0 == cap0 && cfg.cap1 == cap1
    requires Separate(made) && AllFit(made, cfg)
    requires forall i :: 0 <= i < |made| ==> made[i].Contents() == EmptyPair(cap1.Some?)
    ensures |more| == |made| + 1 && Separate(more) && AllFit(more, cfg)
    ensures fresh(Footprint(more) - Footprint(made))
    ensures forall i :: 0 <= i < |more| ==> more[i].Contents() == EmptyPair(cap1.Some?)
  {
    hide Shard.Valid, Shard.Contents, Footprint;
    ReprsIn(made);
    var s := new Shard<V>(cap0, cap1);
    FootprintAppended(made, s);
    more := made + [s];
    forall i | 0 <= i < |made|
      ensures made[i].Repr !! s.Repr
    {
      assert made[i].Repr <= Footprint(made);
    }
  }

  /** The mask and, in 16 bits, the number of buckets. */
  method BucketCount(bucketCnt: bv16) returns (mask: int, n: nat)
    ensures bucketCnt > 0x8000 <==> n == 0
    ensures n > 0 ==> mask + 1 == n
    ensures n > 0 ==> n <= 0x8000 && PowerOfTwo(n)
    ensures bucketCnt == 16 ==> n == 16
  {
    var m := MaskOfNextPowOf2(bucketCnt);
    MaskWidth(m);
    mask, n := m as int, (m + 1) as int;
    if n > 0 { PowersAre(n); }
  }

  class Cache<T> {
    const shards: seq<Shard<Value<T>>>
    const mask: int
    const expiration: int64
    ghost const cfg: Config

    ghost predicate Valid()
      reads Footprint(shards)
    {
      && |shards| == cfg.buckets
      && cfg.expiring == (expiration > 0)
      && (shards != [] ==> mask + 1 == |shards| && PowerOfTwo(|shards|))
      && AllFit(shards, cfg)
      && Separate(shards)
    }

    /** The two recency lists of every bucket. */
    ghost function Contents(): (s: seq<Pair<Value<T>>>)
      requires Valid()
      reads Footprint(shards)
      ensures ShapeOf(s, cfg)
      ensures forall b :: 0 <= b < |s| ==> s[b] == shards[b].Contents()
    {
      seq(|shards|, b requires 0 <= b < |shards| && shards[b].Valid() reads Footprint(shards) => shards[b].Contents())
    }

    /** `bucketCnt` is rounded up to a power of two; above 32768 no bucket is left, since the
        count is kept in 16 bits. `cap1` is the LRU-2 capacity, if that mode is chosen. */
    constructor (bucketCnt: bv16, capPerBkt: uint16, cap1: Option<uint16>, expiration: int64)
      ensures Valid() && fresh(Footprint(shards))
      ensures cfg == Config(|shards|, capPerBkt, cap1, expiration > 0) && this.expiration == expiration
      ensures bucketCnt > 0x8000 <==> |shards| == 0
      ensures bucketCnt <= 0x8000 ==> |shards| <= 0x8000 && PowerOfTwo(|shards|)
      ensures bucketCnt == 16 ==> |shards| == 16
      ensures Contents() == Initial(cfg)
    {
      hide Shard.Valid, Shard.Contents, Separate;
      var mask, n := BucketCount(bucketCnt);
      ghost var c := Config(n, capPerBkt, cap1, expiration > 0);
      var made := MakeShards<Value<T>>(n, capPerBkt, cap1, c);
      this.shards, this.mask, this.expiration := made, mask, expiration;
      this.cfg := c;
    }

    method Put(key: Text, v: Value<T>, now: int64)
      requires Valid() && cfg.Valid()
      modifies Footprint(shards)
      ensures Valid()
      ensures var e := Entry(key, v, Wrap64(now + expiration));
              Contents() == Step(old(Contents()), cfg, PutCall(e), Value(None, []))
    {
      hide PutPair, Separate, BucketOf, Circle, Keyed, Slots, Read;
      var idx := Index(key);
      shards[idx].Put(key, v, Wrap64(now + expiration), cfg);
      Only(idx);
    }

    method Lookup(key: Text, now: int) returns (r: Option<Value<T>>)
      requires Valid() && cfg.Valid()
      modifies Footprint(shards)
      ensures Valid()
      ensures Contents() == Step(old(Contents()), cfg, GetCall(key, now), Value(None, []))
      ensures r == GetPair(old(Contents())[BucketOf(key, cfg.buckets)], cfg, key, now).1
    {
      hide GetPair, Separate, BucketOf, Circle, Keyed, Slots, Read;
      var idx := Index(key);
      r := shards[idx].Get(key, expiration > 0, now, cfg);
      Only(idx);
    }

    /** A hit on a value that was put as bytes is no hit here. */
    method Get(key: Text, now: int) returns (r: Option<T>)
      requires Valid() && cfg.Valid()
      modifies Footprint(shards)
      ensures Valid()
      ensures Contents() == Step(old(Contents()), cfg, GetCall(key, now), Value(None, []))
      ensures r == match GetPair(old(Contents())[BucketOf(key, cfg.buckets)], cfg, key, now).1
                   case Some(v) => v.iface
                   case None => None
    {
      hide Step, GetPair;
      var v := Lookup(key, now);
      r := if v.Some? then v.value.iface else None;
    }

    method Del(key: Text)
      requires Valid() && cfg.Valid()
      modifies Footprint(shards)
      ensures Valid()
      ensures Contents() == Step(old(Contents()), cfg, DelCall(key), Value(None, []))
    {
      hide DelPair, Separate, BucketOf, Circle, Keyed, Slots, Read;
      var idx := Index(key);
      var _ := shards[idx].Del(key, Value(None, []));
      Only(idx);
    }

    method Index(key: Text) returns (idx: nat)
      requires Valid() && cfg.Valid()
      ensures idx == BucketOf(key, |shards|) && idx < |shards|
    {
      var hash := HashBKRD(key);
      MaskIsRemainder(hash, |shards|);
      idx := And(hash, mask);
    }

    /** A change inside one shard is a change of one bucket. */
    twostate lemma Only(idx: nat)
      requires old(Valid()) && idx < |shards| && shards[idx].Valid()
      requires forall o :: o in Footprint(shards) && o !in shards[idx].Repr ==> unchanged(o)
      ensures Valid()
      ensures Contents() == old(Contents())[idx := shards[idx].Contents()]
    {
      forall i | 0 <= i < |shards| && i != idx
        ensures shards[i].Valid() && shards[i].Contents() == old(shards[i].Contents())
      {
        assert shards[i].Repr !! shards[idx].Repr;
        assert forall o :: o in shards[i].Repr ==> o in Footprint(shards);
      }
    }

    /** Walks every bucket, level 0 before level 1; `false` ends the walk of one level only. */
    method Walk(walker: Walker<Value<T>>) returns (visited: Recency<Value<T>>)
      requires Valid()
      ensures visited == WalkedAll(Contents(), walker, |shards|)
    {
      hide WalkedPair, Shard.Valid, Shard.Contents, Separate;
      visited := [];
      ghost var s := Contents();
      for i := 0 to |shards|
        invariant Valid() && Contents() == s
        invariant visited == WalkedAll(s, walker, i)
      {
        visited := shards[i].Walk(walker, visited);
      }
    }
  }

  // ---------- what a walk visits ----------

  /** A bucket's level 1, empty without LRU-2. */
  function Level1<V>(p: Pair<V>): Recency<V> { if p.l1.Some? then p.l1.value else [] }

  function WalkedPair<V>(p: Pair<V>, walker: Walker<V>, seen: Recency<V>): Recency<V> {
    Walked(Level1(p), walker, Walked(p.l0, walker, seen))
  }

  /** The entries a walk visits in the first `n` buckets. */
  function WalkedAll<V>(s: seq<Pair<V>>, walker: Walker<V>, n: nat): Recency<V>
    requires n <= |s|
  {
    if n == 0 then [] else WalkedPair(s[n - 1], walker, WalkedAll(s, walker, n - 1))
  }

  /** Bucket `b` contributes the live entries of its level 0 and then those of its level 1,
      each in recency order and each in full or up to the first refusal there; what came
      before stays in front. */
  lemma {:induction false} WalkAllVisits<V>(s: seq<Pair<V>>, walker: Walker<V>, n: nat, b: nat)
    requires b < n <= |s|
    ensures var before, after := WalkedAll(s, walker, b), WalkedAll(s, walker, b + 1);
            && after <= WalkedAll(s, walker, n)
            && exists mid :: && Visits(LiveFrom(s[b].l0), walker, before, mid)
                             && Visits(LiveFrom(Level1(s[b])), walker, mid, after)
  {
    hide Walked, LiveFrom, Visits;
    var before, after := WalkedAll(s, walker, n - 1), WalkedAll(s, walker, n);
    var mid := Walked(s[n - 1].l0, walker, before);
    WalkVisits(s[n - 1].l0, walker, before, 0);
    WalkVisits(Level1(s[n - 1]), walker, mid, 0);
    if b < n - 1 {
      WalkAllVisits(s, walker, n - 1, b);
      VisitsExtend(LiveFrom(s[n - 1].l0), walker, before, mid);
      VisitsExtend(LiveFrom(Level1(s[n - 1])), walker, mid, after);
    }
  }

  /** A walker that never refuses is called on exactly the live entries of all buckets. */
  lemma {:induction false} FullWalk<V>(s: seq<Pair<V>>, walker: Walker<V>, n: nat, e: Entry<V>)
    requires n <= |s| && forall seen :: walker(seen)
    ensures e in WalkedAll(s, walker, n) <==>
            e.Live() && exists b :: 0 <= b < n && (e in s[b].l0 || e in Level1(s[b]))
  {
    if n == 0 {
    } else {
      FullWalk(s, walker, n - 1, e);
      var p, before := s[n - 1], WalkedAll(s, walker, n - 1);
      WalkVisits(p.l0, walker, before, 0);
      WalkVisits(Level1(p), walker, Walked(p.l0, walker, before), 0);
      LiveFromElements(p.l0, 0, e);
      LiveFromElements(Level1(p), 0, e);
      assert WalkedAll(s, walker, n) == before + LiveFrom(p.l0) + LiveFrom(Level1(p));
      assert p.l0[0..] == p.l0 && Level1(p)[0..] == Level1(p);
    }
  }
}
