/** One bucket of the cache with its optional second level, as recency lists, and what
    whole runs of Put, Get and Del over all buckets can return. */
module TwoLevel {
  import opened Basics
  import opened RecencyList

  /** Level 0 is the normal LRU list; level 1 is present in LRU-2 mode. */
  datatype Pair<V> = Pair(l0: Recency<V>, l1: Option<Recency<V>>)

  /** The number of buckets, the capacities of the two levels and whether entries expire. */
  datatype Config = Config(buckets: nat, cap0: nat, cap1: Option<nat>, expiring: bool) {
    predicate Valid() { buckets > 0 && cap0 > 0 && (cap1.Some? ==> cap1.value > 0) }
  }

  function Wrap32(x: int): int { (x + 0x8000_0000) % 0x1_0000_0000 - 0x8000_0000 }

  /** The string hash, in 32-bit signed arithmetic. */
  function Hash(s: Text): int {
    if s == [] then 0 else Wrap32(Wrap32(Hash(s[..|s| - 1]) * 131) + s[|s| - 1] as int)
  }

  /** The low bits of the hash, when `n` is a power of two. */
  function BucketOf(k: Text, n: nat): (i: nat)
    requires n > 0
    ensures i < n
  {
    Hash(k) % n
  }

  /** The bucket is what is left of the hash after whole multiples of `n`. */
  lemma BucketIsLow(k: Text, n: nat)
    requires n > 0
    ensures Hash(k) == (Hash(k) / n) * n + BucketOf(k, n)
  {
    hide Hash;
    QuotientRemainder(Hash(k), n);
  }

  predicate Fresh<V>(e: Entry<V>, expiring: bool, now: int) {
    e.Live() && (!expiring || now < e.expireAt)
  }

  /** The value that a look-up in one level finds. */
  function Probe<V>(l: Recency<V>, k: Text, expiring: bool, now: int): Option<V> {
    match Lookup(l, k)
    case Some(e) => if Fresh(e, expiring, now) then Some(e.val) else None
    case None => None
  }

  function PutPair<V>(p: Pair<V>, cfg: Config, e: Entry<V>): Pair<V>
    requires cfg.Valid()
  {
    p.(l0 := Put(p.l0, cfg.cap0, e))
  }

  function GetPair<V>(p: Pair<V>, cfg: Config, k: Text, now: int): (Pair<V>, Option<V>)
    requires cfg.Valid() && (p.l1.Some? <==> cfg.cap1.Some?)
  {
    match p.l1
    case None => (p.(l0 := Get(p.l0, k)), Probe(p.l0, k, cfg.expiring, now))
    case Some(l1) =>
      match LiveEntry(p.l0, k)
      case Some(e) => (Pair(Del(p.l0, k), Some(Put(l1, cfg.cap1.value, e))), Some(e.val))
      case None => (p.(l1 := Some(Get(l1, k))), Probe(l1, k, cfg.expiring, now))
  }

  /** Whether Del reports, and releases, the level-1 copy of `k`. */
  predicate ReleasesLevel1<V>(p: Pair<V>, k: Text) {
    && p.l1.Some? && LiveEntry(p.l1.value, k).Some?
    && (LiveEntry(p.l0, k).None? || LiveEntry(p.l0, k).value.expireAt < LiveEntry(p.l1.value, k).value.expireAt)
  }

  function ReleaseTail<V>(l: Recency<V>, nil: V): Recency<V>
    requires l != []
  {
    l[|l| - 1 := l[|l| - 1].(val := nil)]
  }

  function DelLevel<V>(l: Recency<V>, k: Text, release: bool, nil: V): Recency<V> {
    if release && LiveEntry(l, k).Some? then ReleaseTail(Del(l, k), nil) else Del(l, k)
  }

  function DelPair<V>(p: Pair<V>, k: Text, nil: V): Pair<V> {
    Pair(DelLevel(p.l0, k, !ReleasesLevel1(p, k), nil),
         if p.l1.None? then None else Some(DelLevel(p.l1.value, k, ReleasesLevel1(p, k), nil)))
  }

  // ---------- runs ----------

  datatype Call<V> = PutCall(e: Entry<V>) | GetCall(k: Text, now: int) | DelCall(k: Text) {
    function Key(): Text { match this case PutCall(e) => e.key case GetCall(k, _) => k case DelCall(k) => k }
  }

  function StepPair<V>(p: Pair<V>, cfg: Config, call: Call<V>, nil: V): Pair<V>
    requires cfg.Valid() && (p.l1.Some? <==> cfg.cap1.Some?)
  {
    match call
    case PutCall(e) => PutPair(p, cfg, e)
    case GetCall(k, now) => GetPair(p, cfg, k, now).0
    case DelCall(k) => DelPair(p, k, nil)
  }

  ghost predicate ShapeOf<V>(s: seq<Pair<V>>, cfg: Config) {
    |s| == cfg.buckets && forall b :: 0 <= b < |s| ==> (s[b].l1.Some? <==> cfg.cap1.Some?)
  }

  /** All buckets after one call: only the bucket of the call's key changes. */
  function Step<V>(s: seq<Pair<V>>, cfg: Config, call: Call<V>, nil: V): (s': seq<Pair<V>>)
    requires cfg.Valid() && ShapeOf(s, cfg)
    ensures ShapeOf(s', cfg)
  {
    var b := BucketOf(call.Key(), cfg.buckets);
    s[b := StepPair(s[b], cfg, call, nil)]
  }

  function Initial<V>(cfg: Config): (s: seq<Pair<V>>)
    ensures ShapeOf(s, cfg)
  {
    seq(cfg.buckets, _ => Pair([], if cfg.cap1.Some? then Some([]) else None))
  }

  function Run<V>(cfg: Config, calls: seq<Call<V>>, nil: V): (s: seq<Pair<V>>)
    requires cfg.Valid()
    ensures ShapeOf(s, cfg)
  {
    if calls == [] then Initial(cfg) else Step(Run(cfg, calls[..|calls| - 1], nil), cfg, calls[|calls| - 1], nil)
  }

  /** The entry of the latest put of `k`, if no deletion of `k` came after it. */
  function LatestPut<V>(calls: seq<Call<V>>, k: Text): Option<Entry<V>> {
    if calls == [] then None else
      match calls[|calls| - 1]
      case PutCall(e) => if e.key == k then Some(e) else LatestPut(calls[..|calls| - 1], k)
      case GetCall(_, _) => LatestPut(calls[..|calls| - 1], k)
      case DelCall(k') => if k' == k then None else LatestPut(calls[..|calls| - 1], k)
  }

  /** The entries put under `k` since the latest deletion of `k`, oldest first. */
  function PutsSinceDel<V>(calls: seq<Call<V>>, k: Text): seq<Entry<V>> {
    if calls == [] then [] else
      match calls[|calls| - 1]
      case PutCall(e) => PutsSinceDel(calls[..|calls| - 1], k) + (if e.key == k then [e] else [])
      case GetCall(_, _) => PutsSinceDel(calls[..|calls| - 1], k)
      case DelCall(k') => if k' == k then [] else PutsSinceDel(calls[..|calls| - 1], k)
  }

  /** What the history says about the live entries of a bucket. */
  ghost predicate Sound<V>(p: Pair<V>, calls: seq<Call<V>>) {
    && DistinctKeys(p.l0)
    && (forall e :: e in p.l0 && e.Live() ==> LatestPut(calls, e.key) == Some(e))
    && (p.l1.Some? ==>
          && DistinctKeys(p.l1.value)
          && forall e :: e in p.l1.value && e.Live() ==> e in PutsSinceDel(calls, e.key))
  }

  lemma PutElements<V>(l: Recency<V>, cap: nat, e: Entry<V>)
    requires cap > 0 && DistinctKeys(l)
    ensures DistinctKeys(Put(l, cap, e))
    ensures forall x :: x in Put(l, cap, e) ==> x == e || (x in l && x.key != e.key)
    ensures LiveEntry(Put(l, cap, e), e.key) == if e.Live() then Some(e) else None
  {
  }

  lemma GetElements<V>(l: Recency<V>, k: Text)
    requires DistinctKeys(l)
    ensures DistinctKeys(Get(l, k))
    ensures forall x :: x in Get(l, k) <==> x in l
  {
    var i, r := IndexOf(l, k), Get(l, k);
    hide IndexOf;
    if i < |l| {
      assert forall p :: 0 <= p < |l| ==> r[p] == l[if p == 0 then i else if p <= i then p - 1 else p];
      forall x | x in l
        ensures x in r
      {
        var j :| 0 <= j < |l| && l[j] == x;
        assert r[if j == i then 0 else if j < i then j + 1 else j] == x;
      }
    }
  }

  /** Taking out position `i` and putting a dead entry of the same key at the end. */
  lemma SunkElements<V>(l: Recency<V>, i: nat, d: Entry<V>)
    requires DistinctKeys(l) && i < |l| && l[i].key == d.key && !d.Live()
    ensures DistinctKeys(l[..i] + l[i + 1..] + [d])
    ensures forall x :: x in l[..i] + l[i + 1..] + [d] ==> x == d || (x in l && x.key != d.key)
  {
    var r := l[..i] + l[i + 1..] + [d];
    assert forall j :: 0 <= j < |r| ==> r[j] == if j < i then l[j] else if j < |l| - 1 then l[j + 1] else d;
  }

  lemma DelElements<V>(l: Recency<V>, k: Text)
    requires DistinctKeys(l)
    ensures DistinctKeys(Del(l, k))
    ensures forall x :: x in Del(l, k) ==> if x.key == k then !x.Live() else x in l
    ensures LiveEntry(l, k).Some? ==>
              |Del(l, k)| == |l| > 0 && Del(l, k)[|l| - 1].key == k && !Del(l, k)[|l| - 1].Live()
  {
    hide DistinctKeys;
    var i := IndexOf(l, k);
    if i < |l| && l[i].Live() {
      var d := l[i].(expireAt := 0);
      assert Del(l, k) == l[..i] + l[i + 1..] + [d];
      SunkElements(l, i, d);
    } else {
      DistinctAt(l, k);
    }
  }

  lemma DistinctAt<V>(l: Recency<V>, k: Text)
    requires DistinctKeys(l)
    ensures forall x :: x in l && x.key == k ==> Stored(l, k) && x == l[IndexOf(l, k)]
  {
    forall x | x in l && x.key == k
      ensures Stored(l, k) && x == l[IndexOf(l, k)]
    {
      var j :| 0 <= j < |l| && l[j] == x;
      IndexOfUnique(l, k, j);
    }
  }

  lemma DelLevelElements<V>(l: Recency<V>, k: Text, release: bool, nil: V)
    requires DistinctKeys(l)
    ensures DistinctKeys(DelLevel(l, k, release, nil))
    ensures forall x :: x in DelLevel(l, k, release, nil) ==> if x.key == k then !x.Live() else x in l
  {
    hide Del, IndexOf;
    DelElements(l, k);
    var d, r := Del(l, k), DelLevel(l, k, release, nil);
    forall x | x in r
      ensures if x.key == k then !x.Live() else x in l
    {
      var j :| 0 <= j < |r| && r[j] == x;
      assert d[j] in d && d[j].key == x.key;
    }
  }

  // One lemma for each call: what it does to a sound bucket.

  lemma SoundPut<V>(p: Pair<V>, cfg: Config, calls: seq<Call<V>>, e: Entry<V>)
    requires cfg.Valid() && Sound(p, calls)
    ensures Sound(PutPair(p, cfg, e), calls + [PutCall(e)])
  {
    hide Put, IndexOf;
    assert (calls + [PutCall(e)])[..|calls|] == calls;
    PutElements(p.l0, cfg.cap0, e);
  }

  lemma SoundGet<V>(p: Pair<V>, cfg: Config, calls: seq<Call<V>>, k: Text, now: int)
    requires cfg.Valid() && Sound(p, calls) && (p.l1.Some? <==> cfg.cap1.Some?)
    ensures Sound(GetPair(p, cfg, k, now).0, calls + [GetCall(k, now)])
  {
    hide Put, Get, Del;
    var p', calls' := GetPair(p, cfg, k, now).0, calls + [GetCall(k, now)];
    assert calls'[..|calls|] == calls;
    GetElements(p.l0, k);
    DelElements(p.l0, k);
    if p.l1.None? {
      assert Sound(p', calls');
    } else {
      GetElements(p.l1.value, k);
      if LiveEntry(p.l0, k).Some? {
        var e := LiveEntry(p.l0, k).value;
        assert e in p.l0;
        LatestIsSince(calls, k);
        PutElements(p.l1.value, cfg.cap1.value, e);
      }
      assert Sound(p', calls');
    }
  }

  lemma SoundDel<V>(p: Pair<V>, calls: seq<Call<V>>, k: Text, nil: V)
    requires Sound(p, calls)
    ensures Sound(DelPair(p, k, nil), calls + [DelCall(k)])
  {
    hide DelLevel;
    assert (calls + [DelCall(k)])[..|calls|] == calls;
    DelLevelElements(p.l0, k, !ReleasesLevel1(p, k), nil);
    if p.l1.Some? {
      DelLevelElements(p.l1.value, k, ReleasesLevel1(p, k), nil);
    }
  }

  lemma {:induction false} LatestIsSince<V>(calls: seq<Call<V>>, k: Text)
    ensures var latest, puts := LatestPut(calls, k), PutsSinceDel(calls, k);
            latest.Some? ==> latest.value in puts && latest.value == puts[|puts| - 1]
    ensures LatestPut(calls, k).None? ==> PutsSinceDel(calls, k) == []
  {
    if calls == [] {
    } else {
      LatestIsSince(calls[..|calls| - 1], k);
    }
  }

  /** Every key is kept in the bucket it hashes to. */
  ghost predicate Home<V>(p: Pair<V>, n: nat, b: nat)
    requires n > 0
  {
    && (forall e :: e in p.l0 ==> BucketOf(e.key, n) == b)
    && (p.l1.Some? ==> forall e :: e in p.l1.value ==> BucketOf(e.key, n) == b)
  }

  lemma StepHome<V>(p: Pair<V>, cfg: Config, calls: seq<Call<V>>, call: Call<V>, nil: V)
    requires cfg.Valid() && Sound(p, calls) && (p.l1.Some? <==> cfg.cap1.Some?)
    requires Home(p, cfg.buckets, BucketOf(call.Key(), cfg.buckets))
    ensures Home(StepPair(p, cfg, call, nil), cfg.buckets, BucketOf(call.Key(), cfg.buckets))
  {
    hide Put, Get, Del, DelLevel, BucketOf;
    match call
    case PutCall(e) =>
      PutElements(p.l0, cfg.cap0, e);
    case GetCall(k, now) =>
      var p', n := GetPair(p, cfg, k, now).0, cfg.buckets;
      GetElements(p.l0, k);
      DelElements(p.l0, k);
      if p.l1.None? {
        assert Home(p', n, BucketOf(k, n));
      } else {
        GetElements(p.l1.value, k);
        if LiveEntry(p.l0, k).Some? {
          PutElements(p.l1.value, cfg.cap1.value, LiveEntry(p.l0, k).value);
        }
        assert Home(p', n, BucketOf(k, n));
      }
    case DelCall(k) =>
      DelLevelElements(p.l0, k, !ReleasesLevel1(p, k), nil);
      if p.l1.Some? {
        DelLevelElements(p.l1.value, k, ReleasesLevel1(p, k), nil);
      }
  }

  lemma StepSound<V>(p: Pair<V>, cfg: Config, calls: seq<Call<V>>, call: Call<V>, nil: V)
    requires cfg.Valid() && Sound(p, calls) && (p.l1.Some? <==> cfg.cap1.Some?)
    ensures Sound(StepPair(p, cfg, call, nil), calls + [call])
  {
    hide Sound, PutPair, GetPair, DelPair;
    match call
    case PutCall(e) => SoundPut(p, cfg, calls, e);
    case GetCall(k, now) => SoundGet(p, cfg, calls, k, now);
    case DelCall(k) => SoundDel(p, calls, k, nil);
  }

  /** A call for another bucket leaves this bucket sound. */
  lemma OtherBucket<V>(p: Pair<V>, calls: seq<Call<V>>, call: Call<V>, n: nat, b: nat)
    requires n > 0 && Sound(p, calls) && Home(p, n, b) && b != BucketOf(call.Key(), n)
    ensures Sound(p, calls + [call])
  {
    assert (calls + [call])[..|calls|] == calls;
  }

  /** After any run over all buckets: every key is in its own bucket, a live level-0 entry
      is the latest put of its key, and a live level-1 entry was put since its key's latest
      deletion. */
  lemma {:induction false} RunSound<V>(cfg: Config, calls: seq<Call<V>>, nil: V)
    requires cfg.Valid()
    ensures forall b :: 0 <= b < cfg.buckets ==>
              Sound(Run(cfg, calls, nil)[b], calls) && Home(Run(cfg, calls, nil)[b], cfg.buckets, b)
  {
    if calls == [] {
    } else {
      hide Sound, Home, StepPair, BucketOf;
      var before, call := calls[..|calls| - 1], calls[|calls| - 1];
      RunSound(cfg, before, nil);
      var s, c := Run(cfg, before, nil), BucketOf(call.Key(), cfg.buckets);
      assert before + [call] == calls;
      forall b | 0 <= b < cfg.buckets
        ensures Sound(Run(cfg, calls, nil)[b], calls) && Home(Run(cfg, calls, nil)[b], cfg.buckets, b)
      {
        if b == c {
          StepSound(s[b], cfg, before, call, nil);
          StepHome(s[b], cfg, before, call, nil);
        } else {
          OtherBucket(s[b], before, call, cfg.buckets, b);
        }
      }
    }
  }

  /** Every hit returns a value put under that key since its latest deletion. Without a
      second level it is the latest one. */
  lemma HitSound<V>(cfg: Config, calls: seq<Call<V>>, nil: V, k: Text, now: int)
    requires cfg.Valid()
    ensures var p := Run(cfg, calls, nil)[BucketOf(k, cfg.buckets)];
            var r := GetPair(p, cfg, k, now).1;
            && (r.Some? ==> exists e :: e in PutsSinceDel(calls, k) && e.val == r.value)
            && (r.Some? && cfg.cap1.None? ==> LatestPut(calls, k).Some? && r.value == LatestPut(calls, k).value.val)
  {
    RunSound(cfg, calls, nil);
    LatestIsSince(calls, k);
    var p := Run(cfg, calls, nil)[BucketOf(k, cfg.buckets)];
    var r := GetPair(p, cfg, k, now).1;
    hide Run, BucketOf, PutsSinceDel, LatestPut, Probe;
    if r.Some? {
      if p.l1.None? || LiveEntry(p.l0, k).Some? {
        var e := Hit(p.l0, k, cfg.expiring, now);
      } else {
        var e := Hit(p.l1.value, k, cfg.expiring, now);
      }
    }
  }

  lemma Hit<V>(l: Recency<V>, k: Text, expiring: bool, now: int) returns (e: Entry<V>)
    requires Probe(l, k, expiring, now).Some? || LiveEntry(l, k).Some?
    ensures e in l && e.Live() && e.key == k
    ensures LiveEntry(l, k) == Some(e)
    ensures Probe(l, k, expiring, now).Some? ==> Probe(l, k, expiring, now).value == e.val
  {
    e := l[IndexOf(l, k)];
  }

  /** Promotion: a key that is live in level 0 is hit with its latest value, and the hit
      leaves it dead in level 0 and live, with that value, in level 1. */
  lemma HitPromotes<V>(cfg: Config, calls: seq<Call<V>>, nil: V, k: Text, now: int)
    requires cfg.Valid() && cfg.cap1.Some?
    requires LiveEntry(Run(cfg, calls, nil)[BucketOf(k, cfg.buckets)].l0, k).Some?
    ensures var p := Run(cfg, calls, nil)[BucketOf(k, cfg.buckets)];
            var (p', r) := GetPair(p, cfg, k, now);
            && LatestPut(calls, k).Some? && r == Some(LatestPut(calls, k).value.val)
            && Stored(p'.l0, k) && LiveEntry(p'.l0, k) == None
            && p'.l1.Some? && LiveEntry(p'.l1.value, k) == LatestPut(calls, k)
  {
    RunSound(cfg, calls, nil);
    var p := Run(cfg, calls, nil)[BucketOf(k, cfg.buckets)];
    hide Run, BucketOf, LatestPut, GetPair, DistinctKeys;
    var e := Hit(p.l0, k, false, now);
    Promotes(p, cfg, k, now);
  }

  lemma Promotes<V>(p: Pair<V>, cfg: Config, k: Text, now: int)
    requires cfg.Valid() && cfg.cap1.Some? && p.l1.Some? && DistinctKeys(p.l0) && DistinctKeys(p.l1.value)
    requires LiveEntry(p.l0, k).Some?
    ensures var (p', r) := GetPair(p, cfg, k, now);
            && r == Some(LiveEntry(p.l0, k).value.val)
            && Stored(p'.l0, k) && LiveEntry(p'.l0, k) == None
            && p'.l1.Some? && LiveEntry(p'.l1.value, k) == LiveEntry(p.l0, k)
  {
    var e := Hit(p.l0, k, false, now);
    hide Del, Put, IndexOf;
    DelElements(p.l0, k);
    PutElements(p.l1.value, cfg.cap1.value, e);
    var d := Del(p.l0, k);
    IndexOfUnique(d, k, |d| - 1);
  }

  /** One more call when there is only one bucket. */
  lemma RunMore<V>(cfg: Config, calls: seq<Call<V>>, call: Call<V>, nil: V, p: Pair<V>)
    requires cfg.Valid() && cfg.buckets == 1 && Run(cfg, calls, nil) == [p]
    ensures ShapeOf([p], cfg) && [p][0] == p && (p.l1.Some? <==> cfg.cap1.Some?)
    ensures Run(cfg, calls + [call], nil) == [StepPair(p, cfg, call, nil)]
  {
    assert (calls + [call])[..|calls|] == calls;
    assert BucketOf(call.Key(), 1) == 0;
  }

  /** In LRU-2 mode a hit need not return the latest value: once the newer level-0 entry has
      been evicted, an older value reappears from level 1. Here with room for one entry. */
  lemma OlderValueReappears<V>(first: Entry<V>, second: Entry<V>, other: Entry<V>, nil: V, now: int)
    requires first.Live() && second.Live() && other.Live()
    requires first.key == second.key != other.key
    ensures var cfg := Config(1, 1, Some(1), false);
            var calls := [PutCall(first), GetCall(first.key, now), PutCall(second), PutCall(other)];
            && LatestPut(calls, first.key) == Some(second)
            && GetPair(Run(cfg, calls, nil)[BucketOf(first.key, 1)], cfg, first.key, now).1 == Some(first.val)
  {
    hide StepPair, GetPair, Run, BucketOf, LatestPut;
    var cfg, k := Config(1, 1, Some(1), false), first.key;
    var c1, c2, c3, c4 := PutCall(first), GetCall(k, now), PutCall(second), PutCall(other);
    var dead := first.(expireAt := 0);
    ReappearingPairs(cfg, first, second, other, nil, now);
    EmptyRun<V>(cfg, nil);
    RunMore(cfg, [], c1, nil, Pair([], Some([])));
    assert [] + [c1] == [c1];
    RunMore(cfg, [c1], c2, nil, Pair([first], Some([])));
    RunMore(cfg, [c1] + [c2], c3, nil, Pair([dead], Some([first])));
    RunMore(cfg, [c1] + [c2] + [c3], c4, nil, Pair([second], Some([first])));
    assert [c1] + [c2] + [c3] + [c4] == [c1, c2, c3, c4];
    LatestOfFour(c1, c2, c3, c4, k);
  }

  lemma EmptyRun<V>(cfg: Config, nil: V)
    requires cfg.Valid() && cfg.buckets == 1 && cfg.cap1.Some?
    ensures Run<V>(cfg, [], nil) == [Pair([], Some([]))]
  {
  }

  lemma LatestOfFour<V>(c1: Call<V>, c2: Call<V>, c3: Call<V>, c4: Call<V>, k: Text)
    requires c3.PutCall? && c3.e.key == k && c4.PutCall? && c4.e.key != k
    ensures LatestPut([c1, c2, c3, c4], k) == Some(c3.e)
  {
    assert [c1, c2, c3, c4][..3] == [c1, c2, c3];
  }

  /** The bucket of that run, one call after the other. */
  lemma ReappearingPairs<V>(cfg: Config, first: Entry<V>, second: Entry<V>, other: Entry<V>, nil: V, now: int)
    requires cfg == Config(1, 1, Some(1), false)
    requires first.Live() && second.Live() && other.Live() && first.key == second.key != other.key
    ensures var dead := first.(expireAt := 0);
            && StepPair(Pair([], Some([])), cfg, PutCall(first), nil) == Pair([first], Some([]))
            && StepPair(Pair([first], Some([])), cfg, GetCall(first.key, now), nil) == Pair([dead], Some([first]))
            && StepPair(Pair([dead], Some([first])), cfg, PutCall(second), nil) == Pair([second], Some([first]))
            && StepPair(Pair([second], Some([first])), cfg, PutCall(other), nil) == Pair([other], Some([first]))
            && GetPair(Pair([other], Some([first])), cfg, first.key, now).1 == Some(first.val)
  {
  }

  // ---------- the string hash ----------

  function Pow131(n: nat): nat { if n == 0 then 1 else 131 * Pow131(n - 1) }

  /** The sum of s[i] * 131^(n - 1 - i). */
  function Polynomial(s: Text): nat {
    if s == [] then 0 else s[0] as nat * Pow131(|s| - 1) + Polynomial(s[1..])
  }

  /** Appending a byte multiplies by 131 and adds it. */
  lemma {:induction false} PolynomialAppend(s: Text, b: bv8)
    ensures Polynomial(s + [b]) == 131 * Polynomial(s) + b as nat
  {
    if s == [] {
      assert [b][1..] == [];
    } else {
      var t := s + [b];
      assert t[1..] == s[1..] + [b] && t[0] == s[0];
      PolynomialAppend(s[1..], b);
      assert Pow131(|s|) == 131 * Pow131(|s| - 1);
      Scaled(s[0] as nat, Pow131(|s| - 1));
    }
  }

  lemma Scaled(a: nat, b: nat)
    ensures a * (131 * b) == 131 * (a * b)
  {
  }

  /** The hash is that polynomial in 32-bit arithmetic. */
  lemma {:induction false} HashIsPolynomial(s: Text)
    ensures -0x8000_0000 <= Hash(s) < 0x8000_0000
    ensures (Hash(s) - Polynomial(s)) % 0x1_0000_0000 == 0
  {
    if s == [] {
    } else {
      var init, b := s[..|s| - 1], s[|s| - 1];
      HashIsPolynomial(init);
      PolynomialAppend(init, b);
      assert s == init + [b];
      HashStep(Hash(init), Polynomial(init), b as int);
    }
  }

  lemma HashStep(h: int, p: int, b: int)
    requires (h - p) % 0x1_0000_0000 == 0
    ensures (Wrap32(Wrap32(h * 131) + b) - (131 * p + b)) % 0x1_0000_0000 == 0
  {
    var k := (h - p) / 0x1_0000_0000;
    assert h == p + k * 0x1_0000_0000;
    var x := Wrap32(h * 131);
    var m := (h * 131 + 0x8000_0000) / 0x1_0000_0000;
    assert x == h * 131 - m * 0x1_0000_0000;
    var y := Wrap32(x + b);
    var l := (x + b + 0x8000_0000) / 0x1_0000_0000;
    assert y == x + b - l * 0x1_0000_0000;
    assert y - (131 * p + b) == (131 * k - m - l) * 0x1_0000_0000;
  }
}
