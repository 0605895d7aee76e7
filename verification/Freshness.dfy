/** Exactly when a hit in LRU-2 mode is the latest value, and when it is an expired one. */
module Freshness {
  import opened Basics
  import opened RecencyList
  import opened TwoLevel

  ghost function BucketAt<V>(cfg: Config, calls: seq<Call<V>>, nil: V, k: Text): Pair<V>
    requires cfg.Valid()
  {
    Run(cfg, calls, nil)[BucketOf(k, cfg.buckets)]
  }

  /** Since the latest put or deletion of `k`, a get of `k` has found it live in level 0. */
  ghost predicate Promoted<V>(cfg: Config, calls: seq<Call<V>>, nil: V, k: Text)
    requires cfg.Valid()
  {
    if calls == [] then false
    else
      var before, call := calls[..|calls| - 1], calls[|calls| - 1];
      if call.Key() != k then Promoted(cfg, before, nil, k)
      else call.GetCall? && (LiveEntry(BucketAt(cfg, before, nil, k).l0, k).Some? || Promoted(cfg, before, nil, k))
  }

  ghost function ButLast<T>(s: seq<T>): seq<T> {
    if s == [] then [] else s[..|s| - 1]
  }

  /** Where a live level-1 entry comes from. */
  ghost predicate Origin<V>(e: Entry<V>, calls: seq<Call<V>>, promoted: bool) {
    if promoted then LatestPut(calls, e.key) == Some(e) else e in ButLast(PutsSinceDel(calls, e.key))
  }

  ghost predicate Origins<V>(cfg: Config, p: Pair<V>, calls: seq<Call<V>>, nil: V)
    requires cfg.Valid()
  {
    p.l1.Some? ==> forall e :: e in p.l1.value && e.Live() ==> Origin(e, calls, Promoted(cfg, calls, nil, e.key))
  }

  /** A call of another key changes no origin. */
  lemma OtherKeyOrigin<V>(cfg: Config, calls: seq<Call<V>>, call: Call<V>, nil: V, e: Entry<V>)
    requires cfg.Valid() && call.Key() != e.key && Origin(e, calls, Promoted(cfg, calls, nil, e.key))
    ensures Origin(e, calls + [call], Promoted(cfg, calls + [call], nil, e.key))
  {
    hide BucketAt;
    assert (calls + [call])[..|calls|] == calls;
    assert PutsSinceDel(calls, e.key) + [] == PutsSinceDel(calls, e.key);
  }

  /** A put of the key itself makes every origin an earlier one. */
  lemma PutOrigin<V>(cfg: Config, calls: seq<Call<V>>, put: Entry<V>, nil: V, e: Entry<V>)
    requires cfg.Valid() && put.key == e.key && Origin(e, calls, Promoted(cfg, calls, nil, e.key))
    ensures Origin(e, calls + [PutCall(put)], Promoted(cfg, calls + [PutCall(put)], nil, e.key))
  {
    hide BucketAt;
    assert (calls + [PutCall(put)])[..|calls|] == calls;
    LatestIsSince(calls, e.key);
    var s := PutsSinceDel(calls, e.key);
    assert ButLast(s + [put]) == s;
  }

  /** A get of the key keeps an origin, and makes the level-0 entry the promoted one. */
  lemma GetOrigin<V>(cfg: Config, calls: seq<Call<V>>, now: int, nil: V, e: Entry<V>)
    requires cfg.Valid()
    ensures var calls' := calls + [GetCall(e.key, now)];
            var live := LiveEntry(BucketAt(cfg, calls, nil, e.key).l0, e.key).Some?;
            && (live && LatestPut(calls, e.key) == Some(e) ==> Origin(e, calls', Promoted(cfg, calls', nil, e.key)))
            && (!live && Origin(e, calls, Promoted(cfg, calls, nil, e.key)) ==>
                  Origin(e, calls', Promoted(cfg, calls', nil, e.key)))
  {
    hide BucketAt;
    assert (calls + [GetCall(e.key, now)])[..|calls|] == calls;
  }

  lemma OriginsPut<V>(p: Pair<V>, cfg: Config, calls: seq<Call<V>>, put: Entry<V>, nil: V)
    requires cfg.Valid() && Origins(cfg, p, calls, nil)
    ensures Origins(cfg, PutPair(p, cfg, put), calls + [PutCall(put)], nil)
  {
    hide Origin, Promoted;
    if p.l1.Some? {
      forall e | e in p.l1.value && e.Live()
        ensures Origin(e, calls + [PutCall(put)], Promoted(cfg, calls + [PutCall(put)], nil, e.key))
      {
        if e.key == put.key {
          PutOrigin(cfg, calls, put, nil, e);
        } else {
          OtherKeyOrigin(cfg, calls, PutCall(put), nil, e);
        }
      }
    }
  }

  lemma OriginsGet<V>(cfg: Config, calls: seq<Call<V>>, k: Text, now: int, nil: V)
    requires cfg.Valid()
    requires Sound(BucketAt(cfg, calls, nil, k), calls) && Origins(cfg, BucketAt(cfg, calls, nil, k), calls, nil)
    requires BucketAt(cfg, calls, nil, k).l1.Some? <==> cfg.cap1.Some?
    ensures Origins(cfg, GetPair(BucketAt(cfg, calls, nil, k), cfg, k, now).0, calls + [GetCall(k, now)], nil)
  {
    hide Origin, Promoted, Run, Put, Get, Del, LatestPut, PutsSinceDel;
    var p, calls' := BucketAt(cfg, calls, nil, k), calls + [GetCall(k, now)];
    var p' := GetPair(p, cfg, k, now).0;
    if p.l1.Some? {
      var live := LiveEntry(p.l0, k);
      GetElements(p.l1.value, k);
      if live.Some? {
        assert live.value in p.l0 && live.value.key == k;
        PutElements(p.l1.value, cfg.cap1.value, live.value);
      }
      forall e | e in p'.l1.value && e.Live()
        ensures Origin(e, calls', Promoted(cfg, calls', nil, e.key))
      {
        if e.key != k {
          OtherKeyOrigin(cfg, calls, GetCall(k, now), nil, e);
        } else {
          GetOrigin(cfg, calls, now, nil, e);
        }
      }
    }
  }

  lemma OriginsDel<V>(p: Pair<V>, cfg: Config, calls: seq<Call<V>>, k: Text, nil: V)
    requires cfg.Valid() && Origins(cfg, p, calls, nil) && Sound(p, calls)
    ensures Origins(cfg, DelPair(p, k, nil), calls + [DelCall(k)], nil)
  {
    hide Origin, Promoted, DelLevel, LatestPut, PutsSinceDel;
    if p.l1.Some? {
      DelLevelElements(p.l1.value, k, ReleasesLevel1(p, k), nil);
      forall e | e in DelPair(p, k, nil).l1.value && e.Live()
        ensures Origin(e, calls + [DelCall(k)], Promoted(cfg, calls + [DelCall(k)], nil, e.key))
      {
        OtherKeyOrigin(cfg, calls, DelCall(k), nil, e);
      }
    }
  }

  /** A call for another bucket. */
  lemma OriginsOther<V>(p: Pair<V>, cfg: Config, calls: seq<Call<V>>, call: Call<V>, nil: V, b: nat)
    requires cfg.Valid() && Origins(cfg, p, calls, nil) && Home(p, cfg.buckets, b)
    requires b != BucketOf(call.Key(), cfg.buckets)
    ensures Origins(cfg, p, calls + [call], nil)
  {
    hide Origin, Promoted, BucketOf;
    if p.l1.Some? {
      forall e | e in p.l1.value && e.Live()
        ensures Origin(e, calls + [call], Promoted(cfg, calls + [call], nil, e.key))
      {
        OtherKeyOrigin(cfg, calls, call, nil, e);
      }
    }
  }

  lemma {:induction false} RunOrigins<V>(cfg: Config, calls: seq<Call<V>>, nil: V, b: nat)
    requires cfg.Valid() && b < cfg.buckets
    ensures Origins(cfg, Run(cfg, calls, nil)[b], calls, nil)
  {
    if calls == [] {
    } else {
      var before, call := calls[..|calls| - 1], calls[|calls| - 1];
      assert before + [call] == calls;
      RunOrigins(cfg, before, nil, b);
      RunSound(cfg, before, nil);
      hide Origins, Sound, Home, BucketOf, PutPair, GetPair, DelPair;
      var p, k := Run(cfg, before, nil)[b], call.Key();
      if b == BucketOf(k, cfg.buckets) {
        match call
        case PutCall(e) => OriginsPut(p, cfg, before, e, nil);
        case GetCall(_, now) => OriginsGet(cfg, before, k, now, nil);
        case DelCall(_) => OriginsDel(p, cfg, before, k, nil);
      } else {
        OriginsOther(p, cfg, before, call, nil, b);
      }
    }
  }

  /** The entry that a look-up finds, if it is a hit. */
  function HitEntry<V>(p: Pair<V>, cfg: Config, k: Text, now: int): Option<Entry<V>>
    requires cfg.Valid() && (p.l1.Some? <==> cfg.cap1.Some?)
  {
    var l := if p.l1.None? || LiveEntry(p.l0, k).Some? then p.l0 else p.l1.value;
    if GetPair(p, cfg, k, now).1.Some? then Lookup(l, k) else None
  }

  /** The value of a hit is the value of that entry, live and of that key. */
  lemma HitIsEntry<V>(p: Pair<V>, cfg: Config, k: Text, now: int)
    requires cfg.Valid() && (p.l1.Some? <==> cfg.cap1.Some?)
    ensures var r, e := GetPair(p, cfg, k, now).1, HitEntry(p, cfg, k, now);
            && (r.Some? <==> e.Some?)
            && (r.Some? ==> r.value == e.value.val && e.value.Live() && e.value.key == k)
            && (r.Some? && p.l1.Some? && LiveEntry(p.l0, k).None? ==> e.value in p.l1.value)
  {
  }

  /** In LRU-2 mode a hit is the latest put if the key is live in level 0 or has been promoted
      since its latest put; otherwise it is an earlier put since the latest deletion, one of
      all but the last. (An entry that was put twice is both.) */
  lemma LatestIffPromoted<V>(cfg: Config, calls: seq<Call<V>>, nil: V, k: Text, now: int)
    requires cfg.Valid() && cfg.cap1.Some?
    requires HitEntry(BucketAt(cfg, calls, nil, k), cfg, k, now).Some?
    ensures var p := BucketAt(cfg, calls, nil, k); var e := HitEntry(p, cfg, k, now).value;
            if LiveEntry(p.l0, k).Some? || Promoted(cfg, calls, nil, k) then LatestPut(calls, k) == Some(e)
            else e in ButLast(PutsSinceDel(calls, k))
  {
    var b := BucketOf(k, cfg.buckets);
    RunOrigins(cfg, calls, nil, b);
    RunSound(cfg, calls, nil);
    var p := BucketAt(cfg, calls, nil, k);
    HitIsEntry(p, cfg, k, now);
    if LiveEntry(p.l0, k).Some? {
      assert LiveEntry(p.l0, k).value in p.l0;
    }
    hide Run, GetPair, Promoted, PutsSinceDel, LatestPut, BucketOf;
  }

  /** A hit is an expired entry exactly when it is found live in level 0 of an LRU-2 cache
      with its time over: promotion does not look at the clock. */
  lemma ExpiredHitIff<V>(p: Pair<V>, cfg: Config, k: Text, now: int)
    requires cfg.Valid() && cfg.expiring && (p.l1.Some? <==> cfg.cap1.Some?)
    requires HitEntry(p, cfg, k, now).Some?
    ensures HitEntry(p, cfg, k, now).value.expireAt <= now <==>
            cfg.cap1.Some? && LiveEntry(p.l0, k).Some? && LiveEntry(p.l0, k).value.expireAt <= now
  {
  }

  /** And a live level-0 entry of an LRU-2 cache is always a hit, expired or not. */
  lemma PromotionIgnoresClock<V>(p: Pair<V>, cfg: Config, k: Text, now: int)
    requires cfg.Valid() && cfg.cap1.Some? && p.l1.Some? && LiveEntry(p.l0, k).Some?
    ensures HitEntry(p, cfg, k, now) == LiveEntry(p.l0, k)
  {
  }

  /** One put is enough for an expired hit: the first look-up finds the entry at any time. */
  lemma ExpiredHit<V>(cfg: Config, e: Entry<V>, nil: V, now: int)
    requires cfg.Valid() && cfg.cap1.Some? && e.Live() && e.expireAt <= now
    ensures HitEntry(BucketAt(cfg, [PutCall(e)], nil, e.key), cfg, e.key, now) == Some(e)
  {
    var p := BucketAt(cfg, [PutCall(e)], nil, e.key);
    var calls: seq<Call<V>> := [PutCall(e)];
    assert calls[..|calls| - 1] == [];
    PutElements([], cfg.cap0, e);
    hide BucketOf;
    assert Run(cfg, calls, nil) == Step(Initial(cfg), cfg, calls[0], nil);
    assert p.l0 == Put([], cfg.cap0, e);
    hide Run, Put, IndexOf;
    PromotionIgnoresClock(p, cfg, e.key, now);
  }

  // ---------- what is a hit ----------

  /** A list holds a live, unexpired entry of `k` with value `v`. */
  ghost predicate HoldsFresh<V>(l: Recency<V>, k: Text, v: V, expiring: bool, now: int) {
    exists e :: e in l && e.key == k && e.expireAt > 0 && (expiring ==> now < e.expireAt) && e.val == v
  }

  lemma ProbeIff<V>(l: Recency<V>, k: Text, expiring: bool, now: int, v: V)
    requires DistinctKeys(l)
    ensures Probe(l, k, expiring, now) == Some(v) <==> HoldsFresh(l, k, v, expiring, now)
  {
    DistinctAt(l, k);
    hide DistinctKeys;
    if HoldsFresh(l, k, v, expiring, now) {
      var e :| e in l && e.key == k && e.expireAt > 0 && (expiring ==> now < e.expireAt) && e.val == v;
      assert e == l[IndexOf(l, k)];
    }
    if IndexOf(l, k) < |l| {
      assert l[IndexOf(l, k)] in l;
    }
  }

  /** A look-up is a hit with value `v` exactly when: without a second level, the key is there
      live and unexpired with that value; with one, it is live in level 0 with that value, or not
      live there and in level 1 live and unexpired with that value. */
  lemma HitIff<V>(p: Pair<V>, cfg: Config, k: Text, now: int, v: V)
    requires cfg.Valid() && (p.l1.Some? <==> cfg.cap1.Some?)
    requires DistinctKeys(p.l0) && (p.l1.Some? ==> DistinctKeys(p.l1.value))
    ensures GetPair(p, cfg, k, now).1 == Some(v) <==>
            if p.l1.None? then HoldsFresh(p.l0, k, v, cfg.expiring, now)
            else if exists e :: e in p.l0 && e.key == k && e.expireAt > 0 then HoldsFresh(p.l0, k, v, false, now)
            else HoldsFresh(p.l1.value, k, v, cfg.expiring, now)
  {
    ProbeIff(p.l0, k, cfg.expiring, now, v);
    ProbeIff(p.l0, k, false, now, v);
    if p.l1.Some? { ProbeIff(p.l1.value, k, cfg.expiring, now, v); }
    DistinctAt(p.l0, k);
    hide DistinctKeys, HoldsFresh;
    if LiveEntry(p.l0, k).Some? {
      assert LiveEntry(p.l0, k).value in p.l0;
    }
  }

  /** After any run, what is put is found at once, unless it is dead or expired on arrival; in
      LRU-2 mode even expired. */
  lemma PutThenGet<V>(cfg: Config, calls: seq<Call<V>>, nil: V, e: Entry<V>, now: int)
    requires cfg.Valid()
    ensures GetPair(BucketAt(cfg, calls + [PutCall(e)], nil, e.key), cfg, e.key, now).1 ==
            if e.expireAt > 0 && (!cfg.expiring || cfg.cap1.Some? || now < e.expireAt) then Some(e.val)
            else if cfg.cap1.None? then None
            else Probe(BucketAt(cfg, calls, nil, e.key).l1.value, e.key, cfg.expiring, now)
  {
    RunSound(cfg, calls, nil);
    var calls' := calls + [PutCall(e)];
    assert calls'[..|calls|] == calls && calls'[|calls|] == PutCall(e);
    var p, p' := BucketAt(cfg, calls, nil, e.key), BucketAt(cfg, calls', nil, e.key);
    assert p' == PutPair(p, cfg, e);
    PutElements(p.l0, cfg.cap0, e);
    PutFirst(p.l0, cfg.cap0, e);
    hide Run, Put, BucketOf;
  }

  lemma PutFirst<V>(l: Recency<V>, cap: nat, e: Entry<V>)
    requires cap > 0
    ensures Lookup(Put(l, cap, e), e.key) == Some(e)
  {
    assert Put(l, cap, e)[0] == e;
  }

  /** After any run, what is deleted is not found. */
  lemma DelThenGet<V>(cfg: Config, calls: seq<Call<V>>, nil: V, k: Text, now: int)
    requires cfg.Valid()
    ensures GetPair(BucketAt(cfg, calls + [DelCall(k)], nil, k), cfg, k, now).1 == None
  {
    RunSound(cfg, calls, nil);
    var calls' := calls + [DelCall(k)];
    assert calls'[..|calls|] == calls && calls'[|calls|] == DelCall(k);
    var p := BucketAt(cfg, calls, nil, k);
    assert BucketAt(cfg, calls', nil, k) == DelPair(p, k, nil);
    DelLevelElements(p.l0, k, !ReleasesLevel1(p, k), nil);
    NoneLive(DelLevel(p.l0, k, !ReleasesLevel1(p, k), nil), k, cfg.expiring, now);
    if p.l1.Some? {
      DelLevelElements(p.l1.value, k, ReleasesLevel1(p, k), nil);
      NoneLive(DelLevel(p.l1.value, k, ReleasesLevel1(p, k), nil), k, cfg.expiring, now);
    }
    hide Run, BucketOf, DelLevel, Probe, LiveEntry;
  }

  lemma NoneLive<V>(l: Recency<V>, k: Text, expiring: bool, now: int)
    requires forall x :: x in l && x.key == k ==> !x.Live()
    ensures Probe(l, k, expiring, now) == None && LiveEntry(l, k) == None
  {
    if IndexOf(l, k) < |l| { assert l[IndexOf(l, k)] in l; }
  }

  // ---------- what a deletion releases ----------

  /** The live copies of a key in the two levels. */
  ghost function Copies<V>(p: Pair<V>, k: Text): seq<Entry<V>> {
    (if LiveEntry(p.l0, k).Some? then [LiveEntry(p.l0, k).value] else []) +
    (if p.l1.Some? && LiveEntry(p.l1.value, k).Some? then [LiveEntry(p.l1.value, k).value] else [])
  }

  /** Of the live copies the one that expires last is released, of two that expire together the
      one in level 0; there is one to release exactly when some copy is live. */
  lemma ReleasesLatest<V>(p: Pair<V>, k: Text)
    ensures var copies := Copies(p, k);
            && (ReleasesLevel1(p, k) ==>
                  && copies != [] && p.l1.Some? && LiveEntry(p.l1.value, k) == Some(copies[|copies| - 1])
                  && forall j :: 0 <= j < |copies| - 1 ==> copies[j].expireAt < copies[|copies| - 1].expireAt)
            && (!ReleasesLevel1(p, k) && copies != [] ==>
                  && LiveEntry(p.l0, k) == Some(copies[0])
                  && forall j :: 0 <= j < |copies| ==> copies[j].expireAt <= copies[0].expireAt)
  {
  }
}
