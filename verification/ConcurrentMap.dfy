/** The sharded map of util/fastmap/cmap. Each locked section is one method. */
module ConcurrentMap {
  import opened Basics
  import opened Counting

  const SHARD_COUNT := 32

  function Mix(hash: bv32, byte: bv8): bv32 { (hash * 16777619) ^ (byte as bv32) }

  function Fnv32(key: Text): bv32 {
    if key == [] then 2166136261
    else Mix(Fnv32(key[..|key| - 1]), key[|key| - 1])
  }

  method HashFnv32(key: Text) returns (hash: bv32)
    ensures hash == Fnv32(key)
  {
    hide Mix;
    hash := 2166136261;
    for i := 0 to |key|
      invariant hash == Fnv32(key[..i])
    {
      assert key[..i + 1][..i] == key[..i];
      hash := Mix(hash, key[i]);
    }
    assert key[..|key|] == key;
  }

  /** The published values of the 32-bit FNV-1 hash of nothing, "a" and "foo". */
  lemma FnvVectors()
    ensures Fnv32([]) == 0x811C9DC5 && Fnv32([0x61]) == 0x050C5D7E && Fnv32([0x66, 0x6F, 0x6F]) == 0x408F5E13
  {
    FnvMore([], 0x61);
    assert [] + [0x61 as bv8] == [0x61];
    FnvMore([], 0x66);
    assert [] + [0x66 as bv8] == [0x66];
    FnvMore([0x66], 0x6F);
    assert [0x66 as bv8] + [0x6F] == [0x66, 0x6F];
    FnvMore([0x66, 0x6F], 0x6F);
    assert [0x66 as bv8, 0x6F] + [0x6F] == [0x66, 0x6F, 0x6F];
  }

  lemma FnvMore(key: Text, b: bv8)
    ensures Fnv32(key + [b]) == Mix(Fnv32(key), b)
  {
    assert (key + [b])[..|key|] == key;
  }

  /** The theorems below hold for every hash function. */
  type Hash = Text -> bv32

  function ShardOf(hash: Hash, key: Text, n: nat): (i: nat)
    requires n > 0
    ensures i < n
  {
    hash(key) as int % n
  }

  /** The shard is what is left of the hash after whole multiples of `n`. */
  lemma ShardIsLow(hash: Hash, key: Text, n: nat)
    requires n > 0
    ensures hash(key) as int == (hash(key) as int / n) * n + ShardOf(hash, key, n)
  {
    QuotientRemainder(hash(key) as int, n);
  }

  /** Every key is in the shard it hashes to. */
  ghost predicate AtHome<C>(hash: Hash, parts: seq<map<Text, C>>) {
    parts != [] && forall i, k :: 0 <= i < |parts| && k in parts[i] ==> ShardOf(hash, k, |parts|) == i
  }

  ghost function KeysOf<C>(parts: seq<map<Text, C>>): set<Text> {
    set i, k | 0 <= i < |parts| && k in parts[i] :: k
  }

  /** The one map that the shards stand for. */
  ghost function Union<C>(hash: Hash, parts: seq<map<Text, C>>): map<Text, C>
    requires AtHome(hash, parts)
  {
    map k | k in KeysOf(parts) :: parts[ShardOf(hash, k, |parts|)][k]
  }

  lemma UnionAt<C>(hash: Hash, parts: seq<map<Text, C>>, k: Text)
    requires AtHome(hash, parts)
    ensures k in Union(hash, parts) <==> k in parts[ShardOf(hash, k, |parts|)]
    ensures k in Union(hash, parts) ==> Union(hash, parts)[k] == parts[ShardOf(hash, k, |parts|)][k]
  {
    hide ShardOf;
  }

  lemma UnionSet<C>(hash: Hash, parts: seq<map<Text, C>>, k: Text, v: C)
    requires AtHome(hash, parts)
    ensures var i := ShardOf(hash, k, |parts|); var parts' := parts[i := parts[i][k := v]];
            AtHome(hash, parts') && Union(hash, parts') == Union(hash, parts)[k := v]
  {
    hide ShardOf;
    var i := ShardOf(hash, k, |parts|);
    var parts' := parts[i := parts[i][k := v]];
    forall x
      ensures x in KeysOf(parts') <==> x in KeysOf(parts) || x == k
    {
      if x in KeysOf(parts) {
        assert x in parts[ShardOf(hash, x, |parts|)];
        assert x in parts'[ShardOf(hash, x, |parts|)];
      }
      if x == k {
        assert x in parts'[i];
      }
    }
  }

  /** The keys after one has been removed from its shard. */
  lemma KeysRemove<C>(hash: Hash, parts: seq<map<Text, C>>, k: Text)
    requires AtHome(hash, parts)
    ensures var i := ShardOf(hash, k, |parts|); KeysOf(parts[i := parts[i] - {k}]) == KeysOf(parts) - {k}
  {
    hide ShardOf;
    var i := ShardOf(hash, k, |parts|);
    var parts' := parts[i := parts[i] - {k}];
    forall x
      ensures x in KeysOf(parts') <==> x in KeysOf(parts) && x != k
    {
      if x in KeysOf(parts) && x != k {
        assert x in parts'[ShardOf(hash, x, |parts|)];
      }
      if x in KeysOf(parts') {
        var j :| 0 <= j < |parts| && x in parts'[j];
        assert x in parts[j] && ShardOf(hash, x, |parts|) == j;
      }
    }
  }

  lemma UnionRemove<C>(hash: Hash, parts: seq<map<Text, C>>, k: Text)
    requires AtHome(hash, parts)
    ensures var i := ShardOf(hash, k, |parts|); var parts' := parts[i := parts[i] - {k}];
            AtHome(hash, parts') && Union(hash, parts') == Union(hash, parts) - {k}
  {
    hide ShardOf;
    KeysRemove(hash, parts, k);
  }

  // ---------- counting and enumerating ----------

  function Sum(s: seq<nat>): nat {
    if s == [] then 0 else Sum(s[..|s| - 1]) + s[|s| - 1]
  }

  lemma {:induction false} SumUpdate(s: seq<nat>, i: nat, v: nat)
    requires i < |s|
    ensures Sum(s[i := v]) + s[i] == Sum(s) + v
  {
    var n := |s| - 1;
    if i < n {
      assert s[i := v][..n] == s[..n][i := v];
      SumUpdate(s[..n], i, v);
    } else {
      assert s[i := v][..n] == s[..n];
    }
  }

  function Sizes<C>(parts: seq<map<Text, C>>): (r: seq<nat>)
    ensures |r| == |parts| && forall i :: 0 <= i < |r| ==> r[i] == |parts[i]|
  {
    seq(|parts|, i requires 0 <= i < |parts| => |parts[i]|)
  }

  ghost predicate Apart<C>(parts: seq<map<Text, C>>) {
    forall i, j, k :: 0 <= i < j < |parts| && k in parts[i] ==> k !in parts[j]
  }

  lemma KeysStep<C>(parts: seq<map<Text, C>>)
    requires parts != [] && Apart(parts)
    ensures var n := |parts| - 1;
            && (forall k :: k in KeysOf(parts) <==> k in KeysOf(parts[..n]) || k in parts[n])
            && KeysOf(parts[..n]) !! parts[n].Keys
  {
    var n := |parts| - 1;
    forall k
      ensures k in KeysOf(parts) <==> k in KeysOf(parts[..n]) || k in parts[n]
    {
      if k in KeysOf(parts) {
        var i :| 0 <= i < |parts| && k in parts[i];
        assert i < n ==> k in parts[..n][i];
      }
      if k in KeysOf(parts[..n]) {
        var i :| 0 <= i < n && k in parts[..n][i];
        assert k in parts[i];
      }
    }
    forall k | k in KeysOf(parts[..n])
      ensures k !in parts[n]
    {
      var i :| 0 <= i < n && k in parts[..n][i];
      assert k in parts[i];
    }
  }

  lemma {:induction false} KeysSize<C>(parts: seq<map<Text, C>>)
    requires Apart(parts)
    ensures |KeysOf(parts)| == Sum(Sizes(parts))
  {
    if parts == [] {
    } else {
      var n := |parts| - 1;
      KeysSize(parts[..n]);
      assert Sizes(parts)[..n] == Sizes(parts[..n]);
      KeysStep(parts);
      hide KeysOf;
      assert KeysOf(parts) == KeysOf(parts[..n]) + parts[n].Keys;
    }
  }

  /** The shard sizes add up to the size of the map. */
  lemma UnionSize<C>(hash: Hash, parts: seq<map<Text, C>>)
    requires AtHome(hash, parts)
    ensures |Union(hash, parts)| == Sum(Sizes(parts))
  {
    hide ShardOf, KeysOf;
    forall i, j, k | 0 <= i < j < |parts| && k in parts[i]
      ensures k !in parts[j]
    {
      assert ShardOf(hash, k, |parts|) == i;
    }
    KeysSize(parts);
    assert Union(hash, parts).Keys == KeysOf(parts);
  }

  datatype Tuple<C> = Tuple(key: Text, val: C)

  /** `out` lists every entry of `m` exactly once. */
  ghost predicate Enumerates<C>(out: seq<Tuple<C>>, m: map<Text, C>) {
    && (forall i, j :: 0 <= i < j < |out| ==> out[i].key != out[j].key)
    && (forall i :: 0 <= i < |out| ==> out[i].key in m && m[out[i].key] == out[i].val)
    && |out| == |m|
  }

  /** No key is missed. */
  lemma EnumeratesAll<C>(out: seq<Tuple<C>>, m: map<Text, C>, k: Text) returns (i: nat)
    requires Enumerates(out, m) && k in m
    ensures i < |out| && out[i] == Tuple(k, m[k])
  {
    var keys := seq(|out|, j requires 0 <= j < |out| => out[j].key);
    Exhausts(keys, m.Keys, k);
    i :| 0 <= i < |keys| && keys[i] == k;
  }

  /** Where the channels stand: `taken[i]` tuples of channel `i` have been passed on. */
  ghost predicate Merging<C>(hash: Hash, chans: seq<seq<Tuple<C>>>, taken: seq<nat>, out: seq<Tuple<C>>, n: nat)
    requires n > 0
  {
    && |taken| == |chans| == n
    && (forall i :: 0 <= i < n ==> taken[i] <= |chans[i]|)
    && |out| == Sum(taken)
    && (forall i, j :: 0 <= i < j < |out| ==> out[i].key != out[j].key)
    && (forall i :: 0 <= i < |out| ==> var h := ShardOf(hash, out[i].key, n); out[i] in chans[h][..taken[h]])
  }

  lemma MergeOne<C>(hash: Hash, chans: seq<seq<Tuple<C>>>, taken: seq<nat>, out: seq<Tuple<C>>,
                    parts: seq<map<Text, C>>, c: nat)
    requires AtHome(hash, parts) && |parts| == |chans| && Merging(hash, chans, taken, out, |parts|)
    requires c < |chans| && taken[c] < |chans[c]| && Enumerates(chans[c], parts[c])
    ensures Merging(hash, chans, taken[c := taken[c] + 1], out + [chans[c][taken[c]]], |parts|)
  {
    hide ShardOf;
    var n, t, taken' := |parts|, chans[c][taken[c]], taken[c := taken[c] + 1];
    SumUpdate(taken, c, taken[c] + 1);
    assert ShardOf(hash, t.key, n) == c;
    assert t == chans[c][..taken[c] + 1][taken[c]];
    forall i | 0 <= i < |out|
      ensures out[i].key != t.key
      ensures out[i] in chans[ShardOf(hash, out[i].key, n)][..taken'[ShardOf(hash, out[i].key, n)]]
    {
      var h := ShardOf(hash, out[i].key, n);
      var j :| 0 <= j < taken[h] && chans[h][j] == out[i];
      assert chans[h][..taken'[h]][j] == out[i];
      if h == c {
        assert chans[c][j].key != chans[c][taken[c]].key;
      }
    }
  }

  lemma MergeDone<C>(hash: Hash, chans: seq<seq<Tuple<C>>>, taken: seq<nat>, out: seq<Tuple<C>>,
                     parts: seq<map<Text, C>>)
    requires AtHome(hash, parts) && |parts| == |chans| && Merging(hash, chans, taken, out, |parts|)
    requires forall i :: 0 <= i < |parts| ==> taken[i] == |chans[i]| && Enumerates(chans[i], parts[i])
    ensures Enumerates(out, Union(hash, parts))
  {
    hide ShardOf, KeysOf;
    UnionSize(hash, parts);
    assert taken == Sizes(parts);
    forall i | 0 <= i < |out|
      ensures out[i].key in Union(hash, parts) && Union(hash, parts)[out[i].key] == out[i].val
    {
      var h := ShardOf(hash, out[i].key, |parts|);
      var j :| 0 <= j < taken[h] && chans[h][j] == out[i];
      UnionAt(hash, parts, out[i].key);
    }
  }

  /** Passes the tuples of all channels on to one, in any interleaving. */
  method FanIn<C>(hash: Hash, chans: seq<seq<Tuple<C>>>, ghost parts: seq<map<Text, C>>) returns (out: seq<Tuple<C>>)
    requires AtHome(hash, parts) && |parts| == |chans|
    requires forall i :: 0 <= i < |parts| ==> Enumerates(chans[i], parts[i])
    ensures Enumerates(out, Union(hash, parts))
  {
    hide ShardOf, KeysOf, Enumerates;
    out := [];
    var taken: seq<nat> := seq(|chans|, _ => 0);
    MergeStart(hash, chans, taken, |parts|);
    var open := UpTo(|chans|);
    while open != {}
      invariant Merging(hash, chans, taken, out, |parts|)
      invariant forall c :: c in open ==> 1 <= c <= |chans|
      invariant forall i :: 0 <= i < |chans| && i + 1 !in open ==> taken[i] == |chans[i]|
      decreases |open|, Left(chans, taken)
    {
      var c :| c in open;
      var i := c - 1;
      if taken[i] < |chans[i]| {
        MergeOne(hash, chans, taken, out, parts, i);
        LeftLess(chans, taken, i);
        out := out + [chans[i][taken[i]]];
        taken := taken[i := taken[i] + 1];
      } else {
        open := open - {c};
      }
    }
    MergeDone(hash, chans, taken, out, parts);
  }

  ghost function Left<C>(chans: seq<seq<Tuple<C>>>, taken: seq<nat>): nat
    requires |taken| == |chans| && forall i :: 0 <= i < |chans| ==> taken[i] <= |chans[i]|
  {
    Sum(seq(|chans|, i requires 0 <= i < |chans| => |chans[i]| - taken[i]))
  }

  lemma LeftLess<C>(chans: seq<seq<Tuple<C>>>, taken: seq<nat>, c: nat)
    requires |taken| == |chans| && c < |chans| && taken[c] < |chans[c]|
    requires forall i :: 0 <= i < |chans| ==> taken[i] <= |chans[i]|
    ensures Left(chans, taken[c := taken[c] + 1]) < Left(chans, taken)
  {
    var s: seq<nat> := seq(|chans|, i requires 0 <= i < |chans| => |chans[i]| - taken[i]);
    var t: seq<nat> := seq(|chans|, i requires 0 <= i < |chans| => |chans[i]| - taken[c := taken[c] + 1][i]);
    assert t == s[c := s[c] - 1];
    SumUpdate(s, c, s[c] - 1);
  }

  lemma {:induction false} SumZero(s: seq<nat>)
    requires forall i :: 0 <= i < |s| ==> s[i] == 0
    ensures Sum(s) == 0
  {
    if s == [] {
    } else {
      SumZero(s[..|s| - 1]);
    }
  }

  lemma MergeStart<C>(hash: Hash, chans: seq<seq<Tuple<C>>>, taken: seq<nat>, n: nat)
    requires n > 0 && |taken| == |chans| == n && forall i :: 0 <= i < n ==> taken[i] == 0
    ensures Merging(hash, chans, taken, [], n)
  {
    SumZero(taken);
  }

  lemma SetRest<C>(m: map<Text, C>, data: map<Text, C>, rest: set<Text>, key: Text)
    requires rest <= data.Keys && key in rest
    ensures (m + (data - rest))[key := data[key]] == m + (data - (rest - {key}))
  {
  }

  class Shard<C> {
    var items: map<Text, C>

    constructor ()
      ensures items == map[]
    {
      items := map[];
    }
  }

  class ConcurrentMap<C> {
    const shards: seq<Shard<C>>
    const hash: Hash

    ghost function Parts(): (p: seq<map<Text, C>>)
      reads shards
      ensures |p| == |shards| && forall i :: 0 <= i < |p| ==> p[i] == shards[i].items
    {
      seq(|shards|, i requires 0 <= i < |shards| reads shards => shards[i].items)
    }

    ghost predicate Valid()
      reads shards
    {
      |shards| == SHARD_COUNT && Distinct(shards) && AtHome(hash, Parts())
    }

    ghost function View(): map<Text, C>
      requires Valid()
      reads shards
    {
      Union(hash, Parts())
    }

    /** The source's hash is `Fnv32`; nothing depends on the choice. */
    constructor (hash: Hash := Fnv32)
      ensures this.hash == hash
      ensures Valid() && fresh(shards) && View() == map[]
    {
      this.hash := hash;
      var made: seq<Shard<C>> := [];
      while |made| < SHARD_COUNT
        invariant |made| <= SHARD_COUNT && Distinct(made) && fresh(made)
        invariant forall i :: 0 <= i < |made| ==> made[i].items == map[]
      {
        var s := new Shard<C>();
        made := made + [s];
      }
      shards := made;
    }

    /** The one shard that can hold the key: looking there is looking in the whole map. */
    method GetShard(key: Text) returns (shard: Shard<C>)
      requires Valid()
      ensures shard in shards
      ensures key in View() <==> key in shard.items
      ensures key in View() ==> View()[key] == shard.items[key]
      ensures forall s :: s in shards && s != shard ==> key !in s.items
      ensures shard == shards[ShardOf(hash, key, |shards|)]
    {
      hide ShardOf, KeysOf;
      UnionAt(hash, Parts(), key);
      shard := shards[ShardOf(hash, key, |shards|)];
      forall s | s in shards && s != shard
        ensures key !in s.items
      {
        var i :| 0 <= i < |shards| && shards[i] == s;
        assert Parts()[i] == s.items;
      }
    }

    method Set(key: Text, value: C)
      requires Valid()
      modifies shards
      ensures Valid() && View() == old(View())[key := value]
    {
      hide ShardOf, KeysOf;
      UnionSet(hash, Parts(), key, value);
      var shard := GetShard(key);
      shard.items := shard.items[key := value];
      ghost var parts, i := old(Parts()), ShardOf(hash, key, |shards|);
      assert Parts() == parts[i := parts[i][key := value]];
    }

    method Get(key: Text) returns (val: Option<C>)
      requires Valid()
      ensures val == if key in View() then Some(View()[key]) else None
    {
      hide ShardOf, KeysOf;
      var shard := GetShard(key);
      val := if key in shard.items then Some(shard.items[key]) else None;
    }

    method Remove(key: Text)
      requires Valid()
      modifies shards
      ensures Valid() && View() == old(View()) - {key}
    {
      hide ShardOf, KeysOf;
      UnionRemove(hash, Parts(), key);
      var shard := GetShard(key);
      shard.items := shard.items - {key};
      ghost var parts, i := old(Parts()), ShardOf(hash, key, |shards|);
      assert Parts() == parts[i := parts[i] - {key}];
    }

    method Has(key: Text) returns (ok: bool)
      requires Valid()
      ensures ok <==> key in View()
    {
      hide ShardOf, KeysOf;
      var shard := GetShard(key);
      ok := key in shard.items;
    }

    method Pop(key: Text) returns (val: Option<C>)
      requires Valid()
      modifies shards
      ensures Valid() && View() == old(View()) - {key}
      ensures val == if key in old(View()) then Some(old(View())[key]) else None
    {
      hide ShardOf, KeysOf;
      UnionAt(hash, Parts(), key);
      UnionRemove(hash, Parts(), key);
      var shard := GetShard(key);
      val := if key in shard.items then Some(shard.items[key]) else None;
      shard.items := shard.items - {key};
      ghost var parts, i := old(Parts()), ShardOf(hash, key, |shards|);
      assert Parts() == parts[i := parts[i] - {key}];
    }

    /** `cb` gets the current value, if any, and the new one, and chooses what to store. */
    method Upsert(key: Text, value: C, cb: (Option<C>, C) -> C) returns (res: C)
      requires Valid()
      modifies shards
      ensures Valid() && View() == old(View())[key := res]
      ensures res == cb(if key in old(View()) then Some(old(View())[key]) else None, value)
    {
      hide ShardOf, KeysOf;
      var shard := GetShard(key);
      res := cb(if key in shard.items then Some(shard.items[key]) else None, value);
      UnionSet(hash, Parts(), key, res);
      shard.items := shard.items[key := res];
      ghost var parts, i := old(Parts()), ShardOf(hash, key, |shards|);
      assert Parts() == parts[i := parts[i][key := res]];
    }

    method SetIfAbsent(key: Text, value: C) returns (set_: bool)
      requires Valid()
      modifies shards
      ensures Valid() && set_ == (key !in old(View()))
      ensures View() == if set_ then old(View())[key := value] else old(View())
    {
      hide ShardOf, KeysOf;
      UnionAt(hash, Parts(), key);
      UnionSet(hash, Parts(), key, value);
      var shard := GetShard(key);
      set_ := key !in shard.items;
      if set_ {
        shard.items := shard.items[key := value];
        ghost var parts, i := old(Parts()), ShardOf(hash, key, |shards|);
        assert Parts() == parts[i := parts[i][key := value]];
      }
    }

    /** Removes the key if it is there and `cb` says so; returns what `cb` says. */
    method RemoveCb(key: Text, cb: (Text, Option<C>) -> bool) returns (remove: bool)
      requires Valid()
      modifies shards
      ensures Valid()
      ensures remove == cb(key, if key in old(View()) then Some(old(View())[key]) else None)
      ensures View() == if remove then old(View()) - {key} else old(View())
    {
      hide ShardOf, KeysOf;
      UnionAt(hash, Parts(), key);
      UnionRemove(hash, Parts(), key);
      var shard := GetShard(key);
      var ok := key in shard.items;
      remove := cb(key, if ok then Some(shard.items[key]) else None);
      if remove && ok {
        shard.items := shard.items - {key};
        ghost var parts, i := old(Parts()), ShardOf(hash, key, |shards|);
        assert Parts() == parts[i := parts[i] - {key}];
      }
    }

    /** Sets all keys of `data`, in any order. */
    method MSet(data: map<Text, C>)
      requires Valid()
      modifies shards
      ensures Valid() && View() == old(View()) + data
    {
      hide ShardOf, KeysOf, Union;
      var rest := data.Keys;
      while rest != {}
        invariant Valid() && rest <= data.Keys
        invariant View() == old(View()) + (data - rest)
      {
        var key :| key in rest;
        Set(key, data[key]);
        SetRest(old(View()), data, rest, key);
        rest := rest - {key};
      }
      assert data - rest == data;
    }

    method Count() returns (count: nat)
      requires Valid()
      ensures count == |View()|
    {
      hide ShardOf, KeysOf;
      count := 0;
      for i := 0 to SHARD_COUNT
        invariant count == Sum(Sizes(Parts())[..i])
      {
        assert Sizes(Parts())[..i + 1][..i] == Sizes(Parts())[..i];
        count := count + |shards[i].items|;
      }
      assert Sizes(Parts())[..SHARD_COUNT] == Sizes(Parts());
      UnionSize(hash, Parts());
    }

    /** The tuples of one shard, in any order. */
    method GetChanByShard(index: nat) returns (ch: seq<Tuple<C>>)
      requires index < |shards|
      ensures Enumerates(ch, shards[index].items)
    {
      ch := [];
      var items := shards[index].items;
      var rest := items.Keys;
      while rest != {}
        invariant rest <= items.Keys && |ch| + |rest| == |items|
        invariant forall i, j :: 0 <= i < j < |ch| ==> ch[i].key != ch[j].key
        invariant forall i :: 0 <= i < |ch| ==>
                    ch[i].key in items && ch[i].key !in rest && items[ch[i].key] == ch[i].val
      {
        var key :| key in rest;
        ch := ch + [Tuple(key, items[key])];
        rest := rest - {key};
      }
    }

    /** A snapshot of all shards, passed on in any interleaving: every entry exactly once. */
    method IterBuffered() returns (out: seq<Tuple<C>>)
      requires Valid()
      ensures Enumerates(out, View())
    {
      var chans: seq<seq<Tuple<C>>> := [];
      for i := 0 to SHARD_COUNT
        invariant |chans| == i
        invariant forall j :: 0 <= j < i ==> Enumerates(chans[j], shards[j].items)
      {
        var ch := GetChanByShard(i);
        chans := chans + [ch];
      }
      out := FanIn(hash, chans, Parts());
    }

    method Items() returns (tmp: map<Text, C>)
      requires Valid()
      ensures tmp == View()
    {
      hide ShardOf, KeysOf, Union;
      var all := IterBuffered();
      ghost var m := View();
      tmp := map[];
      for i := 0 to |all|
        invariant forall k :: k in tmp ==> k in m && tmp[k] == m[k]
        invariant forall j :: 0 <= j < i ==> all[j].key in tmp
      {
        tmp := tmp[all[i].key := all[i].val];
      }
      forall k | k in m
        ensures k in tmp
      {
        var i := EnumeratesAll(all, m, k);
      }
      assert tmp == m;
    }

    method Clear()
      requires Valid()
      modifies shards
      ensures Valid() && View() == map[]
    {
      hide ShardOf, KeysOf, Union;
      var all := IterBuffered();
      ghost var m := View();
      for i := 0 to |all|
        invariant Valid()
        invariant forall k :: k in View() ==> k in m
        invariant forall j :: 0 <= j < i ==> all[j].key !in View()
      {
        Remove(all[i].key);
      }
      forall k | k in m
        ensures k !in View()
      {
        var i := EnumeratesAll(all, m, k);
      }
      assert View() == map[];
    }
  }
}
