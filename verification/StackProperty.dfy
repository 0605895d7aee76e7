/** What a bucket remembers after a whole run of puts and gets, stated without the list:
    in terms of which keys were touched since. */
module StackProperty {
  import opened Basics
  import opened Counting
  import opened Searching
  import opened RecencyList

  datatype Op<V> = PutOp(e: Entry<V>) | GetOp(k: Text)

  function Apply<V>(l: Recency<V>, cap: nat, op: Op<V>): Recency<V>
    requires cap > 0
  {
    match op
    case PutOp(e) => Put(l, cap, e)
    case GetOp(k) => Get(l, k)
  }

  /** The bucket after the operations `ops`, starting empty. */
  function Run<V>(cap: nat, ops: seq<Op<V>>): Recency<V>
    requires cap > 0
  {
    if ops == [] then [] else Apply(Run(cap, ops[..|ops| - 1]), cap, ops[|ops| - 1])
  }

  /** The keys touched by the run, latest first. A put touches its key, a get only if it hits. */
  function Touches<V>(cap: nat, ops: seq<Op<V>>): seq<Text>
    requires cap > 0
  {
    if ops == [] then [] else
      var before, op := ops[..|ops| - 1], ops[|ops| - 1];
      match op
      case PutOp(e) => [e.key] + Touches(cap, before)
      case GetOp(k) => (if Stored(Run(cap, before), k) then [k] else []) + Touches(cap, before)
  }

  function Elements<T(==)>(s: seq<T>): set<T> { set x | x in s }

  /** The distinct keys touched since the latest touch of `k`. */
  function TouchedSince(touches: seq<Text>, k: Text): set<Text> {
    Elements(touches[..Find(touches, k)])
  }

  lemma SinceOthers(touches: seq<Text>, k: Text)
    ensures k !in TouchedSince(touches, k)
    ensures forall x :: x in TouchedSince(touches, k) ==> x in touches
  {
  }

  function Keys<V>(l: Recency<V>): (r: seq<Text>)
    ensures |r| == |l| && forall i :: 0 <= i < |l| ==> r[i] == l[i].key
  {
    seq(|l|, i requires 0 <= i < |l| => l[i].key)
  }

  function Without<T(==)>(s: seq<T>, x: T): seq<T> {
    var i := Find(s, x);
    if i < |s| then s[..i] + s[i + 1..] else s
  }

  /** The keys in order of their latest touch. */
  function Latest<T(==)>(touches: seq<T>): seq<T> {
    if touches == [] then [] else [touches[0]] + Without(Latest(touches[1..]), touches[0])
  }

  function Take<T>(s: seq<T>, n: nat): seq<T> { if |s| <= n then s else s[..n] }

  lemma FindTake<T>(d: seq<T>, n: nat, x: T)
    ensures Find(Take(d, n), x) == if Find(d, x) < n then Find(d, x) else |Take(d, n)|
  {
    FindUnique(Take(d, n), x, if Find(d, x) < n then Find(d, x) else |Take(d, n)|);
  }

  /** What touching `k` does to the keys of a bucket. */
  function Touch(s: seq<Text>, cap: nat, k: Text): seq<Text>
    requires cap > 0
  {
    var i := Find(s, k);
    if i < |s| then MoveToFront(s, i) else if |s| < cap then [k] + s else [k] + s[..|s| - 1]
  }

  lemma PutTouches<V>(l: Recency<V>, cap: nat, e: Entry<V>)
    requires cap > 0
    ensures Keys(Put(l, cap, e)) == Touch(Keys(l), cap, e.key)
  {
    FindUnique(Keys(l), e.key, IndexOf(l, e.key));
  }

  lemma GetTouches<V>(l: Recency<V>, cap: nat, k: Text)
    requires cap > 0 && Stored(l, k)
    ensures Keys(Get(l, k)) == Touch(Keys(l), cap, k)
  {
    FindUnique(Keys(l), k, IndexOf(l, k));
  }

  lemma TakeMoved<T>(d: seq<T>, n: nat, i: nat)
    requires i < |d| && i < n
    ensures Take([d[i]] + (d[..i] + d[i + 1..]), n) == MoveToFront(Take(d, n), i)
  {
    var w, s := d[..i] + d[i + 1..], Take(d, n);
    var r, t := MoveToFront(s, i), Take([d[i]] + w, n);
    assert |r| == |t|;
    forall p | 0 <= p < |r|
      ensures r[p] == t[p]
    {
      assert r[p] == s[if p == 0 then i else if p <= i then p - 1 else p];
      if p > 0 { assert t[p] == w[p - 1] == d[if p <= i then p - 1 else p]; }
    }
  }

  /** A bucket sees the first `cap` keys of the unbounded order of latest touches. */
  lemma TouchStep(d: seq<Text>, cap: nat, k: Text)
    requires cap > 0
    ensures Take([k] + Without(d, k), cap) == Touch(Take(d, cap), cap, k)
  {
    FindTake(d, cap, k);
    var i, s := Find(d, k), Take(d, cap);
    hide Find;
    if i < |s| {
      TakeMoved(d, cap, i);
    } else if |s| < cap {
    } else {
      assert cap <= i;
      assert Without(d, k) == if i < |d| then d[..i] + d[i + 1..] else d;
      assert Without(d, k)[..cap - 1] == s[..cap - 1];
    }
  }

  lemma {:induction false} KeysAreLatest<V>(cap: nat, ops: seq<Op<V>>)
    requires cap > 0
    ensures Keys(Run(cap, ops)) == Take(Latest(Touches(cap, ops)), cap)
  {
    hide Touch, Put, Without;
    if ops == [] {
    } else {
      var before, op := ops[..|ops| - 1], ops[|ops| - 1];
      KeysAreLatest(cap, before);
      var l, t := Run(cap, before), Touches(cap, before);
      var k := match op case PutOp(e) => e.key case GetOp(k) => k;
      TouchStep(Latest(t), cap, k);
      assert ([k] + t)[1..] == t;
      match op {
        case PutOp(e) =>
          PutTouches(l, cap, e);
        case GetOp(_) =>
          if Stored(l, k) {
            GetTouches(l, cap, k);
          } else {
            assert [] + t == t;
          }
      }
    }
  }

  lemma WithoutElements<T>(d: seq<T>, x: T)
    requires Distinct(d)
    ensures Distinct(Without(d, x))
    ensures forall y :: y in Without(d, x) <==> y in d && y != x
  {
    hide Find;
    var i, w := Find(d, x), Without(d, x);
    if i < |d| {
      assert forall j :: 0 <= j < |w| ==> w[j] == d[if j < i then j else j + 1];
      forall y | y in d && y != x
        ensures y in w
      {
        var j :| 0 <= j < |d| && d[j] == y;
        assert w[if j < i then j else j - 1] == y;
      }
    }
  }

  /** Removing `x` keeps what stands before another element, `x` aside. */
  lemma WithoutBefore<T>(d: seq<T>, x: T, k: T)
    requires Distinct(d) && x != k && k in d
    ensures k in Without(d, x)
    ensures Elements(Without(d, x)[..Find(Without(d, x), k)]) == Elements(d[..Find(d, k)]) - {x}
  {
    hide Find;
    var i, p := Find(d, x), Find(d, k);
    var w := Without(d, x);
    if i < p {
      assert w[..p - 1] == d[..i] + d[i + 1..p] && w[p - 1] == d[p];
      assert forall j :: 0 <= j < p - 1 ==> w[j] == d[if j < i then j else j + 1];
      FindUnique(w, k, p - 1);
      assert d[..p] == d[..i] + [x] + d[i + 1..p];
    } else {
      assert w[..p] == d[..p] && w[p] == d[p];
      FindUnique(w, k, p);
    }
  }

  lemma {:induction false} LatestDistinct<T>(touches: seq<T>)
    ensures Distinct(Latest(touches))
    ensures forall k :: k in Latest(touches) <==> k in touches
  {
    hide Without;
    if touches == [] {
    } else {
      LatestDistinct(touches[1..]);
      WithoutElements(Latest(touches[1..]), touches[0]);
      assert touches == [touches[0]] + touches[1..];
      var w := Without(Latest(touches[1..]), touches[0]);
      assert forall i :: 0 <= i < |w| ==> w[i] in w;
    }
  }

  /** What stands before `k`, with `x` put in front. */
  lemma BeforeCons<T>(x: T, s: seq<T>, k: T)
    requires x != k
    ensures Find([x] + s, k) == Find(s, k) + 1
    ensures Elements(([x] + s)[..Find([x] + s, k)]) == Elements(s[..Find(s, k)]) + {x}
  {
    FindUnique([x] + s, k, Find(s, k) + 1);
    assert ([x] + s)[..Find(s, k) + 1] == [x] + s[..Find(s, k)];
  }

  /** In the order of latest touches, `k` stands behind exactly the keys touched since. */
  lemma {:induction false} LatestBefore(touches: seq<Text>, k: Text)
    requires k in touches
    ensures Elements(Latest(touches)[..Find(Latest(touches), k)]) == TouchedSince(touches, k)
  {
    hide Without;
    var x, rest := touches[0], touches[1..];
    assert touches == [x] + rest;
    if x == k {
    } else {
      LatestBefore(rest, k);
      LatestDistinct(rest);
      WithoutBefore(Latest(rest), x, k);
      BeforeCons(x, Without(Latest(rest), x), k);
      BeforeCons(x, rest, k);
    }
  }

  /** The LRU stack property. After any run of puts and gets a key is stored exactly when it
      has been touched and fewer than `cap` other keys have been touched since; those keys
      are exactly the ones ahead of it. */
  lemma StoredIff<V>(cap: nat, ops: seq<Op<V>>, k: Text)
    requires cap > 0
    ensures var l, touches := Run(cap, ops), Touches(cap, ops);
            && (Stored(l, k) <==> k in touches && |TouchedSince(touches, k)| < cap)
            && (Stored(l, k) ==> Elements(Keys(l[..IndexOf(l, k)])) == TouchedSince(touches, k))
            && (Stored(l, k) ==> IndexOf(l, k) == |TouchedSince(touches, k)|)
  {
    hide Latest, Run, Touches, IndexOf, Find;
    var l, touches := Run(cap, ops), Touches(cap, ops);
    var d := Latest(touches);
    KeysAreLatest(cap, ops);
    LatestDistinct(touches);
    if k in touches { LatestBefore(touches, k); }
    FindUnique(Keys(l), k, IndexOf(l, k));
    FindTake(d, cap, k);
    var p := Find(d, k);
    SizeOfDistinct(d[..p], Elements(d[..p]));
    if Stored(l, k) {
      assert Keys(l[..p]) == Keys(l)[..p] == d[..p];
    }
  }
}
