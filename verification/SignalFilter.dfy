/** The filter in front of the signal handlers: a key that was answered with "peer not
    found" stays in an LRU cache, and signals for a cached key are dropped. */
module SignalFilter {
  import opened Basics
  import opened RecencyList
  import opened TwoLevel
  import opened ShardedCache
  import Stack = StackProperty

  const BUCKETS := 16
  const CAPACITY := 300

  /** The stored interface value is always nil; only the key matters. */
  type Nil = Value<()>
  const NIL: Nil := Value(Some(()), [])
  const RELEASED: Nil := Value(None, [])
  const CFG := Config(BUCKETS, CAPACITY, None, false)

  /** What sending to a client of this node came to. */
  datatype Send = Sent | Failed(fatal: bool)

  /** The outside world as a handler finds it: the outcome of sending if the target is a client
      here, the address in the directory if there is one, this node's own address, and, if the
      node of that address is known, whether it accepted the message. */
  datatype World = World(client: Option<Send>, addr: Option<Text>, selfAddr: Text, node: Option<bool>)

  datatype Event =
    | Signal(from: Text, toPeerId: Text, to: Text, world: World, now: int64)
    | Reject(from: Text, toPeerId: Text, to: Text, world: World, now: int64)
  {
    function Target(): Text { if toPeerId == [] then to else toPeerId }
    function Key(): Text { KeyForFilter(from, Target()) }
    /** Whether handling this event, if not dropped, answers "peer not found". */
    predicate NotFound() {
      Signal? &&
      if world.client.Some? then world.client.value == Failed(false)
      else world.addr.None? || world.addr.value == world.selfAddr || world.node.None?
    }
    /** Whether handling this event, if not dropped, puts its key into the filter. */
    predicate Records() {
      if Signal? then NotFound()
      else world.client.Some? || (world.addr.Some? && world.addr.value != world.selfAddr && world.node == Some(true))
    }
  }

  /** What a handler hands out: a message to a client of this node or to another node. */
  datatype HandOff =
    | ToClient(target: Text, outcome: Send)
    | ToNode(addr: Text, target: Text, accepted: bool)

  /** What is handed out is what the world allows: to the client if it is one here, else to the
      node that the directory names if that is a known other one, and to nobody else. */
  ghost predicate Attempted(log: seq<HandOff>, target: Text, w: World) {
    forall x :: x in log <==>
      || (x.ToClient? && x.target == target && w.client == Some(x.outcome))
      || (x.ToNode? && x.target == target && w.client.None? && w.addr == Some(x.addr) && x.addr != w.selfAddr
          && w.node == Some(x.accepted))
  }

  /** No client took the message, no node was given it, and no send failed fatally. */
  ghost predicate Undelivered(log: seq<HandOff>) {
    forall x :: x in log ==> x.ToClient? && x.outcome == Failed(false)
  }

  /** The message was handed to a client or accepted by a node. */
  ghost predicate HandedOn(log: seq<HandOff>) {
    exists x :: x in log && (x.ToClient? || x.accepted)
  }

  /** The filter key for a pair of fields: the first one that is not empty names the target. */
  ghost predicate KeyOf(key: Text, from: Text, toPeerId: Text, to: Text) {
    (toPeerId != [] ==> key == from + toPeerId) && (toPeerId == [] ==> key == from + to)
  }

  datatype Reaction = Dropped | PeerNotFound | Passed

  function KeyForFilter(from: Text, to: Text): Text { from + to }

  type Filter = seq<Pair<Nil>>

  /** Whether the filter answers a look-up of `k` with a value. */
  ghost predicate Caches(s: Filter, k: Text, now: int64)
    requires ShapeOf(s, CFG)
  {
    var v := GetPair(s[BucketOf(k, BUCKETS)], CFG, k, now).1;
    v.Some? && v.value.iface.Some?
  }

  ghost function React(s: Filter, ev: Event): Reaction
    requires ShapeOf(s, CFG)
  {
    if Caches(s, ev.Key(), ev.now) then Dropped else if ev.NotFound() then PeerNotFound else Passed
  }

  /** The look-up with which every handler begins. */
  ghost function Looked(s: Filter, ev: Event): (s': Filter)
    requires ShapeOf(s, CFG)
    ensures ShapeOf(s', CFG)
  {
    Step(s, CFG, GetCall(ev.Key(), ev.now), RELEASED)
  }

  /** What a handler that was not stopped by its look-up does to the filter in the end. */
  ghost function Finished(s: Filter, ev: Event, now: int64): (s': Filter)
    requires ShapeOf(s, CFG)
    ensures ShapeOf(s', CFG)
  {
    if ev.Records() then Recorded(s, ev.Key(), now) else s
  }

  ghost function Recorded(s: Filter, k: Text, now: int64): (s': Filter)
    requires ShapeOf(s, CFG)
    ensures ShapeOf(s', CFG)
  {
    Step(s, CFG, PutCall(Entry(k, NIL, now)), RELEASED)
  }

  /** A handler that runs without interruption. */
  ghost function Next(s: Filter, ev: Event, later: int64): (s': Filter)
    requires ShapeOf(s, CFG)
    ensures ShapeOf(s', CFG)
  {
    if Caches(s, ev.Key(), ev.now) then Looked(s, ev) else Finished(Looked(s, ev), ev, later)
  }

  class Handlers {
    const filter: Cache<()>
    /** Histories: all messages handed out, and the "peer not found" answers with the sender
        that got them and the target they speak of. */
    var handed: seq<HandOff>
    var answers: seq<(Text, Text)>

    ghost predicate Valid()
      reads Footprint(filter.shards)
    {
      filter.Valid() && filter.cfg == CFG && filter.expiration == 0 && this !in Footprint(filter.shards)
    }

    ghost function Contents(): (s: Filter)
      requires Valid()
      reads Footprint(filter.shards)
      ensures ShapeOf(s, CFG)
    {
      filter.Contents()
    }

    constructor ()
      ensures Valid() && fresh(Footprint(filter.shards))
      ensures Contents() == Initial(CFG) && handed == [] && answers == []
    {
      hide Initial, ShapeOf, AllFit, Separate;
      filter := new Cache<()>(16, 300, None, 0);
      handed, answers := [], [];
    }

    /** SignalHandler.Handle; the delivery goes as the outside world says, and `later` is the
        time at its end. A signal that is not dropped is answered "peer not found", and its key
        recorded, exactly when it was not delivered. */
    method HandleSignal(ev: Event, later: int64) returns (r: Reaction, ghost log: seq<HandOff>)
      requires Valid() && ev.Signal?
      modifies this, Footprint(filter.shards)
      ensures Valid() && Contents() == Next(old(Contents()), ev, later) && r == React(old(Contents()), ev)
      ensures handed == old(handed) + log
      ensures r == Dropped <==> Caches(old(Contents()), ev.Key(), ev.now)
      ensures r == Dropped ==> log == [] && answers == old(answers) && Contents() == Looked(old(Contents()), ev)
      ensures r != Dropped ==> Attempted(log, ev.Target(), ev.world) && (r == PeerNotFound <==> Undelivered(log))
      ensures r == PeerNotFound ==>
                && answers == old(answers) + [(ev.from, ev.Target())]
                && Contents() == Recorded(Looked(old(Contents()), ev), ev.Key(), later)
      ensures r == Passed ==> answers == old(answers) && Contents() == Looked(old(Contents()), ev)
    {
      hide Looked, Finished, Recorded, GetPair, Cache.Valid, Cache.Contents, Footprint, ShapeOf, BucketOf;
      log := [];
      var hit := LookUp(ev);
      if hit {
        return Dropped, [];
      }
      r, log := Deliver(ev, later);
    }

    /** RejectHandler.Handle. A rejection that is not dropped is recorded exactly when it was
        handed on. */
    method HandleReject(ev: Event, later: int64) returns (ghost dropped: bool, ghost log: seq<HandOff>)
      requires Valid() && ev.Reject?
      modifies this, Footprint(filter.shards)
      ensures Valid() && Contents() == Next(old(Contents()), ev, later)
      ensures handed == old(handed) + log && answers == old(answers)
      ensures dropped <==> Caches(old(Contents()), ev.Key(), ev.now)
      ensures dropped ==> log == [] && Contents() == Looked(old(Contents()), ev)
      ensures !dropped ==>
                && Attempted(log, ev.Target(), ev.world)
                && Contents() == if HandedOn(log) then Recorded(Looked(old(Contents()), ev), ev.Key(), later)
                                 else Looked(old(Contents()), ev)
    {
      hide Looked, Finished, Recorded, GetPair, Cache.Valid, Cache.Contents, Footprint, ShapeOf, BucketOf;
      log := [];
      var hit := LookUp(ev);
      dropped := hit;
      if !hit {
        log := HandOn(ev, later);
      }
    }

    /** The first part of both handlers. */
    method LookUp(ev: Event) returns (hit: bool)
      requires Valid()
      modifies Footprint(filter.shards)
      ensures Valid() && Contents() == Looked(old(Contents()), ev)
      ensures hit <==> Caches(old(Contents()), ev.Key(), ev.now)
      ensures KeyOf(ev.Key(), ev.from, ev.toPeerId, ev.to)
    {
      hide Step, GetPair, Cache.Valid, Cache.Contents, Footprint, ShapeOf, BucketOf;
      var toPeerId := ev.toPeerId;
      if toPeerId == [] {
        toPeerId := ev.to;
      }
      var key := KeyForFilter(ev.from, toPeerId);
      var v := filter.Get(key, ev.now);
      hit := v.Some?;
    }

    method SendJsonToClient(target: Text, w: World) returns (outcome: Send)
      requires Valid() && w.client.Some?
      modifies this`handed
      ensures Valid() && Contents() == old(Contents())
      ensures outcome == w.client.value && handed == old(handed) + [ToClient(target, outcome)]
    {
      outcome := w.client.value;
      handed := handed + [ToClient(target, outcome)];
    }

    method SendMsgSignal(addr: Text, target: Text, w: World) returns (accepted: bool)
      requires Valid() && w.node.Some?
      modifies this`handed
      ensures Valid() && Contents() == old(Contents())
      ensures accepted == w.node.value && handed == old(handed) + [ToNode(addr, target, accepted)]
    {
      accepted := w.node.value;
      handed := handed + [ToNode(addr, target, accepted)];
    }

    /** The second part of SignalHandler.Handle. */
    method Deliver(ev: Event, now: int64) returns (r: Reaction, ghost log: seq<HandOff>)
      requires Valid() && ev.Signal?
      modifies this, Footprint(filter.shards)
      ensures Valid() && Contents() == Finished(old(Contents()), ev, now)
      ensures r == if ev.NotFound() then PeerNotFound else Passed
      ensures handed == old(handed) + log && Attempted(log, ev.Target(), ev.world)
      ensures r == PeerNotFound <==> Undelivered(log)
      ensures answers == old(answers) + if Undelivered(log) then [(ev.from, ev.Target())] else []
      ensures Contents() == if Undelivered(log) then Recorded(old(Contents()), ev.Key(), now) else old(Contents())
    {
      hide Step, Cache.Valid, Cache.Contents, Footprint, ShapeOf, BucketOf;
      var w, target := ev.world, ev.Target();
      log := [];
      if w.client.Some? {
        var outcome := SendJsonToClient(target, w);
        log := [ToClient(target, outcome)];
        assert ToClient(target, outcome) in log;
        if outcome.Failed? && !outcome.fatal {
          r := HandlePeerNotFound(ev.from, target, now);
          return;
        }
        return Passed, log;
      }
      if w.addr.Some? {
        if w.addr.value == w.selfAddr {
          r := HandlePeerNotFound(ev.from, target, now);
          return;
        }
        if w.node.Some? {
          var accepted := SendMsgSignal(w.addr.value, target, w);
          log := [ToNode(w.addr.value, target, accepted)];
          assert ToNode(w.addr.value, target, accepted) in log;
          return Passed, log;
        }
        r := HandlePeerNotFound(ev.from, target, now);
        return;
      }
      r := HandlePeerNotFound(ev.from, target, now);
    }

    /** The second part of RejectHandler.Handle. */
    method HandOn(ev: Event, now: int64) returns (ghost log: seq<HandOff>)
      requires Valid() && ev.Reject?
      modifies this, Footprint(filter.shards)
      ensures Valid() && Contents() == Finished(old(Contents()), ev, now)
      ensures handed == old(handed) + log && answers == old(answers) && Attempted(log, ev.Target(), ev.world)
      ensures Contents() == if HandedOn(log) then Recorded(old(Contents()), ev.Key(), now) else old(Contents())
    {
      hide Step, Cache.Valid, Cache.Contents, Footprint, ShapeOf, BucketOf;
      var w, target := ev.world, ev.Target();
      log := [];
      if w.client.Some? {
        var outcome := SendJsonToClient(target, w);
        log := [ToClient(target, outcome)];
        assert ToClient(target, outcome) in log;
        filter.Put(ev.Key(), NIL, now);
        return;
      }
      if w.addr.Some? && w.addr.value != w.selfAddr && w.node.Some? {
        var accepted := SendMsgSignal(w.addr.value, target, w);
        log := [ToNode(w.addr.value, target, accepted)];
        assert ToNode(w.addr.value, target, accepted) in log;
        if accepted {
          filter.Put(ev.Key(), NIL, now);
        }
      }
    }

    method HandlePeerNotFound(from: Text, target: Text, now: int64) returns (r: Reaction)
      requires Valid()
      modifies this`answers, Footprint(filter.shards)
      ensures Valid() && r == PeerNotFound && answers == old(answers) + [(from, target)]
      ensures Contents() == Recorded(old(Contents()), from + target, now)
    {
      hide Step, Cache.Valid, Cache.Contents, Footprint, ShapeOf, BucketOf;
      filter.Put(KeyForFilter(from, target), NIL, now);
      answers := answers + [(from, target)];
      return PeerNotFound;
    }
  }

  /** An event is answered "peer not found" exactly when it is a signal and no client takes it,
      no known node is given it and no send to a client fails fatally. */
  lemma NotFoundIff(ev: Event, log: seq<HandOff>)
    requires Attempted(log, ev.Target(), ev.world)
    ensures ev.NotFound() <==> ev.Signal? && Undelivered(log)
    ensures ev.Records() <==> if ev.Signal? then Undelivered(log) else HandedOn(log)
  {
    var w := ev.world;
    if w.client.Some? {
      assert ToClient(ev.Target(), w.client.value) in log;
    } else if w.addr.Some? && w.addr.value != w.selfAddr && w.node.Some? {
      assert ToNode(w.addr.value, ev.Target(), w.node.value) in log;
    }
  }

  /** Two pairs of peers share a filter key exactly when the longer sender name swallows the
      front of the other pair's target name; with sender names of one length, never. */
  lemma SharedKeyIff(from: Text, to: Text, from': Text, to': Text)
    requires |from| <= |from'|
    ensures KeyForFilter(from, to) == KeyForFilter(from', to') <==>
            from <= from' && to == from'[|from|..] + to'
  {
    var a, b := from + to, from' + to';
    if a == b {
      assert from == a[..|from|] && from' == b[..|from'|] && to == a[|from|..];
      assert b[|from|..] == from'[|from|..] + to';
    } else if from <= from' {
      assert from' == from + from'[|from|..];
      assert b == from + (from'[|from|..] + to');
    }
  }

  // ---------- whole runs, handlers interleaved ----------

  /** The filter and the handlers that have looked their key up in vain and not yet ended. */
  datatype System = System(filter: Filter, pending: map<nat, Event>)

  /** A handler begins with a look-up, and ends, much later perhaps, with its effect. */
  datatype Move = Look(h: nat, ev: Event) | Finish(h: nat, now: int64) {
    function Time(): int64 { match this case Look(_, ev) => ev.now case Finish(_, now) => now }
  }

  predicate Enabled(sys: System, m: Move) {
    match m
    case Look(h, _) => h !in sys.pending
    case Finish(h, _) => h in sys.pending
  }

  ghost function Apply(sys: System, m: Move): (sys': System)
    requires ShapeOf(sys.filter, CFG) && Enabled(sys, m)
    ensures ShapeOf(sys'.filter, CFG)
  {
    match m
    case Look(h, ev) =>
      System(Looked(sys.filter, ev), if Caches(sys.filter, ev.Key(), ev.now) then sys.pending else sys.pending[h := ev])
    case Finish(h, now) =>
      System(Finished(sys.filter, sys.pending[h], now), sys.pending - {h})
  }

  ghost function Run(ms: seq<Move>): (r: Option<System>)
    ensures r.Some? ==> ShapeOf(r.value.filter, CFG)
  {
    if ms == [] then Some(System(Initial(CFG), map[]))
    else
      var before, m := Run(ms[..|ms| - 1]), ms[|ms| - 1];
      if before.Some? && Enabled(before.value, m) then Some(Apply(before.value, m)) else None
  }

  ghost predicate ClockPositive(ms: seq<Move>) {
    forall i :: 0 <= i < |ms| ==> ms[i].Time() > 0
  }

  /** The list operation that a move performs on bucket `b`, if any. */
  ghost function OpsOf(sys: System, m: Move, b: nat): (ops: seq<Stack.Op<Nil>>)
    requires Enabled(sys, m)
    ensures |ops| <= 1
  {
    match m
    case Look(_, ev) => if BucketOf(ev.Key(), BUCKETS) == b then [Stack.GetOp(ev.Key())] else []
    case Finish(h, now) =>
      var ev := sys.pending[h];
      if BucketOf(ev.Key(), BUCKETS) == b && ev.Records() then [Stack.PutOp(Entry(ev.Key(), NIL, now))] else []
  }

  ghost function OpsAt(ms: seq<Move>, b: nat): seq<Stack.Op<Nil>>
    requires Run(ms).Some?
  {
    if ms == [] then [] else
      var before, m := ms[..|ms| - 1], ms[|ms| - 1];
      OpsAt(before, b) + OpsOf(Run(before).value, m, b)
  }

  /** The keys touched in bucket `b`, latest first. */
  ghost function Touches(ms: seq<Move>, b: nat): seq<Text>
    requires Run(ms).Some?
  {
    Stack.Touches(CAPACITY, OpsAt(ms, b))
  }

  /** Every entry answers look-ups. */
  ghost predicate Answers(l: Recency<Nil>) {
    DistinctKeys(l) && forall e :: e in l ==> e.Live() && e.val == NIL
  }

  lemma AnswersHit(s: Filter, k: Text, now: int64)
    requires ShapeOf(s, CFG) && Answers(s[BucketOf(k, BUCKETS)].l0)
    ensures Caches(s, k, now) <==> Stored(s[BucketOf(k, BUCKETS)].l0, k)
  {
    var l := s[BucketOf(k, BUCKETS)].l0;
    hide BucketOf;
    if Stored(l, k) {
      assert l[IndexOf(l, k)] in l;
    }
  }

  /** A move does its operation to the list of bucket `b`, which goes on answering. */
  lemma MoveBucket(sys: System, m: Move, b: nat)
    requires ShapeOf(sys.filter, CFG) && Enabled(sys, m) && b < BUCKETS && Answers(sys.filter[b].l0) && m.Time() > 0
    ensures var l, l', ops := sys.filter[b].l0, Apply(sys, m).filter[b].l0, OpsOf(sys, m, b);
            && l' == (if ops == [] then l else Stack.Apply(l, CAPACITY, ops[0]))
            && Answers(l')
  {
    hide BucketOf, Stack.Apply, Answers, Caches;
    var l, ops := sys.filter[b].l0, OpsOf(sys, m, b);
    if ops != [] {
      assert Apply(sys, m).filter[b].l0 == Stack.Apply(l, CAPACITY, ops[0]) by { MoveIs(sys, m, b); }
      OpAnswers(l, ops[0]);
    }
  }

  lemma MoveIs(sys: System, m: Move, b: nat)
    requires ShapeOf(sys.filter, CFG) && Enabled(sys, m) && b < BUCKETS && OpsOf(sys, m, b) != []
    ensures Apply(sys, m).filter[b].l0 == Stack.Apply(sys.filter[b].l0, CAPACITY, OpsOf(sys, m, b)[0])
  {
    hide BucketOf, Put, Get, Caches;
  }

  lemma OpAnswers(l: Recency<Nil>, op: Stack.Op<Nil>)
    requires Answers(l) && (op.PutOp? ==> op.e.Live() && op.e.val == NIL)
    ensures Answers(Stack.Apply(l, CAPACITY, op))
  {
    hide Put, Get, IndexOf;
    match op
    case PutOp(e) =>
      PutElements(l, CAPACITY, e);
    case GetOp(k) =>
      GetElements(l, k);
      assert Answers(Get(l, k));
  }

  lemma StackAppend(ops: seq<Stack.Op<Nil>>, op: Stack.Op<Nil>)
    ensures Stack.Run(CAPACITY, ops + [op]) == Stack.Apply(Stack.Run(CAPACITY, ops), CAPACITY, op)
    ensures Stack.Touches(CAPACITY, ops + [op]) ==
            (if op.PutOp? then [op.e.key] else if Stored(Stack.Run(CAPACITY, ops), op.k) then [op.k] else [])
            + Stack.Touches(CAPACITY, ops)
  {
    assert (ops + [op])[..|ops|] == ops;
  }

  /** Each bucket of the filter is the list that the operations on it produce. */
  lemma {:induction false} BucketRun(ms: seq<Move>, b: nat)
    requires Run(ms).Some? && ClockPositive(ms) && b < BUCKETS
    ensures Run(ms).value.filter[b].l0 == Stack.Run(CAPACITY, OpsAt(ms, b))
    ensures Answers(Run(ms).value.filter[b].l0)
  {
    if ms == [] {
    } else {
      RunStep(ms);
      hide Apply, Answers, OpsOf, Stack.Run, Stack.Apply, Run, ShapeOf;
      var before, m := ms[..|ms| - 1], ms[|ms| - 1];
      BucketRun(before, b);
      MoveBucket(Run(before).value, m, b);
      var ops, more := OpsAt(before, b), OpsOf(Run(before).value, m, b);
      if more == [] {
        assert ops + more == ops;
      } else {
        assert more == [more[0]];
        StackAppend(ops, more[0]);
      }
    }
  }

  /** A move adds at most one touch: of a key of the bucket, and a put always adds one. */
  lemma TouchesStep(ms: seq<Move>, b: nat)
    requires Run(ms).Some? && ms != []
    ensures var before := ms[..|ms| - 1];
            var t, t', ops := Touches(before, b), Touches(ms, b), OpsOf(Run(before).value, ms[|ms| - 1], b);
            && (t' == t || (t' != [] && t' == [t'[0]] + t && BucketOf(t'[0], BUCKETS) == b))
            && (ops != [] && ops[0].PutOp? ==> t' != [] && t'[0] == ops[0].e.key)
  {
    hide BucketOf, Stored, Stack.Run, Stack.Touches, Run;
    var before, m := ms[..|ms| - 1], ms[|ms| - 1];
    assert Run(before).Some? && Enabled(Run(before).value, m) by { RunStep(ms); }
    var ops, more := OpsAt(before, b), OpsOf(Run(before).value, m, b);
    if more == [] {
      assert ops + more == ops;
    } else {
      assert more == [more[0]];
      StackAppend(ops, more[0]);
      assert [] + Touches(before, b) == Touches(before, b);
    }
  }

  lemma RunStep(ms: seq<Move>)
    requires Run(ms).Some? && ms != []
    ensures Run(ms[..|ms| - 1]).Some? && Enabled(Run(ms[..|ms| - 1]).value, ms[|ms| - 1])
    ensures Run(ms).value == Apply(Run(ms[..|ms| - 1]).value, ms[|ms| - 1])
  {
  }

  lemma {:induction false} RunPrefix(ms: seq<Move>, i: nat)
    requires Run(ms).Some? && i <= |ms|
    ensures Run(ms[..i]).Some?
    ensures i < |ms| ==> Enabled(Run(ms[..i]).value, ms[i])
  {
    hide Run, Enabled, Apply;
    if i == |ms| {
      assert ms[..i] == ms;
    } else {
      RunStep(ms);
      var before := ms[..|ms| - 1];
      assert before[..i] == ms[..i];
      if i < |ms| - 1 {
        assert before[i] == ms[i];
        RunPrefix(before, i);
      }
    }
  }

  /** Only keys of the bucket are touched in it. */
  lemma {:induction false} TouchesAtHome(ms: seq<Move>, b: nat)
    requires Run(ms).Some?
    ensures forall x :: x in Touches(ms, b) ==> BucketOf(x, BUCKETS) == b
  {
    if ms == [] {
    } else {
      RunStep(ms);
      TouchesStep(ms, b);
      hide BucketOf, Touches, Run;
      TouchesAtHome(ms[..|ms| - 1], b);
    }
  }

  /** A look-up finds its key exactly when the key has been touched and fewer than 300 other
      keys of its bucket have been touched since. */
  lemma DroppedIff(ms: seq<Move>, ev: Event)
    requires Run(ms).Some? && ClockPositive(ms)
    ensures var k := ev.Key(); var touches := Touches(ms, BucketOf(k, BUCKETS));
            React(Run(ms).value.filter, ev) == Dropped <==> k in touches && |Stack.TouchedSince(touches, k)| < CAPACITY
  {
    var b := BucketOf(ev.Key(), BUCKETS);
    BucketRun(ms, b);
    AnswersHit(Run(ms).value.filter, ev.Key(), ev.now);
    Stack.StoredIff(CAPACITY, OpsAt(ms, b), ev.Key());
  }

  /** A touched key stays touched. */
  lemma {:induction false} TouchesGrow(ms: seq<Move>, i: nat, b: nat, k: Text)
    requires Run(ms).Some? && i <= |ms| && Run(ms[..i]).Some? && k in Touches(ms[..i], b)
    ensures k in Touches(ms, b)
  {
    hide BucketOf, Touches, Run;
    if i == |ms| {
      assert ms[..i] == ms;
    } else {
      var before := ms[..|ms| - 1];
      RunStep(ms);
      TouchesStep(ms, b);
      hide OpsOf, Apply;
      assert before[..i] == ms[..i];
      TouchesGrow(before, i, b, k);
    }
  }

  /** The event that is answered "peer not found" by the move at position `i`, if any. */
  ghost function Answered(ms: seq<Move>, i: nat): Option<Event>
    requires Run(ms).Some? && i < |ms|
  {
    RunPrefix(ms, i);
    var pending := Run(ms[..i]).value.pending;
    if ms[i].Finish? && pending[ms[i].h].NotFound() then Some(pending[ms[i].h]) else None
  }

  /** An answer "peer not found" touches its key, for good. */
  lemma AnswerTouches(ms: seq<Move>, i: nat)
    requires Run(ms).Some? && i < |ms| && Answered(ms, i).Some?
    ensures var k := Answered(ms, i).value.Key(); k in Touches(ms, BucketOf(k, BUCKETS))
  {
    RunPrefix(ms, i);
    RunPrefix(ms, i + 1);
    var upTo, k := ms[..i + 1], Answered(ms, i).value.Key();
    assert upTo[..i] == ms[..i] && upTo[i] == ms[i];
    TouchesStep(upTo, BucketOf(k, BUCKETS));
    hide BucketOf, Touches, Run;
    TouchesGrow(ms, i + 1, BucketOf(k, BUCKETS), k);
  }

  lemma PendingStep(sys: System, m: Move, h: nat)
    requires ShapeOf(sys.filter, CFG) && Enabled(sys, m) && h in Apply(sys, m).pending
    ensures var ev := Apply(sys, m).pending[h];
            || (h in sys.pending && sys.pending[h] == ev)
            || (m == Look(h, ev) && React(sys.filter, ev) != Dropped)
  {
    hide Looked, Finished, Caches, ShapeOf;
  }

  /** Nothing is pending at the beginning. */
  lemma PendingLater(ms: seq<Move>, h: nat)
    requires Run(ms).Some? && h in Run(ms).value.pending
    ensures ms != []
  {
  }

  /** A handler that is still to end began with a look-up that found nothing. */
  lemma {:induction false} PendingLooked(ms: seq<Move>, h: nat) returns (l: nat)
    requires Run(ms).Some? && h in Run(ms).value.pending
    ensures l < |ms| && ms[l] == Look(h, Run(ms).value.pending[h])
    ensures Run(ms[..l]).Some? && React(Run(ms[..l]).value.filter, Run(ms).value.pending[h]) != Dropped
  {
    hide Run, Apply, React, Enabled, ShapeOf;
    PendingLater(ms, h);
    RunStep(ms);
    var before, ev := ms[..|ms| - 1], Run(ms).value.pending[h];
    PendingStep(Run(before).value, ms[|ms| - 1], h);
    if h in Run(before).value.pending && Run(before).value.pending[h] == ev {
      l := PendingLooked(before, h);
      assert before[..l] == ms[..l];
    } else {
      l := |ms| - 1;
    }
  }

  /** The keys of its bucket that were touched since the latest touch of `k` are at least 300,
      all different from `k`. */
  ghost predicate ManySince(ms: seq<Move>, k: Text)
    requires Run(ms).Some?
  {
    var touches := Touches(ms, BucketOf(k, BUCKETS));
    var others := Stack.TouchedSince(touches, k);
    && k in touches && k !in others && |others| >= CAPACITY
    && forall x :: x in others ==> BucketOf(x, BUCKETS) == BucketOf(k, BUCKETS)
  }

  /** After an answer, a look-up of the same key finds nothing only when 300 others came in
      between. */
  lemma LookAfterAnswer(ms: seq<Move>, i: nat, ev: Event)
    requires Run(ms).Some? && ClockPositive(ms) && i < |ms|
    requires Answered(ms, i).Some? && Answered(ms, i).value.Key() == ev.Key()
    requires React(Run(ms).value.filter, ev) != Dropped
    ensures ManySince(ms, ev.Key())
  {
    var k, b := ev.Key(), BucketOf(ev.Key(), BUCKETS);
    AnswerTouches(ms, i);
    Stack.SinceOthers(Touches(ms, b), k);
    DroppedIff(ms, ev);
    TouchesAtHome(ms, b);
    hide Touches, BucketOf, Run, Caches, Stack.TouchedSince;
  }

  lemma AnsweredPrefix(ms: seq<Move>, l: nat, i: nat)
    requires Run(ms).Some? && i < l <= |ms|
    ensures Run(ms[..l]).Some? && Answered(ms[..l], i) == Answered(ms, i)
  {
    RunPrefix(ms, l);
    assert ms[..l][..i] == ms[..i] && ms[..l][i] == ms[i];
  }

  /** End to end: when one key is answered "peer not found" twice, the handler of the second
      answer had looked the key up before the first answer was recorded, or at least 300
      different other keys of the bucket had been touched since the key's latest touch when
      it looked. */
  lemma SecondAnswer(ms: seq<Move>, i: nat, j: nat) returns (l: nat)
    requires Run(ms).Some? && ClockPositive(ms) && i < j < |ms|
    requires Answered(ms, i).Some? && Answered(ms, j).Some?
    requires Answered(ms, i).value.Key() == Answered(ms, j).value.Key()
    ensures l < j && ms[l] == Look(ms[j].h, Answered(ms, j).value)
    ensures l < i || (Run(ms[..l]).Some? && ManySince(ms[..l], Answered(ms, j).value.Key()))
  {
    hide Run, Answered, ManySince, React;
    AnsweredPending(ms, j);
    var ev := Answered(ms, j).value;
    l := PendingLooked(ms[..j], ms[j].h);
    assert ms[..j][..l] == ms[..l] && ms[..j][l] == ms[l];
    if i < l {
      AnsweredPrefix(ms, l, i);
      LookAfterAnswer(ms[..l], i, ev);
    } else {
      SameMove(ms, i, l);
    }
  }

  /** A move that answers is no look-up. */
  lemma SameMove(ms: seq<Move>, i: nat, l: nat)
    requires Run(ms).Some? && i < |ms| && l < |ms| && Answered(ms, i).Some? && ms[l].Look?
    ensures i != l
  {
    hide Run;
  }

  lemma AnsweredPending(ms: seq<Move>, j: nat)
    requires Run(ms).Some? && j < |ms| && Answered(ms, j).Some?
    ensures ms[j].Finish? && Run(ms[..j]).Some? && ms[j].h in Run(ms[..j]).value.pending
    ensures Run(ms[..j]).value.pending[ms[j].h] == Answered(ms, j).value
  {
    RunPrefix(ms, j);
    hide Run;
  }

  /** The first case happens: two overlapping handlers of one event both answer. */
  lemma OverlapAnswersTwice(ev: Event, now: int64)
    requires ev.NotFound()
    ensures var ms := [Look(0, ev), Look(1, ev), Finish(0, now), Finish(1, now)];
            Run(ms).Some? && Answered(ms, 2) == Some(ev) && Answered(ms, 3) == Some(ev)
  {
    var ms := [Look(0, ev), Look(1, ev), Finish(0, now), Finish(1, now)];
    hide Finished, BucketOf;
    var s := Initial<Nil>(CFG);
    var s1 := Looked(s, ev);
    assert s1 == s;
    assert !Caches(s, ev.Key(), ev.now);
    assert ms[..3][..2] == ms[..2] && ms[..3][2] == ms[2];
    assert ms[..2][..1] == ms[..1] && ms[..2][1] == ms[1];
    assert ms[..1][..0] == [] && ms[..1][0] == ms[0];
    assert Run(ms[..1]) == Some(System(s, map[0 := ev]));
    assert Run(ms[..2]) == Some(System(s, map[0 := ev, 1 := ev]));
    assert Run(ms[..3]).Some? && Run(ms[..3]).value.pending == map[1 := ev];
    assert ms[..4] == ms;
  }
}
