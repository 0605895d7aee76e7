/** Signals on their way from many nodes to one: every sending node has an aggregator with one
    worker, all of them push to one Redis list, the receiving node pops it, and trims, clears,
    pops, panics, failing pushes and their retries interleave in any order. */
module Pipeline {
  import opened Basics
  import opened MessageQueue
  import A = AggregatorSteps

  /** Who pushes: a sender's worker, or the error handler for one of its batches. */
  datatype Pusher = Worker(i: nat) | Handler(i: nat, b: nat)

  /** A batch on the list, with whoever pushed it. */
  datatype Tagged<T> = Tagged(who: Pusher, items: seq<T>)

  /** The error handler runs beside the worker and is given the worker's array, not a copy of
      the batch. `read` is what it found there. */
  datatype Retry<T> = Retry(which: nat, read: Option<seq<T>>)

  /** For every sender: its aggregator, the arrays that its worker has used, the current one
      last, all batches handed to the batch processor, and the number of them up to the latest
      one that was pushed. `retries` are the error handlers at work, by sender and batch.
      `pushed` and `popped` are histories; `trimming` are those that have pushed onto a long
      list and not trimmed it yet; `failed` counts trims that did not happen. */
  datatype State<T> = State(
    senders: seq<A.State<T>>,
    arrays: seq<seq<seq<T>>>,
    handed: seq<seq<seq<T>>>,
    upto: seq<nat>,
    retries: map<(nat, nat), Retry<T>>,
    list: seq<Tagged<T>>,
    pushed: seq<Tagged<T>>,
    popped: seq<Tagged<T>>,
    trimming: set<Pusher>,
    failed: nat)

  /** A step of a sender's aggregator comes with the outcome of its push, should it make one. */
  datatype Step<T> =
    | Sender(i: nat, step: A.Step<T>, ok: bool)
    | Read(i: nat, b: nat)
    | Resend(i: nat, b: nat, ok: bool)
    | Trim(who: Pusher, ok: bool)
    | Pop
    | Clear

  function Initial<T>(n: nat, now: int): State<T> {
    State(seq(n, _ => A.Initial(1, now)), seq(n, _ => [[]]), seq(n, _ => []), seq(n, _ => 0),
          map[], [], [], [], {}, 0)
  }

  predicate Shaped<T>(s: State<T>) {
    && |s.arrays| == |s.handed| == |s.upto| == |s.senders|
    && (forall i :: 0 <= i < |s.arrays| ==> s.arrays[i] != [])
    && (forall i :: 0 <= i < |s.senders| ==> |s.senders[i].workers| == 1)
  }

  /** Whether a step's processing panicked. */
  predicate Panicked<T>(before: A.State<T>, after: A.State<T>) { |after.lost| > |before.lost| }

  /** The batch that a sender's step hands to the processor, if any. */
  function HandedOver<T>(before: A.State<T>, after: A.State<T>): seq<seq<T>> {
    if |after.processed| > |before.processed| then [after.processed[|after.processed| - 1]]
    else if Panicked(before, after) then [after.lost[|before.lost|..]]
    else []
  }

  /** An array after `x` has been appended to the first `p` of its elements. */
  function Write<T>(cells: seq<T>, p: nat, x: T): seq<T> {
    if p < |cells| then cells[p := x] else cells + [x]
  }

  /** The arrays after a step: a dequeued item is appended to the batch in the current array,
      and a worker that starts afresh makes a new one. */
  function ArraysAfter<T>(arrays: seq<seq<T>>, before: A.State<T>, a: A.Step<T>, after: A.State<T>): (r: seq<seq<T>>)
    requires arrays != [] && |before.workers| == 1
    ensures r != []
  {
    var cur := |arrays| - 1;
    var written :=
      if a.Request? && before.queue != [] then
        arrays[cur := Write(arrays[cur], |before.workers[0].batch|, before.queue[0])]
      else arrays;
    if Panicked(before, after) then written + [[]] else written
  }

  /** What an error handler sends if it reads now. */
  function Content<T>(s: State<T>, i: nat, b: nat): seq<T>
    requires Shaped(s) && i < |s.senders| && b < |s.handed[i]| && (i, b) in s.retries
  {
    var g, n := s.retries[(i, b)].which, |s.handed[i][b]|;
    if g < |s.arrays[i]| && n <= |s.arrays[i][g]| then s.arrays[i][g][..n] else []
  }

  predicate Enabled<T>(cfg: A.Config, s: State<T>, step: Step<T>) {
    Shaped(s) &&
    match step
    case Sender(i, a, _) =>
      && i < |s.senders| && A.Enabled(cfg, s.senders[i], a)
      && (HandedOver(s.senders[i], A.Apply(cfg, s.senders[i], a)) != [] ==> Worker(i) !in s.trimming)
    case Read(i, b) => i < |s.senders| && b < |s.handed[i]| && (i, b) in s.retries && s.retries[(i, b)].read.None?
    case Resend(i, b, _) =>
      && i < |s.senders| && b < |s.handed[i]| && (i, b) in s.retries && s.retries[(i, b)].read.Some?
      && Handler(i, b) !in s.trimming
    case Trim(who, _) => who in s.trimming
    case Pop => s.list != []
    case Clear => true
  }

  /** `who` pushes a batch, and is to trim a list that has become too long; a worker whose
      processing panics does not get to that. */
  function Push<T>(s: State<T>, who: Pusher, items: seq<T>, panics: bool): State<T> {
    var list := s.list + [Tagged(who, items)];
    var long := |list| > MQ_MAX_LEN;
    s.(list := list, pushed := s.pushed + [Tagged(who, items)],
       trimming := if long && !panics then s.trimming + {who} else s.trimming,
       failed := if long && panics then s.failed + 1 else s.failed)
  }

  /** A step of sender `i` that hands batch `batch` over, the push being done or refused. */
  function HandOver<T>(s: State<T>, i: nat, batch: seq<T>, ok: bool, panics: bool): State<T>
    requires Shaped(s) && i < |s.senders|
  {
    var b := |s.handed[i]|;
    var s1 := s.(handed := s.handed[i := s.handed[i] + [batch]]);
    if ok then Push(s1, Worker(i), batch, panics).(upto := s.upto[i := b + 1])
    else if panics then s1
    else s1.(retries := s.retries[(i, b) := Retry(|s.arrays[i]| - 1, None)])
  }

  /** The part of a step of sender `i` inside its aggregator. */
  function Inside<T>(cfg: A.Config, s: State<T>, i: nat, a: A.Step<T>): (s': State<T>)
    requires Shaped(s) && i < |s.senders| && A.Enabled(cfg, s.senders[i], a)
    ensures Shaped(s')
  {
    var before, after := s.senders[i], A.Apply(cfg, s.senders[i], a);
    OneWorker(cfg, before, a);
    s.(senders := s.senders[i := after], arrays := s.arrays[i := ArraysAfter(s.arrays[i], before, a, after)])
  }

  lemma OneWorker<T>(cfg: A.Config, s: A.State<T>, a: A.Step<T>)
    requires A.Enabled(cfg, s, a)
    ensures |A.Apply(cfg, s, a).workers| == |s.workers|
  {
  }

  function Apply<T>(cfg: A.Config, s: State<T>, step: Step<T>): State<T>
    requires Enabled(cfg, s, step)
  {
    match step
    case Sender(i, a, ok) =>
      var before, after := s.senders[i], A.Apply(cfg, s.senders[i], a);
      var h := HandedOver(before, after);
      // A failed push is reported with the array that holds the batch.
      var s1 := if h == [] then s else HandOver(s, i, h[0], ok, Panicked(before, after));
      Inside(cfg, s1, i, a)
    case Read(i, b) =>
      s.(retries := s.retries[(i, b) := s.retries[(i, b)].(read := Some(Content(s, i, b)))])
    case Resend(i, b, ok) =>
      var s1 := s.(retries := s.retries - {(i, b)});
      if ok then Push(s1, Handler(i, b), s.retries[(i, b)].read.value, false).(upto := s.upto[i := b + 1]) else s1
    case Trim(who, ok) =>
      if ok then s.(list := TrimMQ(s.list, MQ_LEN_AFTER_TRIM), trimming := s.trimming - {who})
      else s.(trimming := s.trimming - {who}, failed := s.failed + 1)
    case Pop => s.(popped := s.popped + [s.list[0]], list := s.list[1..])
    case Clear => s.(list := ClearMQ(s.list))
  }

  function Run<T>(cfg: A.Config, n: nat, now: int, steps: seq<Step<T>>): Option<State<T>> {
    if steps == [] then Some(Initial(n, now))
    else
      match Run(cfg, n, now, steps[..|steps| - 1])
      case None => None
      case Some(s) => if Enabled(cfg, s, steps[|steps| - 1]) then Some(Apply(cfg, s, steps[|steps| - 1])) else None
  }

  // ---------- the length of the list ----------

  ghost predicate BoundInv<T>(s: State<T>) {
    |s.list| <= MQ_MAX_LEN + |s.trimming| + s.failed
  }

  lemma PushBound<T>(s: State<T>, who: Pusher, items: seq<T>, panics: bool)
    requires BoundInv(s) && who !in s.trimming
    ensures BoundInv(Push(s, who, items, panics))
  {
  }

  lemma BoundStep<T>(cfg: A.Config, s: State<T>, step: Step<T>)
    requires BoundInv(s) && Enabled(cfg, s, step)
    ensures BoundInv(Apply(cfg, s, step))
  {
    TrimKeepsLatest(s.list, MQ_LEN_AFTER_TRIM);
    hide TrimMQ, ClearMQ, A.Apply, A.Enabled, Push, ArraysAfter, HandedOver, Content;
    match step
    case Sender(i, a, ok) =>
      var before, after := s.senders[i], A.Apply(cfg, s.senders[i], a);
      var h := HandedOver(before, after);
      if h != [] && ok {
        PushBound(s.(handed := s.handed[i := s.handed[i] + [h[0]]]), Worker(i), h[0], Panicked(before, after));
      }
    case Resend(i, b, ok) =>
      if ok {
        PushBound(s.(retries := s.retries - {(i, b)}), Handler(i, b), s.retries[(i, b)].read.value, false);
      }
    case _ =>
  }

  /** However many senders interleave, the list exceeds its limit by at most one batch for
      each sender or error handler between its push and its trim, and each failed trim. */
  lemma {:induction false} ListBound<T>(cfg: A.Config, n: nat, now: int, steps: seq<Step<T>>)
    requires Run(cfg, n, now, steps).Some?
    ensures var s := Run(cfg, n, now, steps).value;
            && |s.list| <= 1000 + |s.trimming| + s.failed
            && (s.trimming == {} && s.failed == 0 ==> |s.list| <= 1000)
  {
    hide Enabled, Apply;
    if steps == [] {
    } else {
      var before := steps[..|steps| - 1];
      ListBound(cfg, n, now, before);
      BoundStep(cfg, Run(cfg, n, now, before).value, steps[|steps| - 1]);
    }
  }

  // ---------- order ----------

  /** `a` is what is left of `b` after some elements have been taken out. */
  ghost predicate Sub<T>(a: seq<T>, b: seq<T>)
    decreases |b|
  {
    a == [] ||
    (b != [] && (Sub(a, b[..|b| - 1]) || (a[|a| - 1] == b[|b| - 1] && Sub(a[..|a| - 1], b[..|b| - 1]))))
  }

  lemma {:induction false} SubExtend<T>(a: seq<T>, b: seq<T>, c: seq<T>)
    requires Sub(a, b)
    ensures Sub(a, b + c)
    decreases |c|
  {
    if c == [] {
      assert b + c == b;
    } else {
      SubExtend(a, b, c[..|c| - 1]);
      assert (b + c)[..|b + c| - 1] == b + c[..|c| - 1];
    }
  }

  lemma {:induction false} SubAppend<T>(a: seq<T>, b: seq<T>, c: seq<T>)
    requires Sub(a, b)
    ensures Sub(a + c, b + c)
    decreases |c|
  {
    if c == [] {
      assert a + c == a && b + c == b;
    } else {
      SubAppend(a, b, c[..|c| - 1]);
      assert (b + c)[..|b + c| - 1] == b + c[..|c| - 1];
      assert (a + c)[..|a + c| - 1] == a + c[..|c| - 1];
    }
  }

  lemma {:induction false} SubTrans<T>(a: seq<T>, b: seq<T>, c: seq<T>)
    requires Sub(a, b) && Sub(b, c)
    ensures Sub(a, c)
    decreases |c|
  {
    if a == [] {
    } else if Sub(b, c[..|c| - 1]) {
      SubTrans(a, b, c[..|c| - 1]);
    } else if Sub(a, b[..|b| - 1]) {
      SubTrans(a, b[..|b| - 1], c[..|c| - 1]);
    } else {
      SubTrans(a[..|a| - 1], b[..|b| - 1], c[..|c| - 1]);
    }
  }

  /** Positions of the elements of `a` in `b`, strictly increasing. */
  ghost predicate Embeds<T>(at: seq<nat>, a: seq<T>, b: seq<T>) {
    && |at| == |a|
    && (forall j :: 0 <= j < |a| ==> at[j] < |b| && a[j] == b[at[j]])
    && (forall i, j :: 0 <= i < j < |at| ==> at[i] < at[j])
  }

  lemma {:induction false} SubEmbeds<T>(a: seq<T>, b: seq<T>) returns (at: seq<nat>)
    requires Sub(a, b)
    ensures Embeds(at, a, b)
    decreases |b|
  {
    if a == [] {
      at := [];
    } else if Sub(a, b[..|b| - 1]) {
      at := SubEmbeds(a, b[..|b| - 1]);
    } else {
      at := SubEmbeds(a[..|a| - 1], b[..|b| - 1]);
      at := at + [|b| - 1];
    }
  }

  /** The items that sender `i` contributed to `bs`. */
  function ItemsOf<T>(bs: seq<Tagged<T>>, i: nat): seq<T> {
    if bs == [] then []
    else ItemsOf(bs[..|bs| - 1], i) + if bs[|bs| - 1].who.i == i then bs[|bs| - 1].items else []
  }

  lemma Associates<T>(a: seq<T>, b: seq<T>, c: seq<T>)
    ensures a + b + c == a + (b + c)
  {
  }

  lemma ItemsPush<T>(pushed: seq<Tagged<T>>, b: Tagged<T>, i: nat)
    ensures ItemsOf(pushed + [b], i) == ItemsOf(pushed, i) + if b.who.i == i then b.items else []
  {
    assert (pushed + [b])[..|pushed|] == pushed;
  }

  lemma {:induction false} ItemsAppend<T>(a: seq<Tagged<T>>, b: seq<Tagged<T>>, i: nat)
    ensures ItemsOf(a + b, i) == ItemsOf(a, i) + ItemsOf(b, i)
  {
    if b == [] {
      assert a + b == a;
    } else {
      hide ItemsOf;
      var init, last := b[..|b| - 1], b[|b| - 1];
      var t := if last.who.i == i then last.items else [];
      ItemsAppend(a, init, i);
      assert a + b == (a + init) + [last];
      assert b == init + [last];
      ItemsPush(a + init, last, i);
      ItemsPush(init, last, i);
      Associates(ItemsOf(a, i), ItemsOf(init, i), t);
    }
  }

  /** The list is the end of what has been pushed, and what sender `i` has had popped is in
      order among what it had pushed before the list begins. */
  ghost predicate ListInv<T>(list: seq<Tagged<T>>, pushed: seq<Tagged<T>>, popped: seq<Tagged<T>>, i: nat) {
    && |list| <= |pushed|
    && list == pushed[|pushed| - |list|..]
    && Sub(ItemsOf(popped, i), ItemsOf(pushed[..|pushed| - |list|], i))
  }

  ghost predicate OrderInv<T>(s: State<T>, i: nat) { ListInv(s.list, s.pushed, s.popped, i) }

  lemma OrderPush<T>(list: seq<Tagged<T>>, pushed: seq<Tagged<T>>, popped: seq<Tagged<T>>, i: nat, b: Tagged<T>)
    requires ListInv(list, pushed, popped, i)
    ensures ListInv(list + [b], pushed + [b], popped, i)
  {
    var h := |pushed| - |list|;
    assert (pushed + [b])[..h] == pushed[..h];
  }

  lemma OrderPop<T>(list: seq<Tagged<T>>, pushed: seq<Tagged<T>>, popped: seq<Tagged<T>>, i: nat)
    requires ListInv(list, pushed, popped, i) && list != []
    ensures ListInv(list[1..], pushed, popped + [list[0]], i)
  {
    hide Sub;
    var h, b := |pushed| - |list|, list[0];
    assert pushed[..h + 1] == pushed[..h] + [b];
    ItemsAppend(pushed[..h], [b], i);
    ItemsAppend(popped, [b], i);
    SubAppend(ItemsOf(popped, i), ItemsOf(pushed[..h], i), ItemsOf([b], i));
  }

  lemma DropSlices<T>(pushed: seq<T>, h: nat, n: nat)
    requires h + n <= |pushed|
    ensures pushed[h..][n..] == pushed[h + n..] && pushed[..h + n] == pushed[..h] + pushed[h..h + n]
  {
  }

  /** Dropping batches from the front of the list. */
  lemma OrderDrop<T>(list: seq<Tagged<T>>, pushed: seq<Tagged<T>>, popped: seq<Tagged<T>>, i: nat, n: nat)
    requires ListInv(list, pushed, popped, i) && n <= |list|
    ensures ListInv(list[n..], pushed, popped, i)
  {
    hide Sub, ItemsOf;
    var h := |pushed| - |list|;
    DropSlices(pushed, h, n);
    ItemsAppend(pushed[..h], pushed[h..h + n], i);
    SubExtend(ItemsOf(popped, i), ItemsOf(pushed[..h], i), ItemsOf(pushed[h..h + n], i));
  }

  lemma OrderStep<T>(cfg: A.Config, s: State<T>, step: Step<T>, i: nat)
    requires OrderInv(s, i) && Enabled(cfg, s, step)
    ensures OrderInv(Apply(cfg, s, step), i)
  {
    hide A.Apply, A.Enabled, ListInv, TrimMQ, ClearMQ, ArraysAfter, HandedOver, Content;
    match step
    case Sender(j, a, ok) =>
      var h := HandedOver(s.senders[j], A.Apply(cfg, s.senders[j], a));
      if h != [] { OrderPush(s.list, s.pushed, s.popped, i, Tagged(Worker(j), h[0])); }
    case Read(_, _) =>
    case Resend(j, b, _) =>
      OrderPush(s.list, s.pushed, s.popped, i, Tagged(Handler(j, b), s.retries[(j, b)].read.value));
    case Trim(_, _) =>
      TrimKeepsLatest(s.list, MQ_LEN_AFTER_TRIM);
      var n := if |s.list| <= MQ_LEN_AFTER_TRIM then 0 else |s.list| - MQ_LEN_AFTER_TRIM;
      OrderDrop(s.list, s.pushed, s.popped, i, n);
    case Pop => OrderPop(s.list, s.pushed, s.popped, i);
    case Clear =>
      TrimKeepsLatest(s.list, MQ_LEN_AFTER_TRIM);
      assert s.list[|s.list|..] == [];
      OrderDrop(s.list, s.pushed, s.popped, i, |s.list|);
  }

  /** All that a sender accepted has been handed over, is in hand or queued, in this order,
      whether or not its processing panicked. */
  ghost predicate Handed<T>(k: A.State<T>, handed: seq<seq<T>>) {
    |k.workers| == 1 && k.accepted == A.Flatten(handed) + A.InHand(k.workers[0]) + k.queue
  }

  lemma HandedRequest<T>(cfg: A.Config, k: A.State<T>, handed: seq<seq<T>>, panics: bool)
    requires Handed(k, handed) && A.Enabled(cfg, k, A.Request(0, panics))
    ensures var k' := A.Apply(cfg, k, A.Request(0, panics)); Handed(k', handed + HandedOver(k, k'))
  {
    hide A.Flatten;
    var f, b, q := A.Flatten(handed), k.workers[0].batch, k.queue;
    var k' := A.Apply(cfg, k, A.Request(0, panics));
    A.FlattenAppend(handed, b + [q[0]]);
    assert f + b + q == f + (b + [q[0]]) + q[1..];
    assert f + (b + [q[0]]) + [] == f + (b + [q[0]]);
    assert handed + [] == handed;
    assert (k.lost + (b + [q[0]]))[|k.lost|..] == b + [q[0]];
  }

  lemma HandedStep<T>(cfg: A.Config, k: A.State<T>, handed: seq<seq<T>>, a: A.Step<T>)
    requires Handed(k, handed) && A.Enabled(cfg, k, a)
    ensures var k' := A.Apply(cfg, k, a); Handed(k', handed + HandedOver(k, k'))
  {
    hide A.Flatten;
    var f, b, q := A.Flatten(handed), k.workers[0].batch, k.queue;
    assert handed + [] == handed;
    match a
    case Request(w, panics) => HandedRequest(cfg, k, handed, panics);
    case Linger(_, _) =>
      A.FlattenAppend(handed, b);
      assert (k.lost + b)[|k.lost|..] == b && f + b + [] == f + b;
    case Quit(_, _) =>
      A.FlattenAppend(handed, b);
      assert (k.lost + b)[|k.lost|..] == b && f + b + [] == f + b;
    case _ =>
  }

  lemma {:induction false} FlattenConcat<T>(a: seq<seq<T>>, b: seq<seq<T>>)
    ensures A.Flatten(a + b) == A.Flatten(a) + A.Flatten(b)
    decreases |b|
  {
    if b == [] {
      assert a + b == a;
    } else {
      hide A.Flatten;
      var init, last := b[..|b| - 1], b[|b| - 1];
      FlattenConcat(a, init);
      assert a + b == (a + init) + [last];
      assert b == init + [last];
      A.FlattenAppend(a + init, last);
      A.FlattenAppend(init, last);
      Associates(A.Flatten(a), A.Flatten(init), last);
    }
  }

  /** What sender `i` has pushed is in order among what it handed over up to its latest push. */
  ghost predicate SenderInv<T>(s: State<T>, i: nat) {
    Shaped(s) && i < |s.senders| && SentInv(s.senders[i], s.handed[i], s.upto[i], ItemsOf(s.pushed, i))
  }

  ghost predicate SentInv<T>(k: A.State<T>, handed: seq<seq<T>>, upto: nat, sent: seq<T>) {
    Handed(k, handed) && upto <= |handed| && Sub(sent, A.Flatten(handed[..upto]))
  }

  /** A retry that is pushed sends the batch that failed, and no later batch of its sender has
      been pushed. */
  ghost predicate Punctual<T>(s: State<T>, step: Step<T>) {
    step.Resend? && step.ok ==>
      && step.i < |s.upto| == |s.handed| && step.b < |s.handed[step.i]| && (step.i, step.b) in s.retries
      && s.upto[step.i] <= step.b
      && s.retries[(step.i, step.b)].read == Some(s.handed[step.i][step.b])
  }

  /** What is in order among the first batches is in order among more of them. */
  lemma SubUpto<T>(sent: seq<T>, handed: seq<seq<T>>, upto: nat, b: nat)
    requires upto <= b <= |handed| && Sub(sent, A.Flatten(handed[..upto]))
    ensures Sub(sent, A.Flatten(handed[..b]))
  {
    hide Sub, A.Flatten;
    assert handed[..b] == handed[..upto] + handed[upto..b];
    FlattenConcat(handed[..upto], handed[upto..b]);
    SubExtend(sent, A.Flatten(handed[..upto]), A.Flatten(handed[upto..b]));
  }

  /** A push of batch `b` when no later one has been pushed. */
  lemma PushedInOrder<T>(sent: seq<T>, handed: seq<seq<T>>, upto: nat, b: nat)
    requires upto <= b < |handed| && Sub(sent, A.Flatten(handed[..upto]))
    ensures Sub(sent + handed[b], A.Flatten(handed[..b + 1]))
  {
    hide Sub, A.Flatten;
    SubUpto(sent, handed, upto, b);
    assert handed[..b + 1] == handed[..b] + [handed[b]];
    A.FlattenAppend(handed[..b], handed[b]);
    SubAppend(sent, A.Flatten(handed[..b]), handed[b]);
  }

  lemma Prefixed<T>(s: seq<T>, x: T, n: nat)
    requires n <= |s|
    ensures (s + [x])[..n] == s[..n] && (s + [x])[..|s| + 1] == s + [x] && s[..|s|] == s
  {
  }

  /** One more batch, pushed or not. */
  lemma SentMore<T>(handed: seq<seq<T>>, upto: nat, sent: seq<T>, batch: seq<T>)
    requires upto <= |handed| && Sub(sent, A.Flatten(handed[..upto]))
    ensures (handed + [batch])[..upto] == handed[..upto]
    ensures (handed + [batch])[..|handed| + 1] == handed + [batch]
    ensures Sub(sent + batch, A.Flatten(handed + [batch]))
  {
    hide Sub, A.Flatten;
    Prefixed(handed, batch, upto);
    SubUpto(sent, handed, upto, |handed|);
    A.FlattenAppend(handed, batch);
    SubAppend(sent, A.Flatten(handed), batch);
  }

  /** What a step of a sender does to its own order, with a push that succeeds or is refused. */
  lemma SentStep<T>(cfg: A.Config, k: A.State<T>, handed: seq<seq<T>>, upto: nat, sent: seq<T>, a: A.Step<T>)
    requires SentInv(k, handed, upto, sent) && A.Enabled(cfg, k, a)
    ensures var k' := A.Apply(cfg, k, a); var h := HandedOver(k, k');
            && |h| <= 1
            && (h == [] ==> SentInv(k', handed, upto, sent))
            && (h != [] ==> SentInv(k', handed + [h[0]], |handed| + 1, sent + h[0]))
            && (h != [] ==> SentInv(k', handed + [h[0]], upto, sent))
  {
    var k' := A.Apply(cfg, k, a);
    var h := HandedOver(k, k');
    HandedStep(cfg, k, handed, a);
    assert |h| <= 1;
    hide A.Apply, A.Enabled, A.Flatten, Sub, HandedOver, Handed;
    if h == [] {
      assert handed + h == handed;
    } else {
      assert h == [h[0]];
      SentMore(handed, upto, sent, h[0]);
    }
  }

  /** A step of sender `i` itself. */
  lemma OwnStep<T>(cfg: A.Config, s: State<T>, i: nat, a: A.Step<T>, ok: bool)
    requires SenderInv(s, i) && Enabled(cfg, s, Sender(i, a, ok))
    ensures SenderInv(Apply(cfg, s, Sender(i, a, ok)), i)
  {
    SentStep(cfg, s.senders[i], s.handed[i], s.upto[i], ItemsOf(s.pushed, i), a);
    var h := HandedOver(s.senders[i], A.Apply(cfg, s.senders[i], a));
    hide A.Apply, A.Enabled, SentInv, ItemsOf, ArraysAfter, HandedOver;
    if h != [] {
      ItemsPush(s.pushed, Tagged(Worker(i), h[0]), i);
    }
  }

  /** What a step of sender `j` leaves alone. */
  lemma SenderFrame<T>(cfg: A.Config, s: State<T>, j: nat, a: A.Step<T>, ok: bool, i: nat)
    requires Enabled(cfg, s, Sender(j, a, ok)) && j != i && i < |s.senders|
    ensures var s' := Apply(cfg, s, Sender(j, a, ok));
            && Shaped(s') && |s'.senders| == |s.senders|
            && s'.senders[i] == s.senders[i] && s'.arrays[i] == s.arrays[i] && s'.handed[i] == s.handed[i]
            && s'.upto[i] == s.upto[i]
            && (s'.pushed == s.pushed || (s'.pushed != [] && s'.pushed == s.pushed + [s'.pushed[|s'.pushed| - 1]]
                                          && s'.pushed[|s'.pushed| - 1].who.i == j))
            && (forall b :: (i, b) in s'.retries <==> (i, b) in s.retries)
            && (forall b :: (i, b) in s.retries ==> s'.retries[(i, b)] == s.retries[(i, b)])
  {
    hide A.Apply, A.Enabled, ArraysAfter, HandedOver;
  }

  /** A step of another sender. */
  lemma OtherStep<T>(cfg: A.Config, s: State<T>, i: nat, j: nat, a: A.Step<T>, ok: bool)
    requires SenderInv(s, i) && Enabled(cfg, s, Sender(j, a, ok)) && j != i
    ensures SenderInv(Apply(cfg, s, Sender(j, a, ok)), i)
  {
    SenderFrame(cfg, s, j, a, ok, i);
    hide Enabled, Apply, SentInv, ItemsOf, Shaped;
    var s' := Apply(cfg, s, Sender(j, a, ok));
    if s'.pushed != s.pushed {
      ItemsPush(s.pushed, s'.pushed[|s'.pushed| - 1], i);
      assert ItemsOf(s.pushed, i) + [] == ItemsOf(s.pushed, i);
    }
  }

  lemma ResendStep<T>(cfg: A.Config, s: State<T>, i: nat, j: nat, b: nat, ok: bool)
    requires SenderInv(s, i) && Enabled(cfg, s, Resend(j, b, ok)) && Punctual(s, Resend(j, b, ok))
    ensures SenderInv(Apply(cfg, s, Resend(j, b, ok)), i)
  {
    hide A.Flatten, Sub, ItemsOf, Handed;
    ItemsPush(s.pushed, Tagged(Handler(j, b), s.retries[(j, b)].read.value), i);
    assert ItemsOf(s.pushed, i) + [] == ItemsOf(s.pushed, i);
    if ok && i == j {
      PushedInOrder(ItemsOf(s.pushed, i), s.handed[i], s.upto[i], b);
    }
  }

  lemma SenderStep<T>(cfg: A.Config, s: State<T>, step: Step<T>, i: nat)
    requires SenderInv(s, i) && Enabled(cfg, s, step) && Punctual(s, step)
    ensures SenderInv(Apply(cfg, s, step), i)
  {
    hide A.Apply, A.Enabled, TrimMQ, ClearMQ, Content, SentInv, ItemsOf, HandedOver;
    match step
    case Sender(j, a, ok) =>
      hide SenderInv;
      if j == i { OwnStep(cfg, s, i, a, ok); } else { OtherStep(cfg, s, i, j, a, ok); }
    case Resend(j, b, ok) =>
      hide SenderInv;
      ResendStep(cfg, s, i, j, b, ok);
    case _ =>
  }

  lemma InitialOrder<T>(n: nat, now: int, i: nat)
    requires i < n
    ensures OrderInv(Initial<T>(n, now), i) && SenderInv(Initial<T>(n, now), i)
  {
    var s: State<T> := Initial(n, now);
    assert s.pushed[..0] == [];
    var k: A.State<T> := A.Initial(1, now);
    assert s.senders[i] == k;
    assert k.accepted == A.Flatten(s.handed[i]) + A.InHand(k.workers[0]) + k.queue;
  }

  /** Every retry that is pushed is punctual. */
  ghost predicate AllPunctual<T>(cfg: A.Config, n: nat, now: int, steps: seq<Step<T>>)
    requires Run(cfg, n, now, steps).Some?
  {
    steps == [] ||
    var before := steps[..|steps| - 1];
    AllPunctual(cfg, n, now, before) && Punctual(Run(cfg, n, now, before).value, steps[|steps| - 1])
  }

  lemma {:induction false} RunOrder<T>(cfg: A.Config, n: nat, now: int, steps: seq<Step<T>>, i: nat)
    requires i < n && Run(cfg, n, now, steps).Some? && AllPunctual(cfg, n, now, steps)
    ensures OrderInv(Run(cfg, n, now, steps).value, i) && SenderInv(Run(cfg, n, now, steps).value, i)
  {
    hide Enabled, Apply, OrderInv, SenderInv, Punctual;
    if steps == [] {
      InitialOrder<T>(n, now, i);
    } else {
      var before := steps[..|steps| - 1];
      RunOrder(cfg, n, now, before, i);
      OrderStep(cfg, Run(cfg, n, now, before).value, steps[|steps| - 1], i);
      SenderStep(cfg, Run(cfg, n, now, before).value, steps[|steps| - 1], i);
    }
  }

  /** Pipeline order: the list is always the end of what was pushed, and the items of one
      sender, in the order in which their batches are popped, stand at strictly increasing
      positions among the items its aggregator accepted: nothing is reordered or doubled.
      Panics and failing pushes lose batches; retries must be punctual. */
  lemma PoppedInOrder<T>(cfg: A.Config, n: nat, now: int, steps: seq<Step<T>>, i: nat)
    requires i < n && Run(cfg, n, now, steps).Some? && AllPunctual(cfg, n, now, steps)
    ensures var s := Run(cfg, n, now, steps).value;
            && |s.list| <= |s.pushed| && s.list == s.pushed[|s.pushed| - |s.list|..]
            && i < |s.senders| && exists at :: Embeds(at, ItemsOf(s.popped, i), s.senders[i].accepted)
  {
    RunOrder(cfg, n, now, steps, i);
    hide Run, ItemsOf;
    var at := OrderOf(Run(cfg, n, now, steps).value, i);
  }

  lemma OrderOf<T>(s: State<T>, i: nat) returns (at: seq<nat>)
    requires OrderInv(s, i) && SenderInv(s, i)
    ensures Embeds(at, ItemsOf(s.popped, i), s.senders[i].accepted)
  {
    hide Sub, ItemsOf, A.Flatten, A.InHand, Embeds;
    var h, k, handed, u := |s.pushed| - |s.list|, s.senders[i], s.handed[i], s.upto[i];
    assert s.pushed == s.pushed[..h] + s.pushed[h..];
    ItemsAppend(s.pushed[..h], s.pushed[h..], i);
    SubExtend(ItemsOf(s.popped, i), ItemsOf(s.pushed[..h], i), ItemsOf(s.pushed[h..], i));
    assert handed == handed[..u] + handed[u..];
    FlattenConcat(handed[..u], handed[u..]);
    var rest := A.Flatten(handed[u..]) + A.InHand(k.workers[0]) + k.queue;
    assert k.accepted == A.Flatten(handed[..u]) + rest;
    SubExtend(ItemsOf(s.pushed, i), A.Flatten(handed[..u]), rest);
    SubTrans(ItemsOf(s.popped, i), ItemsOf(s.pushed, i), k.accepted);
    at := SubEmbeds(ItemsOf(s.popped, i), k.accepted);
  }
}
