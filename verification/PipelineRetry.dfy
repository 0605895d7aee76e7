/** What the error handler sends for a batch whose push failed. It is given the worker's array,
    and the worker goes on to fill that array with the items of its next batch. */
module PipelineRetry {
  import opened Basics
  import opened Counting
  import opened MessageQueue
  import opened Pipeline
  import A = AggregatorSteps

  // ---------- the worker's array ----------

  /** The worker's batch is the front of its array. */
  ghost predicate CellsInv<T>(k: A.State<T>, cells: seq<T>) {
    |k.workers| == 1 && k.workers[0].batch <= cells
  }

  /** Behind the items in hand the array still holds the batch `last`. */
  ghost predicate LastInv<T>(k: A.State<T>, cells: seq<T>, last: seq<T>) {
    && |k.workers| == 1 && |last| <= |cells|
    && forall j :: |A.InHand(k.workers[0])| <= j < |last| ==> cells[j] == last[j]
  }

  function Last<T>(s: seq<T>): T
    requires s != []
  {
    s[|s| - 1]
  }

  lemma CellsStep<T>(cfg: A.Config, k: A.State<T>, arrays: seq<seq<T>>, a: A.Step<T>)
    requires arrays != [] && CellsInv(k, Last(arrays)) && A.Enabled(cfg, k, a)
    ensures var k' := A.Apply(cfg, k, a); CellsInv(k', Last(ArraysAfter(arrays, k, a, k')))
  {
  }

  /** As long as no other batch is handed over. */
  lemma LastKeeps<T>(cfg: A.Config, k: A.State<T>, arrays: seq<seq<T>>, a: A.Step<T>, last: seq<T>)
    requires arrays != [] && CellsInv(k, Last(arrays)) && LastInv(k, Last(arrays), last) && A.Enabled(cfg, k, a)
    requires HandedOver(k, A.Apply(cfg, k, a)) == []
    ensures var k' := A.Apply(cfg, k, a); var arrays' := ArraysAfter(arrays, k, a, k');
            |arrays'| == |arrays| && LastInv(k', Last(arrays'), last)
  {
  }

  lemma LastNew<T>(cfg: A.Config, k: A.State<T>, arrays: seq<seq<T>>, a: A.Step<T>)
    requires arrays != [] && CellsInv(k, Last(arrays)) && A.Enabled(cfg, k, a)
    requires HandedOver(k, A.Apply(cfg, k, a)) != [] && !Panicked(k, A.Apply(cfg, k, a))
    ensures var k' := A.Apply(cfg, k, a); var arrays' := ArraysAfter(arrays, k, a, k');
            |arrays'| == |arrays| && LastInv(k', Last(arrays'), HandedOver(k, k')[0]) && HandedOver(k, k')[0] != []
  {
  }

  // ---------- whole runs ----------

  ghost predicate PendingInv<T>(s: State<T>, i: nat, b: nat)
    requires Shaped(s) && i < |s.senders| && (i, b) in s.retries
  {
    && b < |s.handed[i]| && s.handed[i][b] != [] && s.upto[i] != b + 1
    && (b + 1 == |s.handed[i]| ==>
          s.retries[(i, b)].which == |s.arrays[i]| - 1 && LastInv(s.senders[i], Last(s.arrays[i]), s.handed[i][b]))
  }

  ghost predicate RetryInv<T>(s: State<T>, i: nat) {
    && Shaped(s) && i < |s.senders| && s.upto[i] <= |s.handed[i]|
    && CellsInv(s.senders[i], Last(s.arrays[i]))
    && forall b :: (i, b) in s.retries ==> PendingInv(s, i, b)
  }

  lemma OwnRetry<T>(cfg: A.Config, s: State<T>, i: nat, a: A.Step<T>, ok: bool)
    requires RetryInv(s, i) && Enabled(cfg, s, Sender(i, a, ok))
    ensures RetryInv(Apply(cfg, s, Sender(i, a, ok)), i)
  {
    var k, arrays, s' := s.senders[i], s.arrays[i], Apply(cfg, s, Sender(i, a, ok));
    var k' := A.Apply(cfg, k, a);
    var h := HandedOver(k, k');
    CellsStep(cfg, k, arrays, a);
    if h != [] && !Panicked(k, k') { LastNew(cfg, k, arrays, a); }
    forall b | (i, b) in s'.retries
      ensures PendingInv(s', i, b)
    {
      if (i, b) in s.retries {
        assert PendingInv(s, i, b);
        if h == [] && b + 1 == |s.handed[i]| { LastKeeps(cfg, k, arrays, a, s.handed[i][b]); }
      }
      hide A.Apply, A.Enabled, HandedOver, ArraysAfter, CellsInv, LastInv, Push;
    }
    hide A.Apply, A.Enabled, HandedOver, ArraysAfter, CellsInv, LastInv, Push, PendingInv;
  }

  lemma OtherRetry<T>(cfg: A.Config, s: State<T>, i: nat, j: nat, a: A.Step<T>, ok: bool)
    requires RetryInv(s, i) && Enabled(cfg, s, Sender(j, a, ok)) && j != i
    ensures RetryInv(Apply(cfg, s, Sender(j, a, ok)), i)
  {
    hide A.Apply, A.Enabled, HandedOver, ArraysAfter, CellsInv, LastInv;
    var s' := Apply(cfg, s, Sender(j, a, ok));
    forall b | (i, b) in s'.retries
      ensures PendingInv(s', i, b)
    {
      assert PendingInv(s, i, b);
    }
  }

  lemma RetryStep<T>(cfg: A.Config, s: State<T>, step: Step<T>, i: nat)
    requires RetryInv(s, i) && Enabled(cfg, s, step)
    ensures RetryInv(Apply(cfg, s, step), i)
  {
    if step.Sender? {
      hide RetryInv, Enabled, Apply;
      if step.i == i {
        OwnRetry(cfg, s, i, step.step, step.ok);
      } else {
        OtherRetry(cfg, s, i, step.i, step.step, step.ok);
      }
    } else {
      hide A.Apply, A.Enabled, HandedOver, ArraysAfter, CellsInv, LastInv, Content, TrimMQ, ClearMQ;
      var s' := Apply(cfg, s, step);
      forall b | (i, b) in s'.retries
        ensures PendingInv(s', i, b)
      {
        assert PendingInv(s, i, b);
      }
    }
  }

  lemma InitialRetry<T>(n: nat, now: int, i: nat)
    requires i < n
    ensures RetryInv(Initial<T>(n, now), i)
  {
  }

  lemma {:induction false} RunRetry<T>(cfg: A.Config, n: nat, now: int, steps: seq<Step<T>>, i: nat)
    requires i < n && Run(cfg, n, now, steps).Some?
    ensures RetryInv(Run(cfg, n, now, steps).value, i)
  {
    hide Enabled, Apply, RetryInv;
    if steps == [] {
      InitialRetry<T>(n, now, i);
    } else {
      var before := steps[..|steps| - 1];
      RunRetry(cfg, n, now, before, i);
      RetryStep(cfg, Run(cfg, n, now, before).value, steps[|steps| - 1], i);
    }
  }

  lemma ReadCells<T>(k: A.State<T>, cells: seq<T>, batch: seq<T>)
    requires CellsInv(k, cells) && LastInv(k, cells, batch)
    ensures cells[..|batch|] == Overlaid(A.InHand(k.workers[0]), batch)
  {
    var hand := A.InHand(k.workers[0]);
    assert hand <= cells;
    OverlaidCells(hand, cells, batch);
  }

  lemma OverlaidCells<T>(hand: seq<T>, cells: seq<T>, batch: seq<T>)
    requires hand <= cells && |batch| <= |cells| && forall j :: |hand| <= j < |batch| ==> cells[j] == batch[j]
    ensures cells[..|batch|] == Overlaid(hand, batch)
  {
    var r := Overlaid(hand, batch);
    forall j | 0 <= j < |batch|
      ensures r[j] == cells[j]
    {
      assert j < |hand| ==> cells[j] == hand[j];
    }
  }

  /** `batch` with the items of `hand` in place of its first ones. */
  function Overlaid<T>(hand: seq<T>, batch: seq<T>): seq<T> {
    if |hand| < |batch| then hand + batch[|hand|..] else hand[..|batch|]
  }

  lemma ContentIs<T>(s: State<T>, i: nat, b: nat)
    requires RetryInv(s, i) && (i, b) in s.retries && b + 1 == |s.handed[i]|
    ensures Content(s, i, b) == Overlaid(A.InHand(s.senders[i].workers[0]), s.handed[i][b])
  {
    assert PendingInv(s, i, b);
    ReadCells(s.senders[i], Last(s.arrays[i]), s.handed[i][b]);
    assert |s.handed[i][b]| <= |Last(s.arrays[i])|;
    hide CellsInv, LastInv, Overlaid, A.InHand, RetryInv;
  }

  /** Exactly what a retry finds before its sender hands over another batch: the failed batch,
      with the items taken since in place of its first ones. */
  lemma RetryReads<T>(cfg: A.Config, n: nat, now: int, steps: seq<Step<T>>, i: nat, b: nat)
    requires i < n && Run(cfg, n, now, steps).Some? && (i, b) in Run(cfg, n, now, steps).value.retries
    ensures var s := Run(cfg, n, now, steps).value;
            && Shaped(s) && i < |s.senders| && b < |s.handed[i]|
            && (b + 1 == |s.handed[i]| ==>
                  Content(s, i, b) == Overlaid(A.InHand(s.senders[i].workers[0]), s.handed[i][b]))
  {
    RunRetry(cfg, n, now, steps, i);
    var s := Run(cfg, n, now, steps).value;
    assert PendingInv(s, i, b);
    hide Run, Content, Overlaid, LastInv, CellsInv, A.InHand;
    if b + 1 == |s.handed[i]| {
      ContentIs(s, i, b);
    }
  }

  lemma OverlaidNone<T>(batch: seq<T>)
    ensures Overlaid([], batch) == batch
  {
    assert batch[0..] == batch && [] + batch == batch;
  }

  /** A retry is punctual if it reads before its sender takes another item and pushes before its
      sender hands over another batch. */
  lemma PromptIsPunctual<T>(cfg: A.Config, n: nat, now: int, steps: seq<Step<T>>, i: nat, b: nat)
    requires i < n && Run(cfg, n, now, steps).Some? && (i, b) in Run(cfg, n, now, steps).value.retries
    ensures var s := Run(cfg, n, now, steps).value;
            && Shaped(s) && i < |s.senders| && b < |s.handed[i]|
            && (b + 1 == |s.handed[i]| ==>
                  && (A.InHand(s.senders[i].workers[0]) == [] ==> Content(s, i, b) == s.handed[i][b])
                  && (s.retries[(i, b)].read == Some(s.handed[i][b]) ==> Punctual(s, Resend(i, b, true))))
  {
    RetryReads(cfg, n, now, steps, i, b);
    RunRetry(cfg, n, now, steps, i);
    var s := Run(cfg, n, now, steps).value;
    hide Run, Content;
    assert PendingInv(s, i, b);
    OverlaidNone(s.handed[i][b]);
    hide Overlaid, LastInv, CellsInv, A.InHand;
  }

  // ---------- retries that come too late ----------

  lemma HandedKeeps<T>(cfg: A.Config, s: State<T>, step: Step<T>, i: nat)
    requires Enabled(cfg, s, step) && i < |s.senders| && Handed(s.senders[i], s.handed[i])
    ensures var s' := Apply(cfg, s, step);
            Shaped(s') && |s'.senders| == |s.senders| && Handed(s'.senders[i], s'.handed[i])
  {
    hide Handed, HandedOver, ArraysAfter, A.Apply, A.Enabled, TrimMQ, ClearMQ, Content;
    if step.Sender? && step.i != i {
      hide Apply, Enabled;
      SenderFrame(cfg, s, step.i, step.step, step.ok, i);
    } else if step.Sender? {
      var k, a := s.senders[i], step.step;
      HandedStep(cfg, k, s.handed[i], a);
      var h := HandedOver(k, A.Apply(cfg, k, a));
      assert |h| <= 1 by { OneHanded(k, A.Apply(cfg, k, a)); }
      if h == [] { assert s.handed[i] + h == s.handed[i]; } else { assert h == [h[0]]; }
    }
  }

  lemma OneHanded<T>(k: A.State<T>, k': A.State<T>)
    ensures |HandedOver(k, k')| <= 1
  {
  }

  lemma {:induction false} RunHanded<T>(cfg: A.Config, n: nat, now: int, steps: seq<Step<T>>, i: nat)
    requires i < n && Run(cfg, n, now, steps).Some?
    ensures var s := Run(cfg, n, now, steps).value;
            Shaped(s) && i < |s.senders| && Handed(s.senders[i], s.handed[i])
  {
    hide Enabled, Apply;
    if steps == [] {
      InitialOrder<T>(n, now, i);
    } else {
      hide Shaped, Handed;
      var before := steps[..|steps| - 1];
      RunHanded(cfg, n, now, before, i);
      HandedKeeps(cfg, Run(cfg, n, now, before).value, steps[|steps| - 1], i);
    }
  }

  /** Items are pointers, so no two accepted ones are the same. Then a retry that reads before
      its sender hands over another batch finds the failed batch exactly when the sender has
      not taken another item. */
  lemma PromptIff<T>(cfg: A.Config, n: nat, now: int, steps: seq<Step<T>>, i: nat, b: nat)
    requires i < n && Run(cfg, n, now, steps).Some? && (i, b) in Run(cfg, n, now, steps).value.retries
    requires i < |Run(cfg, n, now, steps).value.senders| && Distinct(Run(cfg, n, now, steps).value.senders[i].accepted)
    ensures var s := Run(cfg, n, now, steps).value;
            && Shaped(s) && b < |s.handed[i]|
            && (b + 1 == |s.handed[i]| ==>
                  (Content(s, i, b) == s.handed[i][b] <==> A.InHand(s.senders[i].workers[0]) == []))
  {
    RetryReads(cfg, n, now, steps, i, b);
    RunRetry(cfg, n, now, steps, i);
    RunHanded(cfg, n, now, steps, i);
    var s := Run(cfg, n, now, steps).value;
    assert PendingInv(s, i, b);
    hide Run, Content, RetryInv, PendingInv;
    if b + 1 == |s.handed[i]| {
      var k, handed := s.senders[i], s.handed[i];
      LatestApart(k, handed);
      hide A.InHand, Overlaid, Distinct;
    }
  }

  /** Where the latest batch and the items in hand stand among the accepted ones. */
  lemma LatestStands<T>(k: A.State<T>, handed: seq<seq<T>>)
    requires Handed(k, handed) && handed != []
    ensures |k.workers| == 1
    ensures var f, hand, batch := |A.Flatten(handed)|, A.InHand(k.workers[0]), Last(handed);
            && |batch| <= f && f + |hand| <= |k.accepted|
            && (forall j :: 0 <= j < |batch| ==> batch[j] == k.accepted[f - |batch| + j])
            && (forall j :: 0 <= j < |hand| ==> hand[j] == k.accepted[f + j])
  {
  }

  lemma LatestApart<T>(k: A.State<T>, handed: seq<seq<T>>)
    requires Handed(k, handed) && handed != [] && Last(handed) != [] && Distinct(k.accepted)
    ensures var hand, batch := A.InHand(k.workers[0]), Last(handed);
            Overlaid(hand, batch) == batch <==> hand == []
  {
    LatestStands(k, handed);
    var hand, batch := A.InHand(k.workers[0]), Last(handed);
    hide A.Flatten, A.InHand, Handed;
    OverlaidNone(batch);
    if hand != [] {
      assert Overlaid(hand, batch)[0] == hand[0] != batch[0];
    }
  }

  /** A retry that reads when its sender has taken some items since, but fewer than the failed
      batch has, sends items out of order, whatever was sent before. */
  lemma LateRetryBreaks<T>(cfg: A.Config, n: nat, now: int, steps: seq<Step<T>>, i: nat, b: nat,
                           sent: seq<T>, at: seq<nat>)
    requires i < n && Run(cfg, n, now, steps).Some? && (i, b) in Run(cfg, n, now, steps).value.retries
    requires i < |Run(cfg, n, now, steps).value.senders| && Distinct(Run(cfg, n, now, steps).value.senders[i].accepted)
    ensures var s := Run(cfg, n, now, steps).value;
            && Shaped(s) && b < |s.handed[i]|
            && (b + 1 == |s.handed[i]| && 0 < |A.InHand(s.senders[i].workers[0])| < |s.handed[i][b]| ==>
                  !Embeds(at, sent + Content(s, i, b), s.senders[i].accepted))
  {
    RetryReads(cfg, n, now, steps, i, b);
    RunHanded(cfg, n, now, steps, i);
    var s := Run(cfg, n, now, steps).value;
    hide Run, Content;
    if b + 1 == |s.handed[i]| && 0 < |A.InHand(s.senders[i].workers[0])| < |s.handed[i][b]| {
      Crossed(s.senders[i], s.handed[i], sent, at);
      hide A.InHand, Overlaid, Distinct, Embeds, Handed;
    }
  }

  /** And whenever it has taken an item since, that item is sent twice once its own batch, which
      begins with the items now in hand, is sent too. */
  lemma LateRetryDoubles<T>(cfg: A.Config, n: nat, now: int, steps: seq<Step<T>>, i: nat, b: nat,
                            sent: seq<T>, between: seq<T>, more: seq<T>, acc: seq<T>, at: seq<nat>)
    requires i < n && Run(cfg, n, now, steps).Some? && (i, b) in Run(cfg, n, now, steps).value.retries
    requires Distinct(acc)
    ensures var s := Run(cfg, n, now, steps).value;
            && Shaped(s) && i < |s.senders| && b < |s.handed[i]|
            && var hand := A.InHand(s.senders[i].workers[0]);
               (b + 1 == |s.handed[i]| && hand != [] ==>
                  !Embeds(at, sent + Content(s, i, b) + between + (hand + more), acc))
  {
    RetryReads(cfg, n, now, steps, i, b);
    RunRetry(cfg, n, now, steps, i);
    var s := Run(cfg, n, now, steps).value;
    assert PendingInv(s, i, b);
    hide Run, Content, RetryInv, PendingInv, Distinct, Embeds;
    var hand, batch := A.InHand(s.senders[i].workers[0]), s.handed[i][b];
    if b + 1 == |s.handed[i]| && hand != [] {
      var c := Overlaid(hand, batch);
      assert c != [] && c[0] == hand[0];
      hide Overlaid, A.InHand;
      var all, q := sent + c + between + (hand + more), |sent| + |c| + |between|;
      assert all[|sent|] == c[0] && all[q] == hand[0];
      Twice(acc, all, |sent|, q, at);
    }
  }

  lemma Twice<T>(acc: seq<T>, all: seq<T>, p: nat, q: nat, at: seq<nat>)
    requires Distinct(acc) && p < q < |all| && all[p] == all[q]
    ensures !Embeds(at, all, acc)
  {
  }

  lemma Crossed<T>(k: A.State<T>, handed: seq<seq<T>>, sent: seq<T>, at: seq<nat>)
    requires Handed(k, handed) && handed != [] && Distinct(k.accepted)
    requires 0 < |A.InHand(k.workers[0])| < |Last(handed)|
    ensures !Embeds(at, sent + Overlaid(A.InHand(k.workers[0]), Last(handed)), k.accepted)
  {
    hide A.Flatten, A.InHand, Handed, Overlaid, Distinct, Embeds, Last;
    LatestStands(k, handed);
    var f, hand, batch := |A.Flatten(handed)|, A.InHand(k.workers[0]), Last(handed);
    OverlaidAt(sent, hand, batch);
    Inverted(k.accepted, f - 1, f, sent + Overlaid(hand, batch), |sent|, |sent| + |batch| - 1, at);
  }

  lemma OverlaidAt<T>(sent: seq<T>, hand: seq<T>, batch: seq<T>)
    requires 0 < |hand| < |batch|
    ensures |Overlaid(hand, batch)| == |batch|
    ensures (sent + Overlaid(hand, batch))[|sent|] == hand[0]
    ensures (sent + Overlaid(hand, batch))[|sent| + |batch| - 1] == batch[|batch| - 1]
  {
  }

  /** Two items in one order here and in the other there. */
  lemma Inverted<T>(acc: seq<T>, x: nat, y: nat, all: seq<T>, p: nat, q: nat, at: seq<nat>)
    requires Distinct(acc) && x < y < |acc| && p < q < |all| && all[p] == acc[y] && all[q] == acc[x]
    ensures !Embeds(at, all, acc)
  {
    assert forall j :: 0 <= j < |acc| && acc[j] == acc[y] ==> j == y;
    assert forall j :: 0 <= j < |acc| && acc[j] == acc[x] ==> j == x;
  }

  // The run: with batches of two, `x` and `y` are handed over and their push fails; the worker
  // takes `z`; the error handler reads the array, pushes, and its batch is popped.

  function Action<T>(x: T, y: T, z: T, n: nat): A.Step<T> {
    match n
    case 1 => A.Offer(x)
    case 2 => A.Offer(y)
    case 6 => A.Offer(z)
    case 0 => A.StopTimer(0)
    case 5 => A.StopTimer(0)
    case _ => A.Request(0, false)
  }

  function Aggregator<T>(cfg: A.Config, now: int, x: T, y: T, z: T, n: nat): A.State<T> {
    var ready: seq<A.Worker<T>> := [A.Worker([], A.Idle, A.Ready, now)];
    var armed := A.Armed(now + cfg.linger);
    match n
    case 0 => A.Initial(1, now)
    case 1 => A.State(now, [], ready, false, None, [], [], [])
    case 2 => A.State(now, [x], ready, false, None, [x], [], [])
    case 3 => A.State(now, [x, y], ready, false, None, [x, y], [], [])
    case 4 => A.State(now, [y], [A.Worker([x], armed, A.Ready, now)], false, None, [x, y], [], [])
    case 5 => A.State(now, [], [A.Worker([x, y], armed, A.Stopping, now)], false, None, [x, y], [[x, y]], [])
    case 6 => A.State(now, [], ready, false, None, [x, y], [[x, y]], [])
    case 7 => A.State(now, [z], ready, false, None, [x, y, z], [[x, y]], [])
    case _ => A.State(now, [], [A.Worker([z], armed, A.Ready, now)], false, None, [x, y, z], [[x, y]], [])
  }

  /** Until the first item is in hand. */
  lemma FirstMoves<T>(cfg: A.Config, now: int, x: T, y: T, z: T, n: nat)
    requires cfg.batchSize == 2 && cfg.buffer >= 2 && n < 4
    ensures var k, a := Aggregator(cfg, now, x, y, z, n), Action(x, y, z, n);
            A.Enabled(cfg, k, a) && A.Apply(cfg, k, a) == Aggregator(cfg, now, x, y, z, n + 1)
  {
    match n
    case 0 => assert A.Initial<T>(1, now).workers == [A.NewWorker(now)];
    case 1 => assert [] + [x] == [x];
    case 2 => assert [x] + [y] == [x, y];
    case _ => assert [x, y][1..] == [y] && [] + [x] == [x];
  }

  lemma AggregatorMoves<T>(cfg: A.Config, now: int, x: T, y: T, z: T, n: nat)
    requires cfg.batchSize == 2 && cfg.buffer >= 2 && n < 8
    ensures var k, a := Aggregator(cfg, now, x, y, z, n), Action(x, y, z, n);
            A.Enabled(cfg, k, a) && A.Apply(cfg, k, a) == Aggregator(cfg, now, x, y, z, n + 1)
  {
    if n < 4 {
      hide A.Apply, A.Enabled, Aggregator, Action;
      FirstMoves(cfg, now, x, y, z, n);
    } else {
      match n
      case 4 => assert [y][1..] == [] && [x] + [y] == [x, y] && [] + [[x, y]] == [[x, y]];
      case 5 =>
      case 6 => assert [] + [z] == [z] && [x, y] + [z] == [x, y, z];
      case _ => assert [z][1..] == [] && [] + [z] == [z];
    }
  }

  function Cells<T>(x: T, y: T, z: T, n: nat): seq<T> {
    if n < 4 then [] else if n == 4 then [x] else if n < 8 then [x, y] else [z, y]
  }

  function Late<T>(cfg: A.Config, now: int, x: T, y: T, z: T, n: nat): State<T> {
    var sent := [Tagged(Handler(0, 0), [z, y])];
    State([Aggregator(cfg, now, x, y, z, n)], [[Cells(x, y, z, n)]], [if n < 5 then [] else [[x, y]]],
          [if n < 10 then 0 else 1],
          if n < 5 || n >= 10 then map[] else map[(0, 0) := Retry(0, if n < 9 then None else Some([z, y]))],
          if n == 10 then sent else [], if n < 10 then [] else sent, if n < 11 then [] else sent, {}, 0)
  }

  function LateStep<T>(x: T, y: T, z: T, n: nat): Step<T> {
    match n
    case 8 => Read(0, 0)
    case 9 => Resend(0, 0, true)
    case 10 => Pop
    case _ => Sender(0, Action(x, y, z, n), false)
  }

  /** The worker's array. */
  lemma CellsMove<T>(cfg: A.Config, now: int, x: T, y: T, z: T, n: nat)
    requires n < 8
    ensures var k, k' := Aggregator(cfg, now, x, y, z, n), Aggregator(cfg, now, x, y, z, n + 1);
            && |k.workers| == 1 && HandedOver(k, k') == (if n == 4 then [[x, y]] else []) && !Panicked(k, k')
            && ArraysAfter([Cells(x, y, z, n)], k, Action(x, y, z, n), k') == [Cells(x, y, z, n + 1)]
  {
    match n
    case 3 => assert Write([], 0, x) == [x];
    case 4 => assert Write([x], 1, y) == [x, y];
    case 7 => assert Write([x, y], 0, z) == [z, y];
    case _ =>
  }

  /** A step of a lone sender that hands nothing over. */
  lemma QuietMove<T>(cfg: A.Config, s: State<T>, k: A.State<T>, a: A.Step<T>, k': A.State<T>,
                     cells: seq<T>, cells': seq<T>)
    requires Shaped(s) && s.senders == [k] && |k.workers| == 1 && s.arrays == [[cells]]
    requires A.Enabled(cfg, k, a) && A.Apply(cfg, k, a) == k'
    requires HandedOver(k, k') == [] && ArraysAfter([cells], k, a, k') == [cells']
    ensures Enabled(cfg, s, Sender(0, a, false))
    ensures Apply(cfg, s, Sender(0, a, false)) == s.(senders := [k'], arrays := [[cells']])
  {
    hide A.Apply, A.Enabled, HandedOver, ArraysAfter;
    assert s.senders[0 := k'] == [k'] && s.arrays[0 := [cells']] == [[cells']];
  }

  /** A step of a lone sender whose first batch is refused. */
  lemma RefusedMove<T>(cfg: A.Config, s: State<T>, k: A.State<T>, a: A.Step<T>, k': A.State<T>,
                       cells: seq<T>, cells': seq<T>)
    requires Shaped(s) && s.senders == [k] && |k.workers| == 1 && s.arrays == [[cells]]
    requires s.handed == [[]] && s.trimming == {}
    requires A.Enabled(cfg, k, a) && A.Apply(cfg, k, a) == k'
    requires |HandedOver(k, k')| == 1 && !Panicked(k, k') && ArraysAfter([cells], k, a, k') == [cells']
    ensures Enabled(cfg, s, Sender(0, a, false))
    ensures Apply(cfg, s, Sender(0, a, false)) ==
            s.(senders := [k'], arrays := [[cells']], handed := [HandedOver(k, k')],
               retries := s.retries[(0, 0) := Retry(0, None)])
  {
    hide A.Apply, A.Enabled, HandedOver, ArraysAfter, Panicked;
    var h := HandedOver(k, k');
    assert s.senders[0 := k'] == [k'] && s.arrays[0 := [cells']] == [[cells']];
    assert [] + [h[0]] == h && s.handed[0 := h] == [h];
  }

  lemma LateShaped<T>(cfg: A.Config, now: int, x: T, y: T, z: T, n: nat)
    ensures Shaped(Late(cfg, now, x, y, z, n))
  {
  }

  /** The steps inside the aggregator. */
  lemma SenderMoves<T>(cfg: A.Config, now: int, x: T, y: T, z: T, n: nat)
    requires cfg.batchSize == 2 && cfg.buffer >= 2 && n < 8
    ensures var s, step := Late(cfg, now, x, y, z, n), LateStep(x, y, z, n);
            Enabled(cfg, s, step) && Apply(cfg, s, step) == Late(cfg, now, x, y, z, n + 1)
  {
    AggregatorMoves(cfg, now, x, y, z, n);
    CellsMove(cfg, now, x, y, z, n);
    LateShaped(cfg, now, x, y, z, n);
    hide A.Apply, A.Enabled, Aggregator, Cells, ArraysAfter, HandedOver, Panicked, Action, Shaped, Apply, Enabled;
    var s, a := Late(cfg, now, x, y, z, n), Action(x, y, z, n);
    var k, k' := Aggregator(cfg, now, x, y, z, n), Aggregator(cfg, now, x, y, z, n + 1);
    if n == 4 {
      RefusedMove(cfg, s, k, a, k', Cells(x, y, z, n), Cells(x, y, z, n + 1));
    } else {
      QuietMove(cfg, s, k, a, k', Cells(x, y, z, n), Cells(x, y, z, n + 1));
    }
  }

  lemma HandlerMoves<T>(cfg: A.Config, now: int, x: T, y: T, z: T, n: nat)
    requires 8 <= n < 11
    ensures var s, step := Late(cfg, now, x, y, z, n), LateStep(x, y, z, n);
            Enabled(cfg, s, step) && Apply(cfg, s, step) == Late(cfg, now, x, y, z, n + 1)
  {
    var s: State<T> := Late(cfg, now, x, y, z, n);
    LateShaped(cfg, now, x, y, z, n);
    assert Aggregator(cfg, now, x, y, z, n) == Aggregator(cfg, now, x, y, z, n + 1);
    hide A.Apply, A.Enabled, Aggregator, Shaped;
    match n
    case 8 =>
      assert Content(s, 0, 0) == [z, y];
    case 9 =>
      assert map[(0, 0) := Retry(0, Some([z, y]))] - {(0, 0)} == map[];
      assert [] + [Tagged(Handler(0, 0), [z, y])] == [Tagged(Handler(0, 0), [z, y])];
    case _ =>
      assert [Tagged(Handler(0, 0), [z, y])][1..] == [];
  }

  function LateSteps<T>(x: T, y: T, z: T, n: nat): seq<Step<T>> {
    if n == 0 then [] else LateSteps(x, y, z, n - 1) + [LateStep(x, y, z, n - 1)]
  }

  lemma {:induction false} LateRun<T>(cfg: A.Config, now: int, x: T, y: T, z: T, n: nat)
    requires cfg.batchSize == 2 && cfg.buffer >= 2 && n <= 11
    ensures Run(cfg, 1, now, LateSteps(x, y, z, n)) == Some(Late(cfg, now, x, y, z, n))
  {
    if n == 0 {
      assert Initial<T>(1, now) == Late(cfg, now, x, y, z, 0);
    } else {
      hide Enabled, Apply, Late, LateStep;
      LateRun(cfg, now, x, y, z, n - 1);
      var before, steps := LateSteps(x, y, z, n - 1), LateSteps(x, y, z, n);
      assert steps[..|steps| - 1] == before;
      if n <= 8 { SenderMoves(cfg, now, x, y, z, n - 1); } else { HandlerMoves(cfg, now, x, y, z, n - 1); }
    }
  }

  /** One such run, from the start: with three different items, what is popped is out
      of order among what was accepted, and the first item is lost. */
  lemma LateRetryReorders<T>(cfg: A.Config, now: int, x: T, y: T, z: T)
    requires cfg.batchSize == 2 && cfg.buffer >= 2 && x != y && y != z && x != z
    ensures var r := Run(cfg, 1, now, LateSteps(x, y, z, 11));
            && r.Some? && |r.value.senders| == 1
            && ItemsOf(r.value.popped, 0) == [z, y] && r.value.senders[0].accepted == [x, y, z]
            && !exists at :: Embeds(at, ItemsOf(r.value.popped, 0), r.value.senders[0].accepted)
  {
    hide Run, LateSteps, Late, ItemsOf, Embeds;
    LateRun(cfg, now, x, y, z, 11);
    LateEnd(cfg, now, x, y, z);
    forall at: seq<nat>
      ensures !Embeds(at, [z, y], [x, y, z])
    {
      OutOfOrder(x, y, z, at);
    }
  }

  lemma OutOfOrder<T>(x: T, y: T, z: T, at: seq<nat>)
    requires x != y && y != z && x != z
    ensures !Embeds(at, [z, y], [x, y, z])
  {
    Inverted([x, y, z], 1, 2, [z, y], 0, 1, at);
  }

  lemma LateEnd<T>(cfg: A.Config, now: int, x: T, y: T, z: T)
    ensures var s := Late(cfg, now, x, y, z, 11);
            |s.senders| == 1 && s.senders[0].accepted == [x, y, z] && ItemsOf(s.popped, 0) == [z, y]
  {
    var sent := [Tagged(Handler(0, 0), [z, y])];
    assert sent[..0] == [] && ItemsOf(sent, 0) == [z, y];
  }
}
