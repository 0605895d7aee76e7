/** The batching aggregator of nodes/aggregator.go as a step system: any number of workers,
    senders and a stopper, interleaved in any order. */
module AggregatorSteps {
  import opened Basics
  import opened Counting

  datatype Config = Config(batchSize: nat, linger: nat, buffer: nat)

  /** A Go timer with its channel: Fired means that the tick waits to be received. */
  datatype Timer = Idle | Armed(deadline: int) | Fired(deadline: int)

  /** Where a worker is: about to stop its new timer, draining it, at the loop head, about to
      stop the timer after a full batch, draining it then, or out of the loop. */
  datatype Phase = Starting | StartDrain | Ready | Stopping | Draining | Exited

  /** `first` records when the first item of the batch was dequeued. */
  datatype Worker<T> = Worker(batch: seq<T>, timer: Timer, phase: Phase, first: int)

  /** `accepted`, `processed` and `lost` are histories: items taken into the queue, batches
      handed to the batch processor, items whose processing panicked. `checked` is how many
      items had been accepted at the latest empty-queue check of SafeStop. */
  datatype State<T> = State(
    now: int,
    queue: seq<T>,
    workers: seq<Worker<T>>,
    closed: bool,
    checked: Option<nat>,
    accepted: seq<T>,
    processed: seq<seq<T>>,
    lost: seq<T>)

  datatype Step<T> =
    | Advance(d: nat)
    | Expire(w: nat)
    | Offer(item: T)
    | StopTimer(w: nat)
    | Drain(w: nat)
    | Request(w: nat, panics: bool)
    | Linger(w: nat, panics: bool)
    | Quit(w: nat, panics: bool)
    | CheckEmpty
    | Close

  function NewWorker<T>(now: int): Worker<T> { Worker([], Armed(now), Starting, now) }

  function Initial<T>(workers: nat, now: int): State<T> {
    State(now, [], seq(workers, _ => NewWorker(now)), false, None, [], [], [])
  }

  predicate Enabled<T>(cfg: Config, s: State<T>, step: Step<T>) {
    match step
    case Advance(_) => true
    case Expire(w) => w < |s.workers| && s.workers[w].timer.Armed? && s.workers[w].timer.deadline <= s.now
    case Offer(_) => |s.queue| < cfg.buffer
    case StopTimer(w) => w < |s.workers| && s.workers[w].phase in {Starting, Stopping}
    case Drain(w) => w < |s.workers| && s.workers[w].phase in {StartDrain, Draining} && s.workers[w].timer.Fired?
    case Request(w, _) => w < |s.workers| && s.workers[w].phase.Ready? && s.queue != []
    case Linger(w, _) => w < |s.workers| && s.workers[w].phase.Ready? && s.workers[w].timer.Fired?
    case Quit(w, _) => w < |s.workers| && s.workers[w].phase.Ready? && s.closed
    case CheckEmpty => s.queue == [] && !s.closed
    case Close => !s.closed
  }

  /** Hands `batch` to the processor and continues as `next`, or, if the processor panics,
      loses the batch and starts the worker afresh. */
  function Process<T>(s: State<T>, w: nat, batch: seq<T>, panics: bool, next: Worker<T>): State<T>
    requires w < |s.workers|
  {
    if panics then s.(lost := s.lost + batch, workers := s.workers[w := NewWorker(s.now)])
    else s.(processed := s.processed + [batch], workers := s.workers[w := next])
  }

  /** Whether Stop reports that it stopped the timer. */
  function StopResult<T>(w: Worker<T>): Worker<T> {
    if w.timer.Armed? then Worker([], Idle, Ready, w.first)
    else w.(phase := if w.phase.Starting? then StartDrain else Draining)
  }

  function Apply<T>(cfg: Config, s: State<T>, step: Step<T>): State<T>
    requires Enabled(cfg, s, step)
  {
    match step
    case Advance(d) => s.(now := s.now + d)
    case Expire(w) => s.(workers := s.workers[w := s.workers[w].(timer := Fired(s.workers[w].timer.deadline))])
    case Offer(item) => s.(queue := s.queue + [item], accepted := s.accepted + [item])
    case StopTimer(w) => s.(workers := s.workers[w := StopResult(s.workers[w])])
    case Drain(w) => s.(workers := s.workers[w := Worker([], Idle, Ready, s.workers[w].first)])
    case Request(w, panics) =>
      var k := s.workers[w];
      var batch := k.batch + [s.queue[0]];
      var s1 := s.(queue := s.queue[1..]);
      if |batch| < cfg.batchSize then
        s1.(workers := s.workers[w := if |batch| == 1 then Worker(batch, Armed(s.now + cfg.linger), Ready, s.now)
                                      else k.(batch := batch)])
      else Process(s1, w, batch, panics, k.(batch := batch, phase := Stopping))
    case Linger(w, panics) =>
      var k := s.workers[w];
      if k.batch == [] then s.(workers := s.workers[w := k.(timer := Idle)])
      else Process(s, w, k.batch, panics, Worker([], Idle, Ready, k.first))
    case Quit(w, panics) =>
      var k := s.workers[w];
      if k.batch == [] then s.(workers := s.workers[w := k.(phase := Exited)])
      else Process(s, w, k.batch, panics, k.(phase := Exited))
    case CheckEmpty => s.(checked := Some(|s.accepted|))
    case Close => s.(closed := true)
  }

  // ---------- runs ----------

  /** The state after `steps` from `s`, or None if one of them cannot be taken. */
  function RunFrom<T>(cfg: Config, s: State<T>, steps: seq<Step<T>>): Option<State<T>>
    decreases |steps|
  {
    if steps == [] then Some(s)
    else
      match RunFrom(cfg, s, steps[..|steps| - 1])
      case None => None
      case Some(r) => if Enabled(cfg, r, steps[|steps| - 1]) then Some(Apply(cfg, r, steps[|steps| - 1])) else None
  }

  /** The runs of a new aggregator. */
  function Run<T>(cfg: Config, workers: nat, now: int, steps: seq<Step<T>>): Option<State<T>> {
    RunFrom(cfg, Initial(workers, now), steps)
  }

  lemma RunMore<T>(cfg: Config, workers: nat, now: int, steps: seq<Step<T>>, step: Step<T>)
    requires Run(cfg, workers, now, steps).Some? && Enabled(cfg, Run(cfg, workers, now, steps).value, step)
    ensures Run(cfg, workers, now, steps + [step]) == Some(Apply(cfg, Run(cfg, workers, now, steps).value, step))
  {
    assert (steps + [step])[..|steps|] == steps;
  }

  lemma {:induction false} RunConcat<T>(cfg: Config, s: State<T>, a: seq<Step<T>>, b: seq<Step<T>>)
    requires RunFrom(cfg, s, a).Some?
    ensures RunFrom(cfg, s, a + b) == RunFrom(cfg, RunFrom(cfg, s, a).value, b)
    decreases |b|
  {
    hide Enabled, Apply;
    if b == [] {
      assert a + b == a;
    } else {
      RunConcat(cfg, s, a, b[..|b| - 1]);
      assert (a + b)[..|a + b| - 1] == a + b[..|b| - 1];
    }
  }

  // ---------- the timer protocol ----------

  /** At the loop head the batch is empty exactly when the timer is idle and drained, and an
      armed or fired timer has the deadline of the batch's first item. */
  ghost predicate WorkerInv<T>(cfg: Config, k: Worker<T>, now: int) {
    && (k.batch != [] ==> k.first <= now)
    && match k.phase
       case Starting => k.batch == [] && !k.timer.Idle?
       case StartDrain => k.batch == [] && k.timer.Fired?
       case Ready =>
         && |k.batch| < cfg.batchSize
         && (k.batch == [] <==> k.timer.Idle?)
         && (k.batch != [] ==> k.timer.deadline == k.first + cfg.linger)
       case Stopping => |k.batch| == cfg.batchSize && !k.timer.Idle? && k.timer.deadline == k.first + cfg.linger
       case Draining => |k.batch| == cfg.batchSize && k.timer.Fired?
       case Exited => true
  }

  ghost predicate TimerInv<T>(cfg: Config, s: State<T>) {
    forall w :: 0 <= w < |s.workers| ==> WorkerInv(cfg, s.workers[w], s.now)
  }

  /** One lemma for each way in which a worker changes. */
  lemma ExpireKeeps<T>(cfg: Config, k: Worker<T>, now: int)
    requires WorkerInv(cfg, k, now) && k.timer.Armed?
    ensures WorkerInv(cfg, k.(timer := Fired(k.timer.deadline)), now)
  {
  }

  lemma StopKeeps<T>(cfg: Config, k: Worker<T>, now: int)
    requires cfg.batchSize >= 2 && WorkerInv(cfg, k, now) && k.phase in {Starting, Stopping}
    ensures WorkerInv(cfg, StopResult(k), now)
  {
  }

  lemma RequestKeeps<T>(cfg: Config, k: Worker<T>, now: int, item: T)
    requires cfg.batchSize >= 2 && WorkerInv(cfg, k, now) && k.phase.Ready?
    ensures var batch := k.batch + [item];
            if |batch| >= cfg.batchSize then WorkerInv(cfg, k.(batch := batch, phase := Stopping), now)
            else if |batch| == 1 then WorkerInv(cfg, Worker(batch, Armed(now + cfg.linger), Ready, now), now)
            else WorkerInv(cfg, k.(batch := batch), now)
  {
  }

  /** Workers that start afresh, are reset or leave are in order. */
  lemma FreshKeeps<T>(cfg: Config, k: Worker<T>, now: int)
    requires cfg.batchSize >= 2 && WorkerInv(cfg, k, now)
    ensures WorkerInv(cfg, NewWorker<T>(now), now)
    ensures WorkerInv(cfg, k.(batch := [], timer := Idle, phase := Ready), now)
    ensures WorkerInv(cfg, k.(phase := Exited), now)
    ensures k.phase.Ready? && k.batch == [] ==> WorkerInv(cfg, k.(timer := Idle), now)
  {
  }

  lemma WorkerKeeps<T>(cfg: Config, s: State<T>, w: nat, k: Worker<T>)
    requires TimerInv(cfg, s) && w < |s.workers| && WorkerInv(cfg, k, s.now)
    ensures TimerInv(cfg, s.(workers := s.workers[w := k]))
  {
    hide WorkerInv;
  }

  lemma ProcessKeeps<T>(cfg: Config, s: State<T>, w: nat, batch: seq<T>, panics: bool, next: Worker<T>)
    requires TimerInv(cfg, s) && w < |s.workers|
    requires WorkerInv(cfg, next, s.now) && WorkerInv(cfg, NewWorker<T>(s.now), s.now)
    ensures TimerInv(cfg, Process(s, w, batch, panics, next))
  {
    hide WorkerInv;
  }

  lemma AdvanceKeeps<T>(cfg: Config, s: State<T>, d: nat)
    requires TimerInv(cfg, s)
    ensures TimerInv(cfg, s.(now := s.now + d))
  {
    forall w | 0 <= w < |s.workers|
      ensures WorkerInv(cfg, s.workers[w], s.now + d)
    {
      assert WorkerInv(cfg, s.workers[w], s.now);
    }
  }

  lemma TimerStep<T>(cfg: Config, s: State<T>, step: Step<T>)
    requires cfg.batchSize >= 2 && TimerInv(cfg, s) && Enabled(cfg, s, step)
    ensures TimerInv(cfg, Apply(cfg, s, step))
  {
    hide WorkerInv, Process, StopResult;
    match step
    case Advance(d) => AdvanceKeeps(cfg, s, d);
    case Expire(w) =>
      ExpireKeeps(cfg, s.workers[w], s.now);
      WorkerKeeps(cfg, s, w, s.workers[w].(timer := Fired(s.workers[w].timer.deadline)));
    case StopTimer(w) =>
      StopKeeps(cfg, s.workers[w], s.now);
      WorkerKeeps(cfg, s, w, StopResult(s.workers[w]));
    case Drain(w) =>
      FreshKeeps(cfg, s.workers[w], s.now);
      WorkerKeeps(cfg, s, w, Worker([], Idle, Ready, s.workers[w].first));
    case Request(w, panics) =>
      RequestTimer(cfg, s, w, panics);
    case Linger(w, panics) =>
      var k := s.workers[w];
      FreshKeeps(cfg, k, s.now);
      if k.batch == [] {
        WorkerKeeps(cfg, s, w, k.(timer := Idle));
      } else {
        ProcessKeeps(cfg, s, w, k.batch, panics, Worker([], Idle, Ready, k.first));
      }
    case Quit(w, panics) =>
      var k := s.workers[w];
      FreshKeeps(cfg, k, s.now);
      WorkerKeeps(cfg, s, w, k.(phase := Exited));
      ProcessKeeps(cfg, s, w, k.batch, panics, k.(phase := Exited));
    case Offer(_) =>
    case CheckEmpty =>
    case Close =>
  }

  lemma RequestTimer<T>(cfg: Config, s: State<T>, w: nat, panics: bool)
    requires cfg.batchSize >= 2 && TimerInv(cfg, s) && Enabled(cfg, s, Request(w, panics))
    ensures TimerInv(cfg, Apply(cfg, s, Request(w, panics)))
  {
    hide WorkerInv, Process;
    var k, item, s1 := s.workers[w], s.queue[0], s.(queue := s.queue[1..]);
    var batch := k.batch + [item];
    RequestKeeps(cfg, k, s.now, item);
    FreshKeeps(cfg, k, s.now);
    assert TimerInv(cfg, s1);
    if |batch| >= cfg.batchSize {
      ProcessKeeps(cfg, s1, w, batch, panics, k.(batch := batch, phase := Stopping));
    } else if |batch| == 1 {
      WorkerKeeps(cfg, s1, w, Worker(batch, Armed(s.now + cfg.linger), Ready, s.now));
    } else {
      WorkerKeeps(cfg, s1, w, k.(batch := batch));
    }
  }

  /** In every reachable state, for batches of at least two. */
  lemma {:induction false} TimerProtocol<T>(cfg: Config, workers: nat, now: int, steps: seq<Step<T>>)
    requires cfg.batchSize >= 2 && Run(cfg, workers, now, steps).Some?
    ensures TimerInv(cfg, Run(cfg, workers, now, steps).value)
  {
    hide Enabled, Apply;
    if steps == [] {
    } else {
      hide TimerInv;
      var before := steps[..|steps| - 1];
      TimerProtocol(cfg, workers, now, before);
      TimerStep(cfg, Run(cfg, workers, now, before).value, steps[|steps| - 1]);
    }
  }

  /** A worker that waits for a tick finds one, and a tick that is selected finds a batch. */
  lemma NeverStuck<T>(cfg: Config, workers: nat, now: int, steps: seq<Step<T>>, w: nat)
    requires cfg.batchSize >= 2 && Run(cfg, workers, now, steps).Some?
    requires w < |Run(cfg, workers, now, steps).value.workers|
    ensures var s := Run(cfg, workers, now, steps).value; var k := s.workers[w];
            && (k.phase in {StartDrain, Draining} ==> Enabled(cfg, s, Drain(w)))
            && (k.phase.Ready? && k.timer.Fired? ==> k.batch != [])
  {
    TimerProtocol(cfg, workers, now, steps);
    hide Run;
    assert WorkerInv(cfg, Run(cfg, workers, now, steps).value.workers[w], Run(cfg, workers, now, steps).value.now);
  }

  /** A worker that drains an idle timer waits for ever. */
  ghost predicate Stuck<T>(s: State<T>, w: nat) {
    w < |s.workers| && s.workers[w].phase.Draining? && s.workers[w].timer.Idle?
  }

  lemma StuckStep<T>(cfg: Config, s: State<T>, step: Step<T>, w: nat)
    requires Stuck(s, w) && Enabled(cfg, s, step)
    ensures Stuck(Apply(cfg, s, step), w)
  {
  }

  /** In every continuation of the run. */
  lemma {:induction false} StuckForEver<T>(cfg: Config, s: State<T>, more: seq<Step<T>>, w: nat)
    requires Stuck(s, w) && RunFrom(cfg, s, more).Some?
    ensures Stuck(RunFrom(cfg, s, more).value, w)
    decreases |more|
  {
    hide Enabled, Apply, Stuck;
    if more == [] {
    } else {
      StuckForEver(cfg, s, more[..|more| - 1], w);
      StuckStep(cfg, RunFrom(cfg, s, more[..|more| - 1]).value, more[|more| - 1], w);
    }
  }

  /** With batches of one, or none, the first item leaves its worker stuck. */
  lemma SmallBatchSticks<T>(cfg: Config, now: int, item: T)
    requires cfg.batchSize <= 1 && cfg.buffer >= 1
    ensures var r := Run(cfg, 1, now, [StopTimer(0), Offer(item), Request(0, false), StopTimer(0)]);
            r.Some? && Stuck(r.value, 0)
  {
    hide Apply, Enabled;
    StickingSteps(cfg, now, item);
    var t1 := [StopTimer(0)];
    var t2 := t1 + [Offer(item)];
    var t3 := t2 + [Request(0, false)];
    assert t1 == [] + [StopTimer(0)];
    RunMore<T>(cfg, 1, now, [], StopTimer(0));
    RunMore(cfg, 1, now, t1, Offer(item));
    RunMore(cfg, 1, now, t2, Request(0, false));
    RunMore(cfg, 1, now, t3, StopTimer(0));
    assert t3 + [StopTimer(0)] == [StopTimer(0), Offer(item), Request(0, false), StopTimer(0)];
  }

  /** The states of that run, one after the other. */
  lemma StickingSteps<T>(cfg: Config, now: int, item: T)
    requires cfg.batchSize <= 1 && cfg.buffer >= 1
    ensures var s0: State<T> := Initial(1, now);
            var s1 := s0.(workers := [Worker([], Idle, Ready, now)]);
            var s2 := s1.(queue := [item], accepted := [item]);
            var s3 := s2.(queue := [], processed := [[item]], workers := [Worker([item], Idle, Stopping, now)]);
            && Enabled(cfg, s0, StopTimer(0)) && Apply(cfg, s0, StopTimer(0)) == s1
            && Enabled(cfg, s1, Offer(item)) && Apply(cfg, s1, Offer(item)) == s2
            && Enabled(cfg, s2, Request(0, false)) && Apply(cfg, s2, Request(0, false)) == s3
            && Enabled(cfg, s3, StopTimer(0))
            && Apply(cfg, s3, StopTimer(0)) == s3.(workers := [Worker([item], Idle, Draining, now)])
  {
  }

  // ---------- conservation ----------

  function Flatten<T>(bs: seq<seq<T>>): seq<T> {
    if bs == [] then [] else Flatten(bs[..|bs| - 1]) + bs[|bs| - 1]
  }

  /** The items a worker still has to process. */
  function InHand<T>(k: Worker<T>): seq<T> { if k.phase.Ready? then k.batch else [] }

  /** How often `x` occurs in `s`. */
  ghost function Count<T>(s: seq<T>, x: T): nat { multiset(s)[x] }

  lemma CountAppend<T>(a: seq<T>, b: seq<T>, x: T)
    ensures Count(a + b, x) == Count(a, x) + Count(b, x)
  {
  }

  /** The items in the hands of all workers. */
  function Hands<T>(ws: seq<Worker<T>>): seq<T> {
    if ws == [] then [] else Hands(ws[..|ws| - 1]) + InHand(ws[|ws| - 1])
  }

  lemma {:induction false} HandsUpdate<T>(ws: seq<Worker<T>>, w: nat, k: Worker<T>, x: T)
    requires w < |ws|
    ensures Count(Hands(ws[w := k]), x) + Count(InHand(ws[w]), x) == Count(Hands(ws), x) + Count(InHand(k), x)
  {
    hide Count, InHand;
    var n := |ws| - 1;
    CountAppend(Hands(ws[..n]), InHand(ws[n]), x);
    CountAppend(Hands(ws[w := k][..n]), InHand(ws[w := k][n]), x);
    if w < n {
      assert ws[w := k][..n] == ws[..n][w := k];
      HandsUpdate(ws[..n], w, k, x);
    } else {
      assert ws[w := k][..n] == ws[..n];
    }
  }

  /** How often `x` has been processed, lost to a panic, is in a worker's hands or queued. */
  ghost function Held<T>(s: State<T>, x: T): nat {
    Count(Flatten(s.processed), x) + Count(s.lost, x) + Count(Hands(s.workers), x) + Count(s.queue, x)
  }

  ghost predicate Bounded<T>(cfg: Config, s: State<T>) {
    && |s.queue| <= cfg.buffer
    && (forall i :: 0 <= i < |s.processed| ==> 1 <= |s.processed[i]| <= cfg.batchSize)
  }

  lemma FlattenAppend<T>(bs: seq<seq<T>>, b: seq<T>)
    ensures Flatten(bs + [b]) == Flatten(bs) + b
  {
    assert (bs + [b])[..|bs|] == bs;
  }

  lemma ProcessHeld<T>(s: State<T>, w: nat, batch: seq<T>, panics: bool, next: Worker<T>, x: T)
    requires w < |s.workers| && InHand(next) == []
    ensures Process(s, w, batch, panics, next).accepted == s.accepted
    ensures Held(Process(s, w, batch, panics, next), x) + Count(InHand(s.workers[w]), x) == Held(s, x) + Count(batch, x)
  {
    hide Hands, Flatten;
    FlattenAppend(s.processed, batch);
    CountAppend(Flatten(s.processed), batch, x);
    CountAppend(s.lost, batch, x);
    HandsUpdate(s.workers, w, next, x);
    HandsUpdate(s.workers, w, NewWorker(s.now), x);
  }

  lemma WorkerHeld<T>(s: State<T>, w: nat, k: Worker<T>, x: T)
    requires w < |s.workers|
    ensures Held(s.(workers := s.workers[w := k]), x) + Count(InHand(s.workers[w]), x)
            == Held(s, x) + Count(InHand(k), x)
  {
    HandsUpdate(s.workers, w, k, x);
  }

  /** Every step keeps the balance of accepted and held items. */
  lemma StepHeld<T>(cfg: Config, s: State<T>, step: Step<T>, x: T)
    requires Enabled(cfg, s, step)
    ensures var s' := Apply(cfg, s, step);
            Held(s', x) + Count(s.accepted, x) == Held(s, x) + Count(s'.accepted, x)
  {
    hide Hands, Flatten, Count, Process;
    match step
    case Offer(item) =>
      CountAppend(s.queue, [item], x);
      CountAppend(s.accepted, [item], x);
    case Expire(w) => WorkerHeld(s, w, s.workers[w].(timer := Fired(s.workers[w].timer.deadline)), x);
    case StopTimer(w) =>
      WorkerHeld(s, w, StopResult(s.workers[w]), x);
    case Drain(w) => WorkerHeld(s, w, Worker([], Idle, Ready, s.workers[w].first), x);
    case Request(w, panics) =>
      var k, q := s.workers[w], s.queue[0];
      var batch, s1 := k.batch + [q], s.(queue := s.queue[1..]);
      assert [q] + s.queue[1..] == s.queue;
      CountAppend([q], s.queue[1..], x);
      CountAppend(k.batch, [q], x);
      if |batch| < cfg.batchSize {
        var first := Worker(batch, Armed(s.now + cfg.linger), Ready, s.now);
        WorkerHeld(s1, w, if |batch| == 1 then first else k.(batch := batch), x);
      } else {
        ProcessHeld(s1, w, batch, panics, k.(batch := batch, phase := Stopping), x);
      }
    case Linger(w, panics) =>
      var k := s.workers[w];
      WorkerHeld(s, w, k.(timer := Idle), x);
      ProcessHeld(s, w, k.batch, panics, Worker([], Idle, Ready, k.first), x);
    case Quit(w, panics) =>
      var k := s.workers[w];
      WorkerHeld(s, w, k.(phase := Exited), x);
      ProcessHeld(s, w, k.batch, panics, k.(phase := Exited), x);
    case Advance(_) =>
    case CheckEmpty =>
    case Close =>
  }

  ghost predicate SizesInv<T>(cfg: Config, s: State<T>) {
    && Bounded(cfg, s)
    && (forall w :: 0 <= w < |s.workers| && s.workers[w].phase.Ready? ==> |s.workers[w].batch| < cfg.batchSize)
  }

  lemma SizesStep<T>(cfg: Config, s: State<T>, step: Step<T>)
    requires cfg.batchSize >= 1 && SizesInv(cfg, s) && Enabled(cfg, s, step)
    ensures SizesInv(cfg, Apply(cfg, s, step))
  {
  }

  lemma {:induction false} HandsOfNew<T>(workers: nat, now: int)
    ensures Hands(Initial<T>(workers, now).workers) == []
  {
    if workers == 0 {
    } else {
      assert Initial<T>(workers, now).workers[..workers - 1] == Initial<T>(workers - 1, now).workers;
      HandsOfNew<T>(workers - 1, now);
    }
  }

  lemma {:induction false} RunHeld<T>(cfg: Config, workers: nat, now: int, steps: seq<Step<T>>, x: T)
    requires Run(cfg, workers, now, steps).Some?
    ensures var s := Run(cfg, workers, now, steps).value; Held(s, x) == Count(s.accepted, x)
  {
    hide Enabled, Apply, Held, Count;
    if steps == [] {
      HandsOfNew<T>(workers, now);
      assert Held(Initial<T>(workers, now), x) == Count<T>([], x) by {
        EmptyHeld(Initial<T>(workers, now), x);
      }
    } else {
      var before := steps[..|steps| - 1];
      RunHeld(cfg, workers, now, before, x);
      StepHeld(cfg, Run(cfg, workers, now, before).value, steps[|steps| - 1], x);
    }
  }

  lemma EmptyHeld<T>(s: State<T>, x: T)
    requires s.processed == [] && s.lost == [] && s.queue == [] && Hands(s.workers) == []
    ensures Held(s, x) == Count<T>([], x)
  {
  }

  lemma {:induction false} RunSizes<T>(cfg: Config, workers: nat, now: int, steps: seq<Step<T>>)
    requires cfg.batchSize >= 1 && Run(cfg, workers, now, steps).Some?
    ensures SizesInv(cfg, Run(cfg, workers, now, steps).value)
  {
    hide Enabled, Apply;
    if steps == [] {
    } else {
      hide SizesInv;
      var before := steps[..|steps| - 1];
      RunSizes(cfg, workers, now, before);
      SizesStep(cfg, Run(cfg, workers, now, before).value, steps[|steps| - 1]);
    }
  }

  /** Conservation in every reachable state, for any number of workers: an accepted item is
      processed, lost to a panic, in a worker's hands or queued, each exactly once; batches
      are neither empty nor too large, and the queue never exceeds its buffer. */
  lemma Conservation<T>(cfg: Config, workers: nat, now: int, steps: seq<Step<T>>)
    requires cfg.batchSize >= 1 && Run(cfg, workers, now, steps).Some?
    ensures var s := Run(cfg, workers, now, steps).value;
            && multiset(s.accepted) ==
               multiset(Flatten(s.processed)) + multiset(s.lost) + multiset(Hands(s.workers)) + multiset(s.queue)
            && Bounded(cfg, s)
  {
    var s := Run(cfg, workers, now, steps).value;
    RunSizes(cfg, workers, now, steps);
    var all := multiset(Flatten(s.processed)) + multiset(s.lost) + multiset(Hands(s.workers)) + multiset(s.queue);
    hide Run;
    forall x | x in multiset(s.accepted) || x in all
      ensures multiset(s.accepted)[x] == all[x]
    {
      RunHeld(cfg, workers, now, steps, x);
    }
    SameMultiset(multiset(s.accepted), all);
  }

  predicate Panics<T>(step: Step<T>) {
    match step
    case Request(_, p) => p
    case Linger(_, p) => p
    case Quit(_, p) => p
    case _ => false
  }

  /** With one worker and no panics the order of acceptance is kept. */
  ghost predicate InOrder<T>(s: State<T>) {
    |s.workers| == 1 && s.lost == [] && s.accepted == Flatten(s.processed) + InHand(s.workers[0]) + s.queue
  }

  lemma OrderRequest<T>(cfg: Config, s: State<T>)
    requires InOrder(s) && Enabled(cfg, s, Request(0, false))
    ensures InOrder(Apply(cfg, s, Request(0, false)))
  {
    hide Flatten;
    var f, b, q := Flatten(s.processed), s.workers[0].batch, s.queue;
    FlattenAppend(s.processed, b + [q[0]]);
    assert f + b + q == f + (b + [q[0]]) + q[1..];
    assert f + (b + [q[0]]) + [] == f + (b + [q[0]]);
  }

  lemma OrderStep<T>(cfg: Config, s: State<T>, step: Step<T>)
    requires InOrder(s) && Enabled(cfg, s, step) && !Panics(step)
    ensures InOrder(Apply(cfg, s, step))
  {
    hide Flatten;
    match step
    case Request(w, _) =>
      OrderRequest(cfg, s);
    case Linger(_, _) => FlattenAppend(s.processed, s.workers[0].batch);
    case Quit(_, _) => FlattenAppend(s.processed, s.workers[0].batch);
    case _ =>
  }

  lemma {:induction false} OneWorkerInOrder<T>(cfg: Config, now: int, steps: seq<Step<T>>)
    requires Run(cfg, 1, now, steps).Some? && forall i :: 0 <= i < |steps| ==> !Panics(steps[i])
    ensures InOrder(Run(cfg, 1, now, steps).value)
  {
    hide Enabled, Apply;
    if steps == [] {
    } else {
      hide InOrder;
      var before := steps[..|steps| - 1];
      OneWorkerInOrder(cfg, now, before);
      OrderStep(cfg, Run(cfg, 1, now, before).value, steps[|steps| - 1]);
    }
  }
}
