/** What the workers hold and what they have processed, told from the steps alone: which items
    each worker took, when, and which steps ended a batch. */
module AggregatorLedger {
  import opened Basics
  import opened AggregatorSteps

  /** An item and the time at which a worker took it. */
  datatype Taken<T> = Taken(item: T, time: int)

  function Items<T>(ts: seq<Taken<T>>): (r: seq<T>)
    ensures |r| == |ts| && forall i :: 0 <= i < |ts| ==> r[i] == ts[i].item
  {
    seq(|ts|, i requires 0 <= i < |ts| => ts[i].item)
  }

  /** The items that worker `w` has taken since it last ended a batch. A batch ends when it is
      full, at a tick of the linger timer, and when the worker leaves. */
  function Since<T>(cfg: Config, workers: nat, now: int, steps: seq<Step<T>>, w: nat): seq<Taken<T>>
    requires Run(cfg, workers, now, steps).Some?
  {
    if steps == [] then []
    else
      var before, step := steps[..|steps| - 1], steps[|steps| - 1];
      var s, h := Run(cfg, workers, now, before).value, Since(cfg, workers, now, before, w);
      if step.Request? && step.w == w then
        var h' := h + [Taken(s.queue[0], s.now)];
        if |h'| < cfg.batchSize then h' else []
      else if (step.Linger? || step.Quit?) && step.w == w then []
      else h
  }

  /** The batch that the last step of a run ends, if any. */
  function EndedBatch<T>(cfg: Config, workers: nat, now: int, steps: seq<Step<T>>): Option<seq<T>>
    requires Run(cfg, workers, now, steps).Some? && steps != []
  {
    var before, step := steps[..|steps| - 1], steps[|steps| - 1];
    var s := Run(cfg, workers, now, before).value;
    if step.Request? then
      var batch := Items(Since(cfg, workers, now, before, step.w)) + [s.queue[0]];
      if |batch| < cfg.batchSize then None else Some(batch)
    else if step.Linger? || step.Quit? then
      var batch := Items(Since(cfg, workers, now, before, step.w));
      if batch == [] then None else Some(batch)
    else None
  }

  /** All batches that ended without a panic, in order. */
  function Batches<T>(cfg: Config, workers: nat, now: int, steps: seq<Step<T>>): seq<seq<T>>
    requires Run(cfg, workers, now, steps).Some?
  {
    if steps == [] then []
    else
      var rest, ended := Batches(cfg, workers, now, steps[..|steps| - 1]), EndedBatch(cfg, workers, now, steps);
      if ended.Some? && !Panics(steps[|steps| - 1]) then rest + [ended.value] else rest
  }

  /** The items of all batches that ended in a panic. */
  function Wrecked<T>(cfg: Config, workers: nat, now: int, steps: seq<Step<T>>): seq<T>
    requires Run(cfg, workers, now, steps).Some?
  {
    if steps == [] then []
    else
      var rest, ended := Wrecked(cfg, workers, now, steps[..|steps| - 1]), EndedBatch(cfg, workers, now, steps);
      if ended.Some? && Panics(steps[|steps| - 1]) then rest + ended.value else rest
  }

  /** A worker holds `h`, and its timer runs from the time at which the first of it was taken. */
  ghost predicate Holds<T>(cfg: Config, k: Worker<T>, h: seq<Taken<T>>) {
    && InHand(k) == Items(h)
    && (h != [] ==> k.phase.Ready? && !k.timer.Idle? && k.timer.deadline == h[0].time + cfg.linger)
  }

  // What one step does, in a state that keeps the timer protocol.

  lemma TakesOne<T>(cfg: Config, s: State<T>, w: nat, panics: bool, h: seq<Taken<T>>)
    requires cfg.batchSize >= 2 && TimerInv(cfg, s) && Enabled(cfg, s, Request(w, panics))
    requires Holds(cfg, s.workers[w], h)
    ensures var s', h' := Apply(cfg, s, Request(w, panics)), h + [Taken(s.queue[0], s.now)];
            && s'.queue == s.queue[1..] && s'.accepted == s.accepted && |s'.workers| == |s.workers|
            && (forall j :: 0 <= j < |s.workers| && j != w ==> s'.workers[j] == s.workers[j])
            && (|h'| < cfg.batchSize ==>
                  Holds(cfg, s'.workers[w], h') && s'.processed == s.processed && s'.lost == s.lost)
            && (|h'| >= cfg.batchSize ==>
                  && |h'| == cfg.batchSize && Holds(cfg, s'.workers[w], [])
                  && s'.processed == (if panics then s.processed else s.processed + [Items(h) + [s.queue[0]]])
                  && s'.lost == if panics then s.lost + (Items(h) + [s.queue[0]]) else s.lost)
  {
    assert WorkerInv(cfg, s.workers[w], s.now);
    assert Items(h + [Taken(s.queue[0], s.now)]) == Items(h) + [s.queue[0]];
  }

  /** A tick, or leaving: exactly what the worker held is processed, or wrecked, and it holds
      nothing any more. A tick always finds something. */
  lemma EndsBatch<T>(cfg: Config, s: State<T>, step: Step<T>, h: seq<Taken<T>>)
    requires cfg.batchSize >= 2 && TimerInv(cfg, s) && (step.Linger? || step.Quit?) && Enabled(cfg, s, step)
    requires Holds(cfg, s.workers[step.w], h)
    ensures var s' := Apply(cfg, s, step);
            && s'.queue == s.queue && s'.accepted == s.accepted && |s'.workers| == |s.workers|
            && (forall j :: 0 <= j < |s.workers| && j != step.w ==> s'.workers[j] == s.workers[j])
            && Holds(cfg, s'.workers[step.w], [])
            && (step.Linger? ==> h != [])
            && (h == [] ==> s'.processed == s.processed && s'.lost == s.lost)
            && (h != [] && Panics(step) ==> s'.processed == s.processed && s'.lost == s.lost + Items(h))
            && (h != [] && !Panics(step) ==> s'.processed == s.processed + [Items(h)] && s'.lost == s.lost)
            && (step.Quit? && !Panics(step) ==> s'.workers[step.w].phase.Exited?)
  {
    assert WorkerInv(cfg, s.workers[step.w], s.now);
  }

  /** Every other step leaves what the workers hold. */
  lemma LeavesHands<T>(cfg: Config, s: State<T>, step: Step<T>, w: nat, h: seq<Taken<T>>)
    requires cfg.batchSize >= 2 && TimerInv(cfg, s) && Enabled(cfg, s, step)
    requires !step.Request? && !step.Linger? && !step.Quit?
    requires w < |s.workers| && Holds(cfg, s.workers[w], h)
    ensures var s' := Apply(cfg, s, step);
            && |s'.workers| == |s.workers| && Holds(cfg, s'.workers[w], h)
            && s'.processed == s.processed && s'.lost == s.lost
  {
    assert WorkerInv(cfg, s.workers[w], s.now);
  }

  lemma WorkersStay<T>(cfg: Config, s: State<T>, step: Step<T>)
    requires Enabled(cfg, s, step)
    ensures |Apply(cfg, s, step).workers| == |s.workers|
    ensures !step.Request? && !step.Linger? && !step.Quit? ==>
              Apply(cfg, s, step).processed == s.processed && Apply(cfg, s, step).lost == s.lost
  {
  }

  /** Each worker holds exactly the items it took since it last ended a batch, with its timer
      set by the first of them; the processed batches are exactly the batches that ended, in
      order; and the lost items are exactly those of the batches that panicked. */
  ghost predicate LedgerAt<T>(cfg: Config, workers: nat, now: int, steps: seq<Step<T>>)
    requires Run(cfg, workers, now, steps).Some?
  {
    var s := Run(cfg, workers, now, steps).value;
    && |s.workers| == workers
    && (forall w :: 0 <= w < workers ==> Holds(cfg, s.workers[w], Since(cfg, workers, now, steps, w)))
    && s.processed == Batches(cfg, workers, now, steps) && s.lost == Wrecked(cfg, workers, now, steps)
  }

  lemma LedgerRequest<T>(cfg: Config, workers: nat, now: int, steps: seq<Step<T>>)
    requires cfg.batchSize >= 2 && Run(cfg, workers, now, steps).Some? && steps != [] && steps[|steps| - 1].Request?
    requires Run(cfg, workers, now, steps[..|steps| - 1]).Some? && LedgerAt(cfg, workers, now, steps[..|steps| - 1])
    requires TimerInv(cfg, Run(cfg, workers, now, steps[..|steps| - 1]).value)
    ensures LedgerAt(cfg, workers, now, steps)
  {
    hide Enabled, Apply, TimerInv, Holds, Run;
    LastStep(cfg, workers, now, steps);
    var before, step := steps[..|steps| - 1], steps[|steps| - 1];
    var s := Run(cfg, workers, now, before).value;
    InRange(cfg, s, step);
    TakesOne(cfg, s, step.w, step.panics, Since(cfg, workers, now, before, step.w));
  }

  lemma LedgerEnd<T>(cfg: Config, workers: nat, now: int, steps: seq<Step<T>>)
    requires cfg.batchSize >= 2 && Run(cfg, workers, now, steps).Some? && steps != []
    requires steps[|steps| - 1].Linger? || steps[|steps| - 1].Quit?
    requires Run(cfg, workers, now, steps[..|steps| - 1]).Some? && LedgerAt(cfg, workers, now, steps[..|steps| - 1])
    requires TimerInv(cfg, Run(cfg, workers, now, steps[..|steps| - 1]).value)
    ensures LedgerAt(cfg, workers, now, steps)
  {
    hide Enabled, Apply, TimerInv, Holds, Run;
    LastStep(cfg, workers, now, steps);
    var before, step := steps[..|steps| - 1], steps[|steps| - 1];
    var s := Run(cfg, workers, now, before).value;
    InRange(cfg, s, step);
    EndsBatch(cfg, s, step, Since(cfg, workers, now, before, step.w));
  }

  lemma LedgerQuiet<T>(cfg: Config, workers: nat, now: int, steps: seq<Step<T>>)
    requires cfg.batchSize >= 2 && Run(cfg, workers, now, steps).Some? && steps != []
    requires var step := steps[|steps| - 1]; !step.Request? && !step.Linger? && !step.Quit?
    requires Run(cfg, workers, now, steps[..|steps| - 1]).Some? && LedgerAt(cfg, workers, now, steps[..|steps| - 1])
    requires TimerInv(cfg, Run(cfg, workers, now, steps[..|steps| - 1]).value)
    ensures LedgerAt(cfg, workers, now, steps)
  {
    hide Enabled, Apply, TimerInv, Holds, Run;
    LastStep(cfg, workers, now, steps);
    var before, step := steps[..|steps| - 1], steps[|steps| - 1];
    var s := Run(cfg, workers, now, before).value;
    WorkersStay(cfg, s, step);
    forall w | 0 <= w < workers
      ensures Holds(cfg, Apply(cfg, s, step).workers[w], Since(cfg, workers, now, steps, w))
    {
      LeavesHands(cfg, s, step, w, Since(cfg, workers, now, before, w));
    }
  }

  /** In every run. */
  lemma {:induction false} Ledger<T>(cfg: Config, workers: nat, now: int, steps: seq<Step<T>>)
    requires cfg.batchSize >= 2 && Run(cfg, workers, now, steps).Some?
    ensures LedgerAt(cfg, workers, now, steps)
  {
    if steps == [] {
      NothingYet<T>(cfg, workers, now);
    } else {
      var before, step := steps[..|steps| - 1], steps[|steps| - 1];
      LastStep(cfg, workers, now, steps);
      Ledger(cfg, workers, now, before);
      TimerProtocol(cfg, workers, now, before);
      hide Enabled, Apply, TimerInv, Run, LedgerAt;
      if step.Request? {
        LedgerRequest(cfg, workers, now, steps);
      } else if step.Linger? || step.Quit? {
        LedgerEnd(cfg, workers, now, steps);
      } else {
        LedgerQuiet(cfg, workers, now, steps);
      }
    }
  }

  lemma LastStep<T>(cfg: Config, workers: nat, now: int, steps: seq<Step<T>>)
    requires Run(cfg, workers, now, steps).Some? && steps != []
    ensures var before, step := Run(cfg, workers, now, steps[..|steps| - 1]), steps[|steps| - 1];
            && before.Some? && Enabled(cfg, before.value, step)
            && Run(cfg, workers, now, steps) == Some(Apply(cfg, before.value, step))
  {
    hide Enabled, Apply;
  }

  lemma InRange<T>(cfg: Config, s: State<T>, step: Step<T>)
    requires Enabled(cfg, s, step)
    ensures step.Request? || step.Linger? || step.Quit? ==> step.w < |s.workers|
    ensures step.Request? ==> s.queue != []
  {
  }

  lemma NothingYet<T>(cfg: Config, workers: nat, now: int)
    ensures var s: State<T> := Initial(workers, now);
            && |s.workers| == workers && s.processed == [] && s.lost == []
            && forall w :: 0 <= w < workers ==> Holds(cfg, s.workers[w], [])
  {
  }

  // ---------- what a tick means for a run ----------

  /** After a tick the worker's items have been processed, and it has none in hand. */
  lemma TickProcesses<T>(cfg: Config, workers: nat, now: int, steps: seq<Step<T>>, w: nat)
    requires cfg.batchSize >= 2 && Run(cfg, workers, now, steps).Some?
    requires Enabled(cfg, Run(cfg, workers, now, steps).value, Linger(w, false))
    ensures var s := Run(cfg, workers, now, steps).value; var s' := Apply(cfg, s, Linger(w, false));
            && InHand(s.workers[w]) != [] && s'.processed == s.processed + [InHand(s.workers[w])]
            && InHand(s'.workers[w]) == [] && s'.queue == s.queue && s'.lost == s.lost
  {
    Ledger(cfg, workers, now, steps);
    TimerProtocol(cfg, workers, now, steps);
    var s := Run(cfg, workers, now, steps).value;
    hide Run, TimerInv;
    EndsBatch(cfg, s, Linger(w, false), Since(cfg, workers, now, steps, w));
    hide Enabled, Apply, Since;
  }

  /** The items that worker `w` took with the steps from position `j` on. */
  function TakenFrom<T>(cfg: Config, workers: nat, now: int, steps: seq<Step<T>>, j: nat, w: nat): seq<Taken<T>>
    requires Run(cfg, workers, now, steps).Some?
  {
    if |steps| <= j then []
    else
      var before, step := steps[..|steps| - 1], steps[|steps| - 1];
      var s, taken := Run(cfg, workers, now, before).value, TakenFrom(cfg, workers, now, before, j, w);
      if step.Request? && step.w == w then taken + [Taken(s.queue[0], s.now)] else taken
  }

  ghost predicate EndsWith<T>(s: seq<T>, end: seq<T>) {
    |end| <= |s| && s[|s| - |end|..] == end
  }

  lemma {:induction false} SinceIsLatest<T>(cfg: Config, workers: nat, now: int, steps: seq<Step<T>>, j: nat, w: nat)
    requires Run(cfg, workers, now, steps).Some? && j <= |steps|
    requires Run(cfg, workers, now, steps[..j]).Some? && Since(cfg, workers, now, steps[..j], w) == []
    ensures EndsWith(TakenFrom(cfg, workers, now, steps, j, w), Since(cfg, workers, now, steps, w))
  {
    hide Run, Enabled, Apply, EndsWith;
    if j == |steps| {
      assert steps[..j] == steps;
      EndNone<Taken<T>>([]);
    } else {
      var before, step := steps[..|steps| - 1], steps[|steps| - 1];
      assert before[..j] == steps[..j];
      LastStep(cfg, workers, now, steps);
      SinceIsLatest(cfg, workers, now, before, j, w);
      var s := Run(cfg, workers, now, before).value;
      var taken, since := TakenFrom(cfg, workers, now, before, j, w), Since(cfg, workers, now, before, w);
      EndNone(taken);
      if step.Request? && step.w == w {
        InRange(cfg, s, step);
        var x := Taken(s.queue[0], s.now);
        EndMore(taken, since, x);
        EndNone(taken + [x]);
      }
    }
  }

  lemma EndNone<T>(s: seq<T>)
    ensures EndsWith(s, [])
  {
  }

  lemma EndMore<T>(s: seq<T>, end: seq<T>, x: T)
    requires EndsWith(s, end)
    ensures EndsWith(s + [x], end + [x])
  {
  }

  lemma {:induction false} RunPrefix<T>(cfg: Config, workers: nat, now: int, steps: seq<Step<T>>, j: nat)
    requires Run(cfg, workers, now, steps).Some? && j <= |steps|
    ensures Run(cfg, workers, now, steps[..j]).Some?
  {
    if j == |steps| {
      assert steps[..j] == steps;
    } else {
      var before := steps[..|steps| - 1];
      assert before[..j] == steps[..j];
      LastStep(cfg, workers, now, steps);
      RunPrefix(cfg, workers, now, before, j);
    }
  }

  /** No item stays in a worker's hand across a tick that the worker has received: all that it
      holds later are items it has taken after the tick. */
  lemma NothingAcrossTick<T>(cfg: Config, workers: nat, now: int, steps: seq<Step<T>>, j: nat, w: nat)
    requires cfg.batchSize >= 2 && Run(cfg, workers, now, steps).Some?
    requires j < |steps| && steps[j].Linger? && steps[j].w == w && w < workers
    ensures w < |Run(cfg, workers, now, steps).value.workers|
    ensures EndsWith(Items(TakenFrom(cfg, workers, now, steps, j + 1, w)),
                     InHand(Run(cfg, workers, now, steps).value.workers[w]))
  {
    Ledger(cfg, workers, now, steps);
    RunPrefix(cfg, workers, now, steps, j + 1);
    var upTo := steps[..j + 1];
    assert upTo[j] == steps[j];
    assert Since(cfg, workers, now, upTo, w) == [];
    hide Run, Since;
    SinceIsLatest(cfg, workers, now, steps, j + 1, w);
    var taken, since := TakenFrom(cfg, workers, now, steps, j + 1, w), Since(cfg, workers, now, steps, w);
    assert Items(taken)[|taken| - |since|..] == Items(since);
  }
}
