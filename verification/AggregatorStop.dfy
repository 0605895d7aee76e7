/** Stopping the aggregator: what SafeStop promises, and exactly when. */
module AggregatorStop {
  import opened Basics
  import opened AggregatorSteps

  /** Whatever is queued was accepted after the latest empty-queue check. */
  ghost predicate StopInv<T>(s: State<T>) {
    s.checked.Some? ==> s.checked.value + |s.queue| <= |s.accepted|
  }

  lemma {:induction false} RunStop<T>(cfg: Config, workers: nat, now: int, steps: seq<Step<T>>)
    requires Run(cfg, workers, now, steps).Some?
    ensures StopInv(Run(cfg, workers, now, steps).value)
  {
    if steps == [] {
    } else {
      RunStop(cfg, workers, now, steps[..|steps| - 1]);
    }
  }

  lemma {:induction false} NoPanicNoLoss<T>(cfg: Config, workers: nat, now: int, steps: seq<Step<T>>)
    requires Run(cfg, workers, now, steps).Some? && forall i :: 0 <= i < |steps| ==> !Panics(steps[i])
    ensures Run(cfg, workers, now, steps).value.lost == []
  {
    if steps == [] {
    } else {
      NoPanicNoLoss(cfg, workers, now, steps[..|steps| - 1]);
    }
  }

  lemma {:induction false} ExitedHands<T>(ws: seq<Worker<T>>)
    requires forall w :: 0 <= w < |ws| ==> ws[w].phase.Exited?
    ensures Hands(ws) == []
  {
    if ws == [] {
    } else {
      ExitedHands(ws[..|ws| - 1]);
    }
  }

  /** Once every worker has left its loop, the items that were not processed are exactly the
      queued ones; if nothing was accepted after the empty-queue check, there are none. */
  lemma SafeStopLosesNothing<T>(cfg: Config, workers: nat, now: int, steps: seq<Step<T>>)
    requires cfg.batchSize >= 1 && Run(cfg, workers, now, steps).Some?
    requires forall i :: 0 <= i < |steps| ==> !Panics(steps[i])
    requires AllExited(Run(cfg, workers, now, steps).value)
    ensures var s := Run(cfg, workers, now, steps).value;
            && (multiset(Flatten(s.processed)) == multiset(s.accepted) <==> s.queue == [])
            && (s.checked == Some(|s.accepted|) ==> s.queue == [])
  {
    var s := Run(cfg, workers, now, steps).value;
    Conservation(cfg, workers, now, steps);
    RunStop(cfg, workers, now, steps);
    NoPanicNoLoss(cfg, workers, now, steps);
    ExitedHands(s.workers);
    hide Run, Flatten;
    assert multiset(s.accepted) == multiset(Flatten(s.processed)) + multiset(s.queue);
    if s.queue != [] {
      assert multiset(s.queue)[s.queue[0]] > 0;
      assert multiset(s.accepted)[s.queue[0]] > multiset(Flatten(s.processed))[s.queue[0]];
    }
  }

  /** The check alone is not enough: an item accepted between the check and the closing of the
      quit channel can be left behind. */
  lemma SafeStopCanLose<T>(cfg: Config, now: int, item: T)
    requires cfg.buffer >= 1
    ensures var r := Run(cfg, 1, now, [StopTimer(0), CheckEmpty, Offer(item), Close, Quit(0, false)]);
            r.Some? && r.value.workers[0].phase.Exited? && r.value.accepted == [item] && r.value.processed == []
  {
    hide Apply, Enabled;
    var s0: State<T> := Initial(1, now);
    var s1 := s0.(workers := [Worker([], Idle, Ready, now)]);
    var s2 := s1.(checked := Some(0));
    var s3 := s2.(queue := [item], accepted := [item]);
    var s4 := s3.(closed := true);
    var t1 := [StopTimer(0)];
    var t2, t3 := t1 + [CheckEmpty], t1 + [CheckEmpty] + [Offer(item)];
    var t4 := t3 + [Close];
    LosingSteps(cfg, now, item);
    assert t1 == [] + [StopTimer(0)];
    RunMore<T>(cfg, 1, now, [], StopTimer(0));
    RunMore(cfg, 1, now, t1, CheckEmpty);
    RunMore(cfg, 1, now, t2, Offer(item));
    RunMore(cfg, 1, now, t3, Close);
    RunMore(cfg, 1, now, t4, Quit(0, false));
    assert t4 + [Quit(0, false)] == [StopTimer(0), CheckEmpty, Offer(item), Close, Quit(0, false)];
  }

  /** The states of the losing run, one after the other. */
  lemma LosingSteps<T>(cfg: Config, now: int, item: T)
    requires cfg.buffer >= 1
    ensures var s0: State<T> := Initial(1, now);
            var s1 := s0.(workers := [Worker([], Idle, Ready, now)]);
            var s2 := s1.(checked := Some(0));
            var s3 := s2.(queue := [item], accepted := [item]);
            var s4 := s3.(closed := true);
            && Enabled(cfg, s0, StopTimer(0)) && Apply(cfg, s0, StopTimer(0)) == s1
            && Enabled(cfg, s1, CheckEmpty) && Apply(cfg, s1, CheckEmpty) == s2
            && Enabled(cfg, s2, Offer(item)) && Apply(cfg, s2, Offer(item)) == s3
            && Enabled(cfg, s3, Close) && Apply(cfg, s3, Close) == s4
            && Enabled(cfg, s4, Quit(0, false))
            && Apply(cfg, s4, Quit(0, false)) == s4.(workers := [Worker([], Idle, Exited, now)])
  {
  }

  /** Nothing new comes in and nothing panics. */
  predicate Quiet<T>(step: Step<T>) { !step.Offer? && !Panics(step) }

  ghost predicate AllExited<T>(s: State<T>) {
    forall w :: 0 <= w < |s.workers| ==> s.workers[w].phase.Exited?
  }

  /** However the run goes on, if no more is accepted and all workers leave, everything
      accepted has been processed. */
  ghost predicate StopsClean<T(!new)>(cfg: Config, s: State<T>) {
    forall more :: CleanEnd(cfg, s, more)
  }

  ghost predicate CleanEnd<T>(cfg: Config, s: State<T>, more: seq<Step<T>>) {
    var r := RunFrom(cfg, s, more);
    (forall i :: 0 <= i < |more| ==> Quiet(more[i])) && r.Some? && AllExited(r.value) ==>
      multiset(Flatten(r.value.processed)) == multiset(r.value.accepted)
  }

  lemma {:induction false} QuietKeepsEmpty<T>(cfg: Config, s: State<T>, more: seq<Step<T>>)
    requires s.queue == [] && RunFrom(cfg, s, more).Some? && forall i :: 0 <= i < |more| ==> Quiet(more[i])
    ensures RunFrom(cfg, s, more).value.queue == []
    decreases |more|
  {
    if more == [] {
    } else {
      QuietKeepsEmpty(cfg, s, more[..|more| - 1]);
    }
  }

  /** The step that brings a worker closer to its exit without taking an item. */
  function ExitStep<T>(k: Worker<T>, w: nat): Step<T>
    requires !k.phase.Exited?
  {
    match k.phase
    case Starting => StopTimer(w)
    case Stopping => StopTimer(w)
    case StartDrain => Drain(w)
    case Draining => Drain(w)
    case Ready => Quit(w, false)
  }

  function ToExit<T>(k: Worker<T>): nat {
    match k.phase
    case Starting => 3
    case Stopping => 3
    case StartDrain => 2
    case Draining => 2
    case Ready => 1
    case Exited => 0
  }

  lemma ExitStepWorks<T>(cfg: Config, s: State<T>, w: nat)
    requires TimerInv(cfg, s) && s.closed && w < |s.workers| && !s.workers[w].phase.Exited?
    ensures var step := ExitStep(s.workers[w], w);
            && Enabled(cfg, s, step) && Quiet(step)
            && var r := Apply(cfg, s, step);
               && r.queue == s.queue && r.closed && |r.workers| == |s.workers|
               && ToExit(r.workers[w]) < ToExit(s.workers[w])
               && forall j :: 0 <= j < |s.workers| && j != w ==> r.workers[j] == s.workers[j]
  {
    assert WorkerInv(cfg, s.workers[w], s.now);
  }

  /** A closed aggregator can always let worker `w` leave, with its queue untouched. */
  lemma {:induction false} ExitWorker<T>(cfg: Config, s: State<T>, w: nat) returns (more: seq<Step<T>>)
    requires cfg.batchSize >= 2 && TimerInv(cfg, s) && s.closed && w < |s.workers|
    ensures forall i :: 0 <= i < |more| ==> Quiet(more[i])
    ensures RunFrom(cfg, s, more).Some?
    ensures var r := RunFrom(cfg, s, more).value;
            && TimerInv(cfg, r) && r.queue == s.queue && r.closed && |r.workers| == |s.workers|
            && r.workers[w].phase.Exited?
            && forall j :: 0 <= j < |s.workers| && j != w ==> r.workers[j] == s.workers[j]
    decreases ToExit(s.workers[w])
  {
    if s.workers[w].phase.Exited? {
      more := [];
    } else {
      hide Enabled, Apply, TimerInv;
      var step := ExitStep(s.workers[w], w);
      ExitStepWorks(cfg, s, w);
      TimerStep(cfg, s, step);
      var rest := ExitWorker(cfg, Apply(cfg, s, step), w);
      more := [step] + rest;
      RunFirst(cfg, s, step, rest);
    }
  }

  lemma RunFirst<T>(cfg: Config, s: State<T>, step: Step<T>, rest: seq<Step<T>>)
    requires Enabled(cfg, s, step)
    ensures RunFrom(cfg, s, [step] + rest) == RunFrom(cfg, Apply(cfg, s, step), rest)
  {
    hide Enabled, Apply;
    assert [step][..0] == [];
    assert RunFrom(cfg, s, []) == Some(s);
    RunConcat(cfg, s, [step], rest);
  }

  lemma {:induction false} ExitWorkers<T>(cfg: Config, s: State<T>, n: nat) returns (more: seq<Step<T>>)
    requires cfg.batchSize >= 2 && TimerInv(cfg, s) && s.closed && n <= |s.workers|
    ensures forall i :: 0 <= i < |more| ==> Quiet(more[i])
    ensures RunFrom(cfg, s, more).Some?
    ensures var r := RunFrom(cfg, s, more).value;
            && TimerInv(cfg, r) && r.queue == s.queue && r.closed && |r.workers| == |s.workers|
            && forall j :: 0 <= j < n ==> r.workers[j].phase.Exited?
  {
    hide Enabled, Apply, TimerInv;
    if n == 0 {
      more := [];
    } else {
      var first := ExitWorkers(cfg, s, n - 1);
      var r := RunFrom(cfg, s, first).value;
      var rest := ExitWorker(cfg, r, n - 1);
      more := first + rest;
      RunConcat(cfg, s, first, rest);
    }
  }

  /** From any reachable state, a run that leaves the queue as it is and ends with all
      workers out. */
  lemma ExitAll<T>(cfg: Config, s: State<T>) returns (more: seq<Step<T>>)
    requires cfg.batchSize >= 2 && TimerInv(cfg, s)
    ensures forall i :: 0 <= i < |more| ==> Quiet(more[i])
    ensures RunFrom(cfg, s, more).Some?
    ensures AllExited(RunFrom(cfg, s, more).value) && RunFrom(cfg, s, more).value.queue == s.queue
  {
    if s.closed {
      more := ExitWorkers(cfg, s, |s.workers|);
    } else {
      TimerStep(cfg, s, Close);
      var rest := ExitWorkers(cfg, Apply(cfg, s, Close), |s.workers|);
      more := [Close] + rest;
      RunFirst(cfg, s, Close, rest);
    }
  }

  /** What SafeStop promises, exactly: if from now on nothing more is accepted, every way of
      stopping processes all that was accepted if and only if the queue is empty now. */
  lemma StopsCleanIff<T(!new)>(cfg: Config, workers: nat, now: int, steps: seq<Step<T>>)
    requires cfg.batchSize >= 2 && Run(cfg, workers, now, steps).Some?
    requires forall i :: 0 <= i < |steps| ==> !Panics(steps[i])
    ensures var s := Run(cfg, workers, now, steps).value; StopsClean(cfg, s) <==> s.queue == []
  {
    var s := Run(cfg, workers, now, steps).value;
    if s.queue == [] {
      forall more
        ensures CleanEnd(cfg, s, more)
      {
        EmptyStopsClean(cfg, workers, now, steps, more);
      }
    } else {
      TimerProtocol(cfg, workers, now, steps);
      var more := ExitAll(cfg, s);
      QueuedIsLeft(cfg, workers, now, steps, more);
      assert !CleanEnd(cfg, s, more);
    }
  }

  lemma EmptyStopsClean<T>(cfg: Config, workers: nat, now: int, steps: seq<Step<T>>, more: seq<Step<T>>)
    requires cfg.batchSize >= 2 && Run(cfg, workers, now, steps).Some?
    requires forall i :: 0 <= i < |steps| ==> !Panics(steps[i])
    requires Run(cfg, workers, now, steps).value.queue == []
    ensures CleanEnd(cfg, Run(cfg, workers, now, steps).value, more)
  {
    var s := Run(cfg, workers, now, steps).value;
    if && (forall i :: 0 <= i < |more| ==> Quiet(more[i]))
       && RunFrom(cfg, s, more).Some? && AllExited(RunFrom(cfg, s, more).value) {
      QuietKeepsEmpty(cfg, s, more);
      RunConcat(cfg, Initial(workers, now), steps, more);
      SafeStopLosesNothing(cfg, workers, now, steps + more);
    }
  }

  lemma QueuedIsLeft<T>(cfg: Config, workers: nat, now: int, steps: seq<Step<T>>, more: seq<Step<T>>)
    requires cfg.batchSize >= 2 && Run(cfg, workers, now, steps).Some?
    requires forall i :: 0 <= i < |steps| ==> !Panics(steps[i])
    requires forall i :: 0 <= i < |more| ==> Quiet(more[i])
    requires var r := RunFrom(cfg, Run(cfg, workers, now, steps).value, more);
             r.Some? && AllExited(r.value) && r.value.queue != []
    ensures !CleanEnd(cfg, Run(cfg, workers, now, steps).value, more)
  {
    RunConcat(cfg, Initial(workers, now), steps, more);
    SafeStopLosesNothing(cfg, workers, now, steps + more);
  }
}
