/** The aggregator never gets into a state from which it cannot finish: all accepted items can
    be processed, and a full or stopped aggregator takes what it should. */
module AggregatorProgress {
  import opened Basics
  import opened AggregatorSteps
  import opened AggregatorStop

  /** A step of the workers or of the clock; nothing comes in, panics or is stopped. */
  predicate Working<T>(step: Step<T>) {
    Quiet(step) && !step.Quit? && !step.Close? && !step.CheckEmpty?
  }

  ghost predicate AllWorking<T>(steps: seq<Step<T>>) {
    forall i :: 0 <= i < |steps| ==> Working(steps[i])
  }

  /** What the steps of this section keep. */
  ghost predicate SameOutside<T>(s: State<T>, r: State<T>) {
    |r.workers| == |s.workers| && r.accepted == s.accepted && r.closed == s.closed
  }

  ghost predicate OthersSame<T>(s: State<T>, r: State<T>, w: nat) {
    |r.workers| == |s.workers| && forall j :: 0 <= j < |s.workers| && j != w ==> r.workers[j] == s.workers[j]
  }

  /** A worker on its way to the loop head can take the next step there. */
  lemma ReadyStep<T>(cfg: Config, s: State<T>, w: nat)
    requires TimerInv(cfg, s) && w < |s.workers| && !s.workers[w].phase.Exited? && !s.workers[w].phase.Ready?
    ensures var step := ExitStep(s.workers[w], w);
            && Enabled(cfg, s, step) && Working(step)
            && var r := Apply(cfg, s, step);
               && SameOutside(s, r) && OthersSame(s, r, w) && r.queue == s.queue
               && !r.workers[w].phase.Exited? && ToExit(r.workers[w]) < ToExit(s.workers[w])
  {
    assert WorkerInv(cfg, s.workers[w], s.now);
  }

  lemma {:induction false} MakeReady<T>(cfg: Config, s: State<T>, w: nat) returns (more: seq<Step<T>>)
    requires cfg.batchSize >= 2 && TimerInv(cfg, s) && w < |s.workers| && !s.workers[w].phase.Exited?
    ensures AllWorking(more) && RunFrom(cfg, s, more).Some?
    ensures var r := RunFrom(cfg, s, more).value;
            && TimerInv(cfg, r) && SameOutside(s, r) && OthersSame(s, r, w) && r.queue == s.queue
            && r.workers[w].phase.Ready?
    decreases ToExit(s.workers[w])
  {
    if s.workers[w].phase.Ready? {
      more := [];
    } else {
      hide Enabled, Apply, TimerInv;
      var step := ExitStep(s.workers[w], w);
      ReadyStep(cfg, s, w);
      TimerStep(cfg, s, step);
      var rest := MakeReady(cfg, Apply(cfg, s, step), w);
      more := [step] + rest;
      RunFirst(cfg, s, step, rest);
    }
  }

  lemma RequestWorks<T>(cfg: Config, s: State<T>, w: nat)
    requires w < |s.workers| && s.workers[w].phase.Ready? && s.queue != []
    ensures Enabled(cfg, s, Request(w, false))
    ensures var r := Apply(cfg, s, Request(w, false));
            && SameOutside(s, r) && OthersSame(s, r, w) && r.queue == s.queue[1..] && !r.workers[w].phase.Exited?
  {
  }

  /** A worker that has not left can take everything out of the queue. */
  lemma {:induction false} TakeAll<T>(cfg: Config, s: State<T>, w: nat) returns (more: seq<Step<T>>)
    requires cfg.batchSize >= 2 && TimerInv(cfg, s) && w < |s.workers| && !s.workers[w].phase.Exited?
    ensures AllWorking(more) && RunFrom(cfg, s, more).Some?
    ensures var r := RunFrom(cfg, s, more).value; TimerInv(cfg, r) && SameOutside(s, r) && r.queue == []
    decreases |s.queue|
  {
    if s.queue == [] {
      more := [];
    } else {
      hide Enabled, Apply, TimerInv;
      var first := MakeReady(cfg, s, w);
      var r := RunFrom(cfg, s, first).value;
      RequestWorks(cfg, r, w);
      TimerStep(cfg, r, Request(w, false));
      var rest := TakeAll(cfg, Apply(cfg, r, Request(w, false)), w);
      more := first + ([Request(w, false)] + rest);
      RunFirst(cfg, r, Request(w, false), rest);
      RunConcat(cfg, s, first, [Request(w, false)] + rest);
    }
  }

  /** Time passes, the timer fires and the batch is processed. */
  function TickSteps<T>(s: State<T>, w: nat): seq<Step<T>>
    requires w < |s.workers|
  {
    var k := s.workers[w];
    if k.timer.Armed? then
      [Advance(if k.timer.deadline <= s.now then 0 else k.timer.deadline - s.now)] + [Expire(w)] + [Linger(w, false)]
    else [Linger(w, false)]
  }

  lemma LingerWorks<T>(cfg: Config, s: State<T>, w: nat)
    requires TimerInv(cfg, s) && w < |s.workers| && s.workers[w].phase.Ready? && s.workers[w].timer.Fired?
    ensures Enabled(cfg, s, Linger(w, false))
    ensures var r := Apply(cfg, s, Linger(w, false));
            && SameOutside(s, r) && OthersSame(s, r, w) && r.queue == s.queue && InHand(r.workers[w]) == []
  {
    assert WorkerInv(cfg, s.workers[w], s.now);
  }

  lemma ExpireWorks<T>(cfg: Config, s: State<T>, w: nat, d: nat)
    requires w < |s.workers| && s.workers[w].timer.Armed? && s.workers[w].timer.deadline <= s.now + d
    ensures Enabled(cfg, s, Advance(d)) && Enabled(cfg, Apply(cfg, s, Advance(d)), Expire(w))
    ensures var r := Apply(cfg, Apply(cfg, s, Advance(d)), Expire(w));
            && SameOutside(s, r) && OthersSame(s, r, w) && r.queue == s.queue
            && r.workers[w] == s.workers[w].(timer := Fired(s.workers[w].timer.deadline))
  {
  }

  lemma EmptyHand<T>(cfg: Config, s: State<T>, w: nat) returns (more: seq<Step<T>>)
    requires cfg.batchSize >= 2 && TimerInv(cfg, s) && w < |s.workers|
    ensures AllWorking(more) && RunFrom(cfg, s, more).Some?
    ensures var r := RunFrom(cfg, s, more).value;
            && TimerInv(cfg, r) && SameOutside(s, r) && OthersSame(s, r, w) && r.queue == s.queue
            && InHand(r.workers[w]) == []
  {
    var k := s.workers[w];
    assert WorkerInv(cfg, k, s.now);
    if InHand(k) == [] {
      more := [];
    } else {
      hide Enabled, Apply, TimerInv;
      more := TickSteps(s, w);
      if k.timer.Armed? {
        var d := if k.timer.deadline <= s.now then 0 else k.timer.deadline - s.now;
        ExpireWorks(cfg, s, w, d);
        var s1 := Apply(cfg, s, Advance(d));
        var s2 := Apply(cfg, s1, Expire(w));
        TimerStep(cfg, s, Advance(d));
        TimerStep(cfg, s1, Expire(w));
        TimerStep2(cfg, s2, w);
        RunThree(cfg, s, Advance(d), Expire(w), Linger(w, false));
      } else {
        TimerStep2(cfg, s, w);
        RunFirst(cfg, s, Linger(w, false), []);
        assert [Linger(w, false)] + [] == more;
      }
    }
  }

  lemma TimerStep2<T>(cfg: Config, s: State<T>, w: nat)
    requires cfg.batchSize >= 2 && TimerInv(cfg, s)
    requires w < |s.workers| && s.workers[w].phase.Ready? && s.workers[w].timer.Fired?
    ensures Enabled(cfg, s, Linger(w, false))
    ensures var r := Apply(cfg, s, Linger(w, false));
            && TimerInv(cfg, r) && SameOutside(s, r) && OthersSame(s, r, w) && r.queue == s.queue
            && InHand(r.workers[w]) == []
  {
    hide Apply, Enabled, TimerInv;
    LingerWorks(cfg, s, w);
    TimerStep(cfg, s, Linger(w, false));
  }

  lemma RunThree<T>(cfg: Config, s: State<T>, a: Step<T>, b: Step<T>, c: Step<T>)
    requires Enabled(cfg, s, a) && Enabled(cfg, Apply(cfg, s, a), b) && Enabled(cfg, Apply(cfg, Apply(cfg, s, a), b), c)
    ensures RunFrom(cfg, s, [a] + [b] + [c]) == Some(Apply(cfg, Apply(cfg, Apply(cfg, s, a), b), c))
  {
    hide Enabled, Apply;
    var s1 := Apply(cfg, s, a);
    var s2 := Apply(cfg, s1, b);
    RunFirst(cfg, s, a, [b] + [c]);
    RunFirst(cfg, s1, b, [c]);
    RunFirst(cfg, s2, c, []);
    assert [a] + ([b] + [c]) == [a] + [b] + [c] && [c] + [] == [c];
  }

  lemma {:induction false} EmptyHands<T>(cfg: Config, s: State<T>, n: nat) returns (more: seq<Step<T>>)
    requires cfg.batchSize >= 2 && TimerInv(cfg, s) && n <= |s.workers|
    ensures AllWorking(more) && RunFrom(cfg, s, more).Some?
    ensures var r := RunFrom(cfg, s, more).value;
            && TimerInv(cfg, r) && SameOutside(s, r) && r.queue == s.queue
            && forall w :: 0 <= w < n ==> InHand(r.workers[w]) == []
  {
    hide Enabled, Apply, TimerInv, InHand;
    if n == 0 {
      more := [];
    } else {
      var first := EmptyHands(cfg, s, n - 1);
      var r := RunFrom(cfg, s, first).value;
      var rest := EmptyHand(cfg, r, n - 1);
      more := first + rest;
      RunConcat(cfg, s, first, rest);
    }
  }

  lemma {:induction false} NoHands<T>(ws: seq<Worker<T>>)
    requires forall w :: 0 <= w < |ws| ==> InHand(ws[w]) == []
    ensures Hands(ws) == []
  {
    if ws == [] {
    } else {
      NoHands(ws[..|ws| - 1]);
    }
  }

  /** From every reachable state in which some worker has not left, the workers and the clock
      alone can bring about that everything accepted has been processed or was lost to a panic
      before. */
  lemma CanProcessAll<T>(cfg: Config, workers: nat, now: int, steps: seq<Step<T>>, w: nat) returns (more: seq<Step<T>>)
    requires cfg.batchSize >= 2 && Run(cfg, workers, now, steps).Some?
    requires var s := Run(cfg, workers, now, steps).value; w < |s.workers| && !s.workers[w].phase.Exited?
    ensures AllWorking(more) && Run(cfg, workers, now, steps + more).Some?
    ensures var s, r := Run(cfg, workers, now, steps).value, Run(cfg, workers, now, steps + more).value;
            && r.accepted == s.accepted && r.queue == []
            && (forall j :: 0 <= j < |r.workers| ==> InHand(r.workers[j]) == [])
            && multiset(r.accepted) == multiset(Flatten(r.processed)) + multiset(r.lost)
  {
    var s := Run(cfg, workers, now, steps).value;
    TimerProtocol(cfg, workers, now, steps);
    hide TimerInv, Enabled, Apply;
    var first := TakeAll(cfg, s, w);
    var mid := RunFrom(cfg, s, first).value;
    var rest := EmptyHands(cfg, mid, |mid.workers|);
    more := first + rest;
    RunConcat(cfg, s, first, rest);
    RunConcat(cfg, Initial(workers, now), steps, more);
    hide RunFrom, Flatten, InHand;
    Settled(cfg, workers, now, steps + more);
  }

  lemma Settled<T>(cfg: Config, workers: nat, now: int, steps: seq<Step<T>>)
    requires cfg.batchSize >= 2 && Run(cfg, workers, now, steps).Some?
    requires var r := Run(cfg, workers, now, steps).value;
             r.queue == [] && forall j :: 0 <= j < |r.workers| ==> InHand(r.workers[j]) == []
    ensures var r := Run(cfg, workers, now, steps).value;
            multiset(r.accepted) == multiset(Flatten(r.processed)) + multiset(r.lost)
  {
    Conservation(cfg, workers, now, steps);
    var r := Run(cfg, workers, now, steps).value;
    hide Run, Flatten, InHand;
    NoHands(r.workers);
  }

  /** And the aggregator can then be stopped with nothing left behind. */
  lemma CanFinish<T>(cfg: Config, workers: nat, now: int, steps: seq<Step<T>>, w: nat) returns (more: seq<Step<T>>)
    requires cfg.batchSize >= 2 && Run(cfg, workers, now, steps).Some?
    requires forall i :: 0 <= i < |steps| ==> !Panics(steps[i])
    requires var s := Run(cfg, workers, now, steps).value; w < |s.workers| && !s.workers[w].phase.Exited?
    ensures Run(cfg, workers, now, steps + more).Some?
    ensures var s, r := Run(cfg, workers, now, steps).value, Run(cfg, workers, now, steps + more).value;
            r.accepted == s.accepted && AllExited(r) && multiset(Flatten(r.processed)) == multiset(r.accepted)
  {
    var first := CanProcessAll(cfg, workers, now, steps, w);
    var all := steps + first;
    var mid := Run(cfg, workers, now, all).value;
    TimerProtocol(cfg, workers, now, all);
    var rest := ExitAll(cfg, mid);
    more := first + rest;
    assert steps + more == all + rest;
    EmptyStopsClean(cfg, workers, now, all, rest);
    hide TimerInv, Enabled, Apply;
    QuietAccepts(cfg, mid, rest);
    RunConcat(cfg, Initial(workers, now), all, rest);
  }

  lemma {:induction false} QuietAccepts<T>(cfg: Config, s: State<T>, more: seq<Step<T>>)
    requires RunFrom(cfg, s, more).Some? && forall i :: 0 <= i < |more| ==> Quiet(more[i])
    ensures RunFrom(cfg, s, more).value.accepted == s.accepted
    decreases |more|
  {
    if more == [] {
    } else {
      QuietAccepts(cfg, s, more[..|more| - 1]);
    }
  }

  // ---------- what is accepted ----------

  function Offers<T>(items: seq<T>): seq<Step<T>> {
    if items == [] then [] else Offers(items[..|items| - 1]) + [Offer(items[|items| - 1])]
  }

  lemma OfferWorks<T>(cfg: Config, s: State<T>, item: T)
    ensures Enabled(cfg, s, Offer(item)) <==> |s.queue| + 1 <= cfg.buffer
    ensures Enabled(cfg, s, Offer(item)) ==>
              Apply(cfg, s, Offer(item)) == s.(queue := s.queue + [item], accepted := s.accepted + [item])
  {
  }

  /** In a row, without anyone taking an item out, offers are accepted exactly as long as the
      queue has room, and are queued in their order. */
  lemma {:induction false} OffersFill<T>(cfg: Config, s: State<T>, items: seq<T>)
    requires items != []
    ensures RunFrom(cfg, s, Offers(items)).Some? <==> |s.queue| + |items| <= cfg.buffer
    ensures RunFrom(cfg, s, Offers(items)).Some? ==>
              RunFrom(cfg, s, Offers(items)).value == s.(queue := s.queue + items, accepted := s.accepted + items)
    decreases |items|
  {
    var init, item := items[..|items| - 1], items[|items| - 1];
    var steps := Offers(items);
    assert steps[..|steps| - 1] == Offers(init) && steps[|steps| - 1] == Offer(item);
    assert items == init + [item];
    hide Enabled, Apply;
    if init == [] {
      assert RunFrom(cfg, s, Offers(init)) == Some(s);
      OfferWorks(cfg, s, item);
    } else {
      OffersFill(cfg, s, init);
      if RunFrom(cfg, s, Offers(init)).Some? {
        OfferWorks(cfg, RunFrom(cfg, s, Offers(init)).value, item);
        assert s.queue + init + [item] == s.queue + items && s.accepted + init + [item] == s.accepted + items;
      }
    }
  }

  /** From a new aggregator exactly `buffer` offers in a row are accepted. */
  lemma NewAccepts<T>(cfg: Config, workers: nat, now: int, items: seq<T>)
    ensures Run(cfg, workers, now, Offers(items)).Some? <==> |items| <= cfg.buffer
  {
    if items == [] {
      assert Offers(items) == [];
    } else {
      hide Enabled, Apply;
      OffersFill(cfg, Initial(workers, now), items);
    }
  }
}
