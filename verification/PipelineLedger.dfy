/** Where every batch of the pipeline is, told from the steps: what was handed over and with
    which outcome, what was pushed, and what left the list and how. */
module PipelineLedger {
  import opened Basics
  import opened MessageQueue
  import opened Pipeline
  import A = AggregatorSteps

  // ---------- pushes ----------

  /** How handing a batch over went: whether the push succeeded and whether it panicked. */
  datatype Outcome = Outcome(ok: bool, panicked: bool)

  /** The outcomes of all batches that sender `i` handed over, seen from its aggregator: a batch
      more has been processed, or items have been lost. */
  function Outcomes<T>(cfg: A.Config, n: nat, now: int, steps: seq<Step<T>>, i: nat): seq<Outcome>
    requires Run(cfg, n, now, steps).Some?
  {
    if steps == [] then []
    else
      var before, step := steps[..|steps| - 1], steps[|steps| - 1];
      var rest := Outcomes(cfg, n, now, before, i);
      var s, s' := Run(cfg, n, now, before).value, Run(cfg, n, now, steps).value;
      if !(step.Sender? && step.i == i && i < |s.senders| && i < |s'.senders|) then rest
      else if |s'.senders[i].processed| > |s.senders[i].processed| then rest + [Outcome(step.ok, false)]
      else if |s'.senders[i].lost| > |s.senders[i].lost| then rest + [Outcome(step.ok, true)]
      else rest
  }

  /** The batches whose push succeeded. */
  function Accepted<T>(batches: seq<seq<T>>, outcomes: seq<Outcome>): seq<seq<T>>
    requires |batches| == |outcomes|
  {
    if batches == [] then []
    else
      var rest := Accepted(batches[..|batches| - 1], outcomes[..|outcomes| - 1]);
      if outcomes[|outcomes| - 1].ok then rest + [batches[|batches| - 1]] else rest
  }

  lemma AcceptedMore<T>(batches: seq<seq<T>>, outcomes: seq<Outcome>, b: seq<T>, o: Outcome)
    requires |batches| == |outcomes|
    ensures Accepted(batches + [b], outcomes + [o]) ==
            if o.ok then Accepted(batches, outcomes) + [b] else Accepted(batches, outcomes)
  {
    assert (batches + [b])[..|batches|] == batches && (outcomes + [o])[..|outcomes|] == outcomes;
  }

  /** The batches on `bs` that the worker of sender `i` pushed itself. */
  function ByWorker<T>(bs: seq<Tagged<T>>, i: nat): seq<seq<T>> {
    if bs == [] then []
    else ByWorker(bs[..|bs| - 1], i) + if bs[|bs| - 1].who == Worker(i) then [bs[|bs| - 1].items] else []
  }

  lemma ByWorkerMore<T>(bs: seq<Tagged<T>>, b: Tagged<T>, i: nat)
    ensures ByWorker(bs + [b], i) == ByWorker(bs, i) + if b.who == Worker(i) then [b.items] else []
  {
    assert (bs + [b])[..|bs|] == bs;
  }

  /** What a step does to the batches handed over and pushed. */
  lemma PushStep<T>(cfg: A.Config, s: State<T>, step: Step<T>, i: nat)
    requires Enabled(cfg, s, step) && i < |s.senders|
    ensures var s' := Apply(cfg, s, step);
            && Shaped(s') && |s'.senders| == |s.senders|
            && (!(step.Sender? && step.i == i) ==>
                  s'.handed[i] == s.handed[i] && ByWorker(s'.pushed, i) == ByWorker(s.pushed, i)
                  && s'.senders[i] == s.senders[i])
            && (step.Sender? && step.i == i ==>
                  var k, k' := s.senders[i], s'.senders[i];
                  var more := |k'.processed| > |k.processed| || |k'.lost| > |k.lost|;
                  && (!more ==> s'.handed[i] == s.handed[i] && ByWorker(s'.pushed, i) == ByWorker(s.pushed, i))
                  && (more ==>
                        && |s'.handed[i]| == |s.handed[i]| + 1
                        && s'.handed[i] == s.handed[i] + [s'.handed[i][|s.handed[i]|]]
                        && ByWorker(s'.pushed, i) ==
                           ByWorker(s.pushed, i) + if step.ok then [s'.handed[i][|s.handed[i]|]] else []))
  {
    hide A.Apply, A.Enabled, ArraysAfter, Content, TrimMQ, ClearMQ, ByWorker;
    match step
    case Sender(j, a, ok) =>
      var h := HandedOver(s.senders[j], A.Apply(cfg, s.senders[j], a));
      if h != [] { ByWorkerMore(s.pushed, Tagged(Worker(j), h[0]), i); }
      assert ByWorker(s.pushed, i) + [] == ByWorker(s.pushed, i);
    case Resend(j, b, ok) =>
      ByWorkerMore(s.pushed, Tagged(Handler(j, b), s.retries[(j, b)].read.value), i);
      assert ByWorker(s.pushed, i) + [] == ByWorker(s.pushed, i);
    case _ =>
  }

  /** In every run the batches that the worker of a sender pushed are, in order, exactly the
      batches that it handed over with a push that succeeded. */
  lemma {:induction false} PushesAreHandOvers<T>(cfg: A.Config, n: nat, now: int, steps: seq<Step<T>>, i: nat)
    requires i < n && Run(cfg, n, now, steps).Some?
    ensures var s := Run(cfg, n, now, steps).value;
            && Shaped(s) && i < |s.senders| && |s.handed[i]| == |Outcomes(cfg, n, now, steps, i)|
            && ByWorker(s.pushed, i) == Accepted(s.handed[i], Outcomes(cfg, n, now, steps, i))
  {
    hide Enabled, Apply;
    if steps == [] {
    } else {
      var before, step := steps[..|steps| - 1], steps[|steps| - 1];
      PushesAreHandOvers(cfg, n, now, before, i);
      var s, s' := Run(cfg, n, now, before).value, Run(cfg, n, now, steps).value;
      PushStep(cfg, s, step, i);
      var os, os' := Outcomes(cfg, n, now, before, i), Outcomes(cfg, n, now, steps, i);
      hide Run, Shaped, ByWorker, Accepted;
      if os' != os {
        assert os' == os + [os'[|os|]] && os'[|os|].ok == step.ok;
        AcceptedMore(s.handed[i], os, s'.handed[i][|s.handed[i]|], os'[|os|]);
        assert ByWorker(s.pushed, i) + [] == ByWorker(s.pushed, i);
      }
    }
  }

  /** All pushes succeed and no error handler sends anything. */
  ghost predicate Smooth<T>(steps: seq<Step<T>>) {
    forall j :: 0 <= j < |steps| ==> (steps[j].Sender? ==> steps[j].ok) && !steps[j].Resend?
  }

  lemma SmoothStep<T>(cfg: A.Config, s: State<T>, step: Step<T>, i: nat)
    requires Enabled(cfg, s, step) && i < |s.senders| && (step.Sender? ==> step.ok) && !step.Resend?
    requires ItemsOf(s.pushed, i) == A.Flatten(s.handed[i])
    ensures var s' := Apply(cfg, s, step);
            Shaped(s') && |s'.senders| == |s.senders| && ItemsOf(s'.pushed, i) == A.Flatten(s'.handed[i])
  {
    hide A.Apply, A.Enabled, ArraysAfter, Content, TrimMQ, ClearMQ, ItemsOf, A.Flatten, HandedOver;
    if step.Sender? {
      var h := HandedOver(s.senders[step.i], A.Apply(cfg, s.senders[step.i], step.step));
      if h != [] {
        ItemsPush(s.pushed, Tagged(Worker(step.i), h[0]), i);
        A.FlattenAppend(s.handed[i], h[0]);
        assert ItemsOf(s.pushed, i) + [] == ItemsOf(s.pushed, i);
      }
    }
  }

  /** Then what a sender has pushed is exactly all that it handed over. */
  lemma {:induction false} SmoothPushesAll<T>(cfg: A.Config, n: nat, now: int, steps: seq<Step<T>>, i: nat)
    requires i < n && Run(cfg, n, now, steps).Some? && Smooth(steps)
    ensures var s := Run(cfg, n, now, steps).value;
            Shaped(s) && i < |s.senders| && ItemsOf(s.pushed, i) == A.Flatten(s.handed[i])
  {
    hide Enabled, Apply, ItemsOf, A.Flatten;
    if steps == [] {
      assert ItemsOf<T>([], i) == A.Flatten<T>([]) by { NoItems<T>(i); }
    } else {
      var before, step := steps[..|steps| - 1], steps[|steps| - 1];
      SmoothPushesAll(cfg, n, now, before, i);
      SmoothStep(cfg, Run(cfg, n, now, before).value, step, i);
    }
  }

  lemma NoItems<T>(i: nat)
    ensures ItemsOf<T>([], i) == [] && A.Flatten<T>([]) == []
  {
  }

  // ---------- retries ----------

  /** Whether an error handler for batch `b` of sender `i` has sent, or failed to send. */
  ghost predicate Resent<T>(steps: seq<Step<T>>, i: nat, b: nat) {
    exists j :: 0 <= j < |steps| && steps[j].Resend? && steps[j].i == i && steps[j].b == b
  }

  /** The step's effect on the retries of sender `i`. */
  lemma RetriesStep<T>(cfg: A.Config, s: State<T>, step: Step<T>, i: nat)
    requires Enabled(cfg, s, step) && i < |s.senders|
    ensures var s' := Apply(cfg, s, step);
            && Shaped(s') && |s'.senders| == |s.senders| && |s.handed[i]| <= |s'.handed[i]|
            && (forall b :: (i, b) in s.retries && !(step.Resend? && step.i == i && step.b == b) ==>
                  (i, b) in s'.retries)
            && (step.Sender? && step.i == i && !step.ok && |s'.senders[i].processed| > |s.senders[i].processed| ==>
                  (i, |s.handed[i]|) in s'.retries)
  {
    hide A.Apply, A.Enabled, ArraysAfter, Content, TrimMQ, ClearMQ;
    if step.Sender? {
      var k, k' := s.senders[step.i], A.Apply(cfg, s.senders[step.i], step.step);
      NotBoth(cfg, k, step.step);
      hide A.Apply;
    }
  }

  /** A step processes a batch or loses one, never both. */
  lemma NotBoth<T>(cfg: A.Config, k: A.State<T>, a: A.Step<T>)
    requires A.Enabled(cfg, k, a)
    ensures var k' := A.Apply(cfg, k, a); |k'.processed| > |k.processed| ==> k'.lost == k.lost
  {
  }

  /** In every run each batch whose push was refused, without a panic, has its error handler
      still at work or had it send. */
  lemma {:induction false} RefusedIsRetried<T>(cfg: A.Config, n: nat, now: int, steps: seq<Step<T>>, i: nat, b: nat)
    requires i < n && Run(cfg, n, now, steps).Some?
    requires b < |Outcomes(cfg, n, now, steps, i)| && Outcomes(cfg, n, now, steps, i)[b] == Outcome(false, false)
    ensures (i, b) in Run(cfg, n, now, steps).value.retries || Resent(steps, i, b)
  {
    hide Enabled, Apply;
    if steps == [] {
      assert false;
    } else {
      var before, step := steps[..|steps| - 1], steps[|steps| - 1];
      var s := Run(cfg, n, now, before).value;
      PushesAreHandOvers(cfg, n, now, before, i);
      RetriesStep(cfg, s, step, i);
      hide Run;
      if b < |Outcomes(cfg, n, now, before, i)| {
        RefusedIsRetried(cfg, n, now, before, i, b);
        if Resent(before, i, b) {
          var j :| 0 <= j < |before| && before[j].Resend? && before[j].i == i && before[j].b == b;
          assert steps[j] == before[j];
        } else if step.Resend? && step.i == i && step.b == b {
          assert steps[|steps| - 1] == step;
        }
      }
    }
  }

  /** An error handler that sends puts what it read at the end of the list, if it can, and is
      done. */
  lemma ResendPushes<T>(cfg: A.Config, s: State<T>, i: nat, b: nat, ok: bool)
    requires Enabled(cfg, s, Resend(i, b, ok))
    ensures var s' := Apply(cfg, s, Resend(i, b, ok));
            var sent := if ok then [Tagged(Handler(i, b), s.retries[(i, b)].read.value)] else [];
            s'.list == s.list + sent && s'.pushed == s.pushed + sent && s'.popped == s.popped && (i, b) !in s'.retries
  {
    hide A.Apply, A.Enabled;
  }

  // ---------- what leaves the list ----------

  /** A batch that left the list: popped by the receiver, or dropped by a trim or a clearing. */
  datatype Departure<T> = Departure(batch: Tagged<T>, popped: bool)

  function Drops<T>(bs: seq<Tagged<T>>): (r: seq<Departure<T>>)
    ensures |r| == |bs| && forall j :: 0 <= j < |r| ==> r[j] == Departure(bs[j], false)
  {
    seq(|bs|, j requires 0 <= j < |bs| => Departure(bs[j], false))
  }

  /** What a step makes leave `list`. A clearing drops everything, and a trim that succeeds
      drops all but the latest 500. */
  function Leaving<T>(list: seq<Tagged<T>>, step: Step<T>): seq<Departure<T>> {
    match step
    case Pop => if list == [] then [] else [Departure(list[0], true)]
    case Clear => Drops(list)
    case Trim(_, ok) => if ok && |list| > MQ_LEN_AFTER_TRIM then Drops(list[..|list| - MQ_LEN_AFTER_TRIM]) else []
    case _ => []
  }

  function Departures<T>(cfg: A.Config, n: nat, now: int, steps: seq<Step<T>>): seq<Departure<T>>
    requires Run(cfg, n, now, steps).Some?
  {
    if steps == [] then []
    else
      var before, step := steps[..|steps| - 1], steps[|steps| - 1];
      Departures(cfg, n, now, before) + Leaving(Run(cfg, n, now, before).value.list, step)
  }

  function BatchesOf<T>(ds: seq<Departure<T>>): (r: seq<Tagged<T>>)
    ensures |r| == |ds| && forall j :: 0 <= j < |r| ==> r[j] == ds[j].batch
  {
    seq(|ds|, j requires 0 <= j < |ds| => ds[j].batch)
  }

  function PoppedOf<T>(ds: seq<Departure<T>>): seq<Tagged<T>> {
    if ds == [] then []
    else PoppedOf(ds[..|ds| - 1]) + if ds[|ds| - 1].popped then [ds[|ds| - 1].batch] else []
  }

  lemma PoppedMore<T>(ds: seq<Departure<T>>, d: Departure<T>)
    ensures PoppedOf(ds + [d]) == PoppedOf(ds) + if d.popped then [d.batch] else []
  {
    assert (ds + [d])[..|ds|] == ds;
  }

  lemma {:induction false} PoppedDrops<T>(ds: seq<Departure<T>>, bs: seq<Tagged<T>>)
    ensures PoppedOf(ds + Drops(bs)) == PoppedOf(ds)
    decreases |bs|
  {
    if bs == [] {
      assert ds + Drops(bs) == ds;
    } else {
      var init, last := bs[..|bs| - 1], bs[|bs| - 1];
      PoppedDrops(ds, init);
      assert ds + Drops(bs) == ds + Drops(init) + [Departure(last, false)];
      hide PoppedOf;
      PoppedMore(ds + Drops(init), Departure(last, false));
      assert PoppedOf(ds) + [] == PoppedOf(ds);
    }
  }

  /** What the receiver, a clearing and a trim do to the list. */
  lemma ListShrinks<T>(cfg: A.Config, s: State<T>, step: Step<T>)
    requires Enabled(cfg, s, step) && (step.Pop? || step.Clear? || step.Trim?)
    ensures var s' := Apply(cfg, s, step);
            && s'.pushed == s.pushed
            && (step.Pop? ==> s.list != [] && s'.list == s.list[1..] && s'.popped == s.popped + [s.list[0]])
            && (step.Clear? ==> s'.list == [] && s'.popped == s.popped)
            && (step.Trim? ==>
                  && s'.popped == s.popped
                  && s'.list == if step.ok && |s.list| > MQ_LEN_AFTER_TRIM
                                then s.list[|s.list| - MQ_LEN_AFTER_TRIM..] else s.list)
  {
    TrimKeepsLatest(s.list, MQ_LEN_AFTER_TRIM);
    hide A.Apply, A.Enabled, TrimMQ, ClearMQ;
  }

  /** Every other step appends what it pushes, if anything. */
  lemma ListGrows<T>(cfg: A.Config, s: State<T>, step: Step<T>) returns (more: seq<Tagged<T>>)
    requires Enabled(cfg, s, step) && !step.Pop? && !step.Clear? && !step.Trim?
    ensures var s' := Apply(cfg, s, step);
            s'.popped == s.popped && s'.list == s.list + more && s'.pushed == s.pushed + more
  {
    hide A.Apply, A.Enabled, ArraysAfter, Content, HandedOver;
    more := [];
    assert s.list + more == s.list && s.pushed + more == s.pushed;
    if step.Sender? && step.ok {
      var h := HandedOver(s.senders[step.i], A.Apply(cfg, s.senders[step.i], step.step));
      if h != [] { more := [Tagged(Worker(step.i), h[0])]; }
    } else if step.Resend? && step.ok {
      more := [Tagged(Handler(step.i, step.b), s.retries[(step.i, step.b)].read.value)];
    }
  }

  ghost predicate Departed<T>(s: State<T>, ds: seq<Departure<T>>) {
    s.pushed == BatchesOf(ds) + s.list && s.popped == PoppedOf(ds)
  }

  lemma PopDeparts<T>(s: State<T>, ds: seq<Departure<T>>)
    requires Departed(s, ds) && s.list != []
    ensures var ds' := ds + [Departure(s.list[0], true)];
            s.pushed == BatchesOf(ds') + s.list[1..] && s.popped + [s.list[0]] == PoppedOf(ds')
  {
    PoppedMore(ds, Departure(s.list[0], true));
    assert BatchesOf(ds + [Departure(s.list[0], true)]) == BatchesOf(ds) + [s.list[0]];
    assert s.list == [s.list[0]] + s.list[1..];
  }

  lemma DropDeparts<T>(s: State<T>, ds: seq<Departure<T>>, k: nat)
    requires Departed(s, ds) && k <= |s.list|
    ensures var ds' := ds + Drops(s.list[..k]);
            s.pushed == BatchesOf(ds') + s.list[k..] && s.popped == PoppedOf(ds')
  {
    PoppedDrops(ds, s.list[..k]);
    assert BatchesOf(ds + Drops(s.list[..k])) == BatchesOf(ds) + s.list[..k];
    assert s.list == s.list[..k] + s.list[k..];
  }

  lemma DepartStep<T>(cfg: A.Config, s: State<T>, step: Step<T>, ds: seq<Departure<T>>)
    requires Enabled(cfg, s, step) && Departed(s, ds)
    ensures Departed(Apply(cfg, s, step), ds + Leaving(s.list, step))
  {
    hide Enabled, Apply, PoppedOf;
    assert ds + [] == ds;
    if step.Pop? || step.Clear? || step.Trim? {
      ListShrinks(cfg, s, step);
      if step.Pop? {
        PopDeparts(s, ds);
      } else if step.Clear? {
        DropDeparts(s, ds, |s.list|);
        assert s.list[..|s.list|] == s.list && s.list[|s.list|..] == [];
      } else if step.ok && |s.list| > MQ_LEN_AFTER_TRIM {
        DropDeparts(s, ds, |s.list| - MQ_LEN_AFTER_TRIM);
      }
    } else {
      var more := ListGrows(cfg, s, step);
      Associates(BatchesOf(ds), s.list, more);
    }
  }

  /** In every run what was pushed is what has left the list, in order, followed by the list;
      the popped batches are those that left by a pop; and only clearings, and trims of a list
      of more than 500, make batches leave in any other way. */
  lemma {:induction false} AllDepart<T>(cfg: A.Config, n: nat, now: int, steps: seq<Step<T>>)
    requires Run(cfg, n, now, steps).Some?
    ensures Departed(Run(cfg, n, now, steps).value, Departures(cfg, n, now, steps))
  {
    hide Enabled, Apply, Leaving;
    if steps == [] {
    } else {
      hide Departed;
      var before := steps[..|steps| - 1];
      AllDepart(cfg, n, now, before);
      DepartStep(cfg, Run(cfg, n, now, before).value, steps[|steps| - 1], Departures(cfg, n, now, before));
    }
  }

  /** Without clearings and trims nothing gets lost between push and pop. */
  lemma {:induction false} NothingDropped<T>(cfg: A.Config, n: nat, now: int, steps: seq<Step<T>>)
    requires Run(cfg, n, now, steps).Some?
    requires forall j :: 0 <= j < |steps| ==> !steps[j].Clear? && !(steps[j].Trim? && steps[j].ok)
    ensures var s := Run(cfg, n, now, steps).value; s.popped + s.list == s.pushed
  {
    hide Enabled, Apply;
    if steps == [] {
    } else {
      var before, step := steps[..|steps| - 1], steps[|steps| - 1];
      NothingDropped(cfg, n, now, before);
      var s := Run(cfg, n, now, before).value;
      hide Run;
      if step.Pop? || step.Trim? {
        ListShrinks(cfg, s, step);
        if step.Pop? {
          assert s.list == [s.list[0]] + s.list[1..];
          Associates(s.popped, [s.list[0]], s.list[1..]);
        }
      } else {
        var more := ListGrows(cfg, s, step);
        Associates(s.popped, s.list, more);
      }
    }
  }

  /** Whoever is to trim has pushed onto a list that then had more than 1000 batches. */
  lemma {:induction false} TrimsAfterLongPush<T>(cfg: A.Config, n: nat, now: int, steps: seq<Step<T>>, who: Pusher)
    returns (j: nat)
    requires Run(cfg, n, now, steps).Some? && who in Run(cfg, n, now, steps).value.trimming
    ensures 0 < j <= |steps| && Run(cfg, n, now, steps[..j]).Some?
    ensures var s := Run(cfg, n, now, steps[..j]).value;
            |s.list| > MQ_MAX_LEN && s.list[|s.list| - 1].who == who && who in s.trimming
  {
    hide Enabled, Apply, Run;
    TrimmingLater(cfg, n, now, steps, who);
    LastStep(cfg, n, now, steps);
    var before, step := steps[..|steps| - 1], steps[|steps| - 1];
    var s := Run(cfg, n, now, before).value;
    TrimmingStep(cfg, s, step, who);
    if who in s.trimming {
      j := TrimsAfterLongPush(cfg, n, now, before, who);
      assert before[..j] == steps[..j];
    } else {
      j := |steps|;
      assert steps[..j] == steps;
    }
  }

  lemma TrimmingLater<T>(cfg: A.Config, n: nat, now: int, steps: seq<Step<T>>, who: Pusher)
    requires Run(cfg, n, now, steps).Some? && who in Run(cfg, n, now, steps).value.trimming
    ensures steps != []
  {
  }

  lemma LastStep<T>(cfg: A.Config, n: nat, now: int, steps: seq<Step<T>>)
    requires Run(cfg, n, now, steps).Some? && steps != []
    ensures var before, step := Run(cfg, n, now, steps[..|steps| - 1]), steps[|steps| - 1];
            && before.Some? && Enabled(cfg, before.value, step)
            && Run(cfg, n, now, steps) == Some(Apply(cfg, before.value, step))
  {
    hide Enabled, Apply;
  }

  lemma TrimmingStep<T>(cfg: A.Config, s: State<T>, step: Step<T>, who: Pusher)
    requires Enabled(cfg, s, step) && who in Apply(cfg, s, step).trimming
    ensures var s' := Apply(cfg, s, step);
            who in s.trimming || (|s'.list| > MQ_MAX_LEN && s'.list[|s'.list| - 1].who == who)
  {
    hide A.Apply, A.Enabled, ArraysAfter, Content, TrimMQ, ClearMQ, HandedOver;
  }

  // ---------- what is always possible ----------

  lemma RunMore<T>(cfg: A.Config, n: nat, now: int, steps: seq<Step<T>>, step: Step<T>)
    requires Run(cfg, n, now, steps).Some? && Enabled(cfg, Run(cfg, n, now, steps).value, step)
    ensures Run(cfg, n, now, steps + [step]) == Some(Apply(cfg, Run(cfg, n, now, steps).value, step))
  {
    hide Enabled, Apply;
    assert (steps + [step])[..|steps|] == steps;
  }

  lemma {:induction false} RunShaped<T>(cfg: A.Config, n: nat, now: int, steps: seq<Step<T>>)
    requires Run(cfg, n, now, steps).Some?
    ensures Shaped(Run(cfg, n, now, steps).value) && |Run(cfg, n, now, steps).value.senders| == n
  {
    if steps == [] {
    } else {
      hide Enabled, Apply;
      var before := steps[..|steps| - 1];
      RunShaped(cfg, n, now, before);
      ShapeStep(cfg, Run(cfg, n, now, before).value, steps[|steps| - 1]);
    }
  }

  lemma ShapeStep<T>(cfg: A.Config, s: State<T>, step: Step<T>)
    requires Enabled(cfg, s, step)
    ensures Shaped(Apply(cfg, s, step)) && |Apply(cfg, s, step).senders| == |s.senders|
  {
    hide A.Apply, A.Enabled, ArraysAfter, Content, TrimMQ, ClearMQ, HandedOver;
  }

  lemma NextSlice<T>(l: seq<T>, k: nat)
    requires k < |l|
    ensures l[..k + 1] == l[..k] + [l[k]] && l[k..][1..] == l[k + 1..] && l[k..][0] == l[k]
  {
  }

  function Pops<T>(k: nat): seq<Step<T>> { if k == 0 then [] else Pops(k - 1) + [Pop] }

  lemma PopWorks<T>(cfg: A.Config, s: State<T>)
    requires Shaped(s) && s.list != []
    ensures Enabled(cfg, s, Pop)
    ensures Apply(cfg, s, Pop) == s.(popped := s.popped + [s.list[0]], list := s.list[1..])
  {
  }

  /** From every reachable state the receiver can take the list out, batch by batch, in order. */
  lemma {:induction false} CanDeliver<T>(cfg: A.Config, n: nat, now: int, steps: seq<Step<T>>, k: nat)
    requires Run(cfg, n, now, steps).Some? && k <= |Run(cfg, n, now, steps).value.list|
    ensures var s, r := Run(cfg, n, now, steps).value, Run(cfg, n, now, steps + Pops(k));
            r == Some(Popped(s, k))
  {
    hide Run, Enabled, Apply, Shaped, Popped;
    var s := Run(cfg, n, now, steps).value;
    if k == 0 {
      assert steps + Pops(0) == steps;
      PoppedNone(s);
    } else {
      CanDeliver(cfg, n, now, steps, k - 1);
      var mid := steps + Pops<T>(k - 1);
      RunShaped(cfg, n, now, mid);
      PopNext(cfg, s, k - 1);
      RunMore(cfg, n, now, mid, Pop);
      Associates(steps, Pops(k - 1), [Pop]);
    }
  }

  /** The state after the first `k` batches of the list have been popped. */
  function Popped<T>(s: State<T>, k: nat): State<T>
    requires k <= |s.list|
  {
    s.(popped := s.popped + s.list[..k], list := s.list[k..])
  }

  lemma PoppedNone<T>(s: State<T>)
    ensures Popped(s, 0) == s
  {
  }

  lemma PopNext<T>(cfg: A.Config, s: State<T>, k: nat)
    requires k < |s.list| && Shaped(Popped(s, k))
    ensures Enabled(cfg, Popped(s, k), Pop) && Apply(cfg, Popped(s, k), Pop) == Popped(s, k + 1)
  {
    PopWorks(cfg, Popped(s, k));
    NextSlice(s.list, k);
    Associates(s.popped, s.list[..k], [s.list[k]]);
    hide Enabled, Apply, Shaped;
  }

  /** A pusher that is to trim can do so. */
  lemma TrimWorks<T>(cfg: A.Config, s: State<T>, who: Pusher)
    requires Shaped(s) && who in s.trimming
    ensures Enabled(cfg, s, Trim(who, true))
    ensures var s' := Apply(cfg, s, Trim(who, true));
            && who !in s'.trimming && s'.senders == s.senders && s'.retries == s.retries && s'.handed == s.handed
  {
    hide TrimMQ;
  }

  /** The pipeline never blocks a sender: whatever its aggregator could do alone, with either
      outcome of the push, it can do here, after the trim it may still have to make. */
  lemma SenderNotBlocked<T>(cfg: A.Config, n: nat, now: int, steps: seq<Step<T>>, i: nat, a: A.Step<T>, ok: bool)
    returns (first: seq<Step<T>>)
    requires i < n && Run(cfg, n, now, steps).Some? && i < |Run(cfg, n, now, steps).value.senders|
    requires A.Enabled(cfg, Run(cfg, n, now, steps).value.senders[i], a)
    ensures first == if Worker(i) in Run(cfg, n, now, steps).value.trimming then [Trim(Worker(i), true)] else []
    ensures Run(cfg, n, now, steps + first + [Sender(i, a, ok)]).Some?
  {
    RunShaped(cfg, n, now, steps);
    var s := Run(cfg, n, now, steps).value;
    hide Run, A.Apply, A.Enabled;
    if Worker(i) in s.trimming {
      first := [Trim(Worker(i), true)];
      TrimWorks(cfg, s, Worker(i));
      RunMore(cfg, n, now, steps, first[0]);
      ShapeStep(cfg, s, first[0]);
      hide Apply;
      RunMore(cfg, n, now, steps + first, Sender(i, a, ok));
    } else {
      first := [];
      assert steps + first == steps;
      RunMore(cfg, n, now, steps, Sender(i, a, ok));
    }
  }

  /** Nor an error handler: it can read, and then send. */
  lemma RetryNotBlocked<T>(cfg: A.Config, s: State<T>, i: nat, b: nat)
    requires Shaped(s) && i < |s.senders| && b < |s.handed[i]| && (i, b) in s.retries
    ensures s.retries[(i, b)].read.None? ==>
              && Enabled(cfg, s, Read(i, b))
              && Apply(cfg, s, Read(i, b)) ==
                 s.(retries := s.retries[(i, b) := s.retries[(i, b)].(read := Some(Content(s, i, b)))])
    ensures s.retries[(i, b)].read.Some? && Handler(i, b) !in s.trimming ==> Enabled(cfg, s, Resend(i, b, true))
  {
  }

  // ---------- the workers' arrays ----------

  function PanicsIn(outcomes: seq<Outcome>): nat {
    if outcomes == [] then 0
    else PanicsIn(outcomes[..|outcomes| - 1]) + if outcomes[|outcomes| - 1].panicked then 1 else 0
  }

  /** What a step does to the arrays of sender `i`: only the current one is written to, and a
      worker that panicked gets a new one. */
  lemma ArraysStep<T>(cfg: A.Config, s: State<T>, step: Step<T>, i: nat)
    requires Enabled(cfg, s, step) && i < |s.senders|
    ensures var s' := Apply(cfg, s, step);
            && Shaped(s') && |s'.senders| == |s.senders|
            && var more := step.Sender? && step.i == i && |s'.senders[i].lost| > |s.senders[i].lost|;
               && |s'.arrays[i]| == |s.arrays[i]| + (if more then 1 else 0)
               && (forall g :: 0 <= g < |s.arrays[i]| - 1 ==> s'.arrays[i][g] == s.arrays[i][g])
               && (!(step.Sender? && step.i == i) ==> s'.arrays[i] == s.arrays[i])
  {
    ShapeStep(cfg, s, step);
    if step.Sender? && step.i == i {
      ArraysMore(s.arrays[i], s.senders[i], step.step, A.Apply(cfg, s.senders[i], step.step));
    }
    hide A.Apply, A.Enabled, Content, TrimMQ, ClearMQ, HandedOver, ArraysAfter, Shaped;
  }

  lemma ArraysMore<T>(arrays: seq<seq<T>>, k: A.State<T>, a: A.Step<T>, k': A.State<T>)
    requires arrays != [] && |k.workers| == 1
    ensures var r := ArraysAfter(arrays, k, a, k');
            && |r| == |arrays| + (if |k'.lost| > |k.lost| then 1 else 0)
            && forall g :: 0 <= g < |arrays| - 1 ==> r[g] == arrays[g]
  {
    hide Write;
  }

  /** In every run a sender has had one array for each panic, and the current one. */
  lemma {:induction false} OneArrayPerPanic<T>(cfg: A.Config, n: nat, now: int, steps: seq<Step<T>>, i: nat)
    requires i < n && Run(cfg, n, now, steps).Some?
    ensures var s := Run(cfg, n, now, steps).value;
            Shaped(s) && i < |s.senders| && |s.arrays[i]| == 1 + PanicsIn(Outcomes(cfg, n, now, steps, i))
  {
    hide Enabled, Apply;
    if steps == [] {
    } else {
      var before, step := steps[..|steps| - 1], steps[|steps| - 1];
      OneArrayPerPanic(cfg, n, now, before, i);
      var s, s' := Run(cfg, n, now, before).value, Run(cfg, n, now, steps).value;
      ArraysStep(cfg, s, step, i);
      LossStep(cfg, s, step, i);
      var os, os' := Outcomes(cfg, n, now, before, i), Outcomes(cfg, n, now, steps, i);
      hide Run, Shaped;
      if os' != os {
        assert os'[..|os'| - 1] == os;
      }
    }
  }

  lemma LossStep<T>(cfg: A.Config, s: State<T>, step: Step<T>, i: nat)
    requires Enabled(cfg, s, step) && i < |s.senders|
    ensures var s' := Apply(cfg, s, step);
            && i < |s'.senders|
            && (|s'.senders[i].processed| > |s.senders[i].processed| ==> s'.senders[i].lost == s.senders[i].lost)
  {
    ShapeStep(cfg, s, step);
    if step.Sender? { NotBoth(cfg, s.senders[step.i], step.step); }
    hide A.Apply, A.Enabled, ArraysAfter, Content, TrimMQ, ClearMQ, HandedOver;
  }

  /** An array that is no longer current is never written to again, so a retry that was given it
      reads what it held when the worker panicked. */
  lemma {:induction false} OldArraysFrozen<T>(cfg: A.Config, n: nat, now: int, steps: seq<Step<T>>,
                                              j: nat, i: nat, g: nat)
    requires i < n && Run(cfg, n, now, steps).Some? && j <= |steps| && Run(cfg, n, now, steps[..j]).Some?
    requires var s := Run(cfg, n, now, steps[..j]).value; i < |s.arrays| && g + 1 < |s.arrays[i]|
    ensures var s, s' := Run(cfg, n, now, steps[..j]).value, Run(cfg, n, now, steps).value;
            i < |s'.arrays| && |s.arrays[i]| <= |s'.arrays[i]| && s'.arrays[i][g] == s.arrays[i][g]
  {
    if j == |steps| {
      assert steps[..j] == steps;
    } else {
      var before := steps[..|steps| - 1];
      LastStep(cfg, n, now, steps);
      hide Run, Enabled, Apply;
      assert before[..j] == steps[..j];
      OldArraysFrozen(cfg, n, now, before, j, i, g);
      RunShaped(cfg, n, now, before);
      ArraysStep(cfg, Run(cfg, n, now, before).value, steps[|steps| - 1], i);
    }
  }
}
