/** Replacing dead nodes. Get looks a node up outside the lock, so several callers can enter
    Destroy of the same dead node; at most one of them comes back and removes it. */
module NodeRemoval {
  import opened Basics
  import opened NodeRegistry

  // ---------- what every run keeps ----------

  /** The callers inside Destroy of a node. */
  ghost function Stoppers(h: Hub, id: nat): set<nat> {
    set c | c in h.callers && h.callers[c].Stopping? && h.callers[c].id == id
  }

  /** The callers that have come back from Destroy of a node and are to remove it. */
  ghost function Removers(h: Hub, id: nat): set<nat> {
    set c | c in h.callers && h.callers[c].Removing? && h.callers[c].id == id
  }

  function One(b: bool): nat { if b then 1 else 0 }

  /** A node is registered until it is removed; the caller that closed its channel, and no
      other, is about to remove it or has done so; and every caller that entered Destroy is
      still there, was the one to close the channel, or panicked on the closed one. */
  ghost predicate Balanced(n: Node, registered: bool, stoppers: nat, removers: nat) {
    && (registered <==> n.removed == 0)
    && n.removed + removers == One(n.closed)
    && n.destroyed == stoppers + One(n.closed) + n.panics
    && (n.panics > 0 ==> n.closed)
  }

  ghost predicate Owned(h: Hub, id: nat)
    requires id < |h.all|
  {
    var n := h.all[id];
    Balanced(n, Registered(h, n.addr) == Some(id), |Stoppers(h, id)|, |Removers(h, id)|)
  }

  ghost predicate AllOwned(h: Hub) {
    forall id :: 0 <= id < |h.all| ==> Owned(h, id)
  }

  /** Caller `c` has to do with Destroy of node `id`. */
  ghost predicate On(h: Hub, c: nat, id: nat) {
    c in h.callers && !h.callers[c].Looked? && h.callers[c].id == id
  }

  /** Only caller `c` may have changed. */
  ghost predicate OnlyCaller(h: Hub, h': Hub, c: nat) {
    forall x :: x != c ==> (x in h.callers <==> x in h'.callers) && (x in h.callers ==> h.callers[x] == h'.callers[x])
  }

  /** Whether a node is registered, and what happened to it so far, is the same. */
  ghost predicate SameFate(h: Hub, h': Hub, id: nat)
    requires id < |h.all|
  {
    id < |h'.all| && var n, n' := h.all[id], h'.all[id];
    && n'.addr == n.addr && n'.closed == n.closed && n'.destroyed == n.destroyed
    && n'.panics == n.panics && n'.removed == n.removed
    && (Registered(h', n.addr) == Some(id) <==> Registered(h, n.addr) == Some(id))
  }

  lemma SameCallers(h: Hub, h': Hub, c: nat, id: nat)
    requires OnlyCaller(h, h', c) && !On(h, c, id) && !On(h', c, id)
    ensures Stoppers(h', id) == Stoppers(h, id) && Removers(h', id) == Removers(h, id)
  {
  }

  /** A node that a step does not concern. */
  lemma OwnedStays(h: Hub, h': Hub, c: nat, id: nat)
    requires id < |h.all| && Owned(h, id) && SameFate(h, h', id)
    requires OnlyCaller(h, h', c) && !On(h, c, id) && !On(h', c, id)
    ensures Owned(h', id)
  {
    SameCallers(h, h', c, id);
    hide Stoppers, Removers, OnlyCaller, On;
  }

  /** All nodes but the one, if any, that caller `c` works on. */
  lemma OthersStay(h: Hub, h': Hub, c: nat, mine: nat)
    requires AllOwned(h) && OnlyCaller(h, h', c) && |h.all| <= |h'.all|
    requires forall id :: 0 <= id < |h.all| && id != mine ==> SameFate(h, h', id) && !On(h, c, id) && !On(h', c, id)
    ensures forall id :: 0 <= id < |h.all| && id != mine ==> Owned(h', id)
  {
    hide Owned, OnlyCaller, On;
    forall id | 0 <= id < |h.all| && id != mine
      ensures Owned(h', id)
    {
      OwnedStays(h, h', c, id);
    }
  }

  // One lemma for each step.

  /** Look-ups and callers that leave Get with a node. */
  lemma QuietOwned(h: Hub, c: nat, h': Hub)
    requires AllOwned(h) && h'.all == h.all && h'.nodes == h.nodes && OnlyCaller(h, h', c)
    requires (c in h.callers ==> h.callers[c].Looked?) && (c in h'.callers ==> h'.callers[c].Looked?)
    ensures AllOwned(h')
  {
    hide Owned, OnlyCaller;
    OthersStay(h, h', c, |h.all|);
  }

  lemma CreateOwned(h: Hub, c: nat)
    requires Inv(h) && AllOwned(h) && Enabled(h, Decide(c)) && h.callers[c].node.None? && h.callers[c].addr !in h.nodes
    ensures AllOwned(Decided(h, c))
  {
    var h', mine := Decided(h, c), |h.all|;
    InvKnows(h);
    forall x | x in h.callers
      ensures !On(h, x, mine)
    {
      assert Known(h, h.callers[x]);
    }
    assert Stoppers(h', mine) == {} && Removers(h', mine) == {};
    assert OnlyCaller(h, h', c);
    hide Inv, Heartbeat, OnlyCaller, Stoppers, Removers, Known;
    OthersStay(h, h', c, mine);
    assert Owned(h', mine);
    hide Owned;
  }

  lemma DestroyOwned(h: Hub, c: nat)
    requires AllOwned(h) && Enabled(h, Decide(c)) && h.callers[c].node.Some? && h.all[h.callers[c].node.value].isDead
    ensures AllOwned(Decided(h, c))
  {
    var h', mine := Decided(h, c), h.callers[c].node.value;
    assert Stoppers(h', mine) == Stoppers(h, mine) + {c} && c !in Stoppers(h, mine);
    assert Removers(h', mine) == Removers(h, mine);
    assert OnlyCaller(h, h', c);
    hide OnlyCaller, Stoppers, Removers;
    OthersStay(h, h', c, mine);
    assert Owned(h, mine) && Owned(h', mine);
    hide Owned;
  }

  /** The first caller to close the channel comes back. */
  lemma CloseOwned(h: Hub, c: nat)
    requires AllOwned(h) && Enabled(h, Close(c)) && !h.all[h.callers[c].id].closed
    ensures AllOwned(Closed(h, c))
  {
    var h', mine := Closed(h, c), h.callers[c].id;
    assert Stoppers(h', mine) == Stoppers(h, mine) - {c} && c in Stoppers(h, mine);
    assert Removers(h', mine) == Removers(h, mine) + {c} && c !in Removers(h, mine);
    assert OnlyCaller(h, h', c);
    hide OnlyCaller, Stoppers, Removers;
    OthersStay(h, h', c, mine);
    assert Owned(h, mine) && Owned(h', mine);
    hide Owned;
  }

  /** Every later one panics. */
  lemma PanicOwned(h: Hub, c: nat)
    requires AllOwned(h) && Enabled(h, Close(c)) && h.all[h.callers[c].id].closed
    ensures AllOwned(Closed(h, c))
  {
    var h', mine := Closed(h, c), h.callers[c].id;
    assert Stoppers(h', mine) == Stoppers(h, mine) - {c} && c in Stoppers(h, mine);
    assert Removers(h', mine) == Removers(h, mine);
    assert OnlyCaller(h, h', c);
    hide OnlyCaller, Stoppers, Removers;
    OthersStay(h, h', c, mine);
    assert Owned(h, mine) && Owned(h', mine);
    hide Owned;
  }

  /** The node of a caller that is to remove it is registered. */
  lemma RemoverOwns(h: Hub, c: nat)
    requires AllOwned(h) && Enabled(h, Remove(c))
    ensures var id := h.callers[c].id; Registered(h, h.all[id].addr) == Some(id) && Removers(h, id) == {c}
  {
    var id := h.callers[c].id;
    assert Owned(h, id) && c in Removers(h, id);
    hide Stoppers;
    assert |Removers(h, id) - {c}| == 0;
  }

  lemma RemoveOwned(h: Hub, c: nat)
    requires AllOwned(h) && Enabled(h, Remove(c))
    ensures AllOwned(Apply(h, Remove(c)))
  {
    var h', mine := Apply(h, Remove(c)), h.callers[c].id;
    RemoverOwns(h, c);
    assert Stoppers(h', mine) == Stoppers(h, mine) && Removers(h', mine) == {};
    assert OnlyCaller(h, h', c);
    hide OnlyCaller, Stoppers, Removers;
    OthersStay(h, h', c, mine);
    assert Owned(h, mine) && Owned(h', mine);
    hide Owned;
  }

  /** The heartbeat concerns neither registration nor callers. */
  lemma HeartbeatOwned(h: Hub, id: nat, n': Node)
    requires AllOwned(h) && id < |h.all|
    requires var n := h.all[id];
             && n'.addr == n.addr && n'.closed == n.closed && n'.destroyed == n.destroyed
             && n'.panics == n.panics && n'.removed == n.removed
    ensures AllOwned(h.(all := h.all[id := n']))
  {
    var h' := h.(all := h.all[id := n']);
    forall i | 0 <= i < |h'.all|
      ensures Owned(h', i)
    {
      assert Owned(h, i);
      assert Stoppers(h', i) == Stoppers(h, i) && Removers(h', i) == Removers(h, i);
      hide Stoppers, Removers;
    }
  }

  lemma StepOwned(h: Hub, step: Step)
    requires Inv(h) && AllOwned(h) && Enabled(h, step)
    ensures AllOwned(Apply(h, step))
  {
    hide AllOwned, Inv;
    match step
    case Look(c, addr) => QuietOwned(h, c, Apply(h, step));
    case Decide(c) =>
      if h.callers[c].node.None? && h.callers[c].addr !in h.nodes {
        CreateOwned(h, c);
      } else if h.callers[c].node.Some? && h.all[h.callers[c].node.value].isDead {
        DestroyOwned(h, c);
      } else {
        QuietOwned(h, c, Apply(h, step));
      }
    case Close(c) =>
      if h.all[h.callers[c].id].closed {
        PanicOwned(h, c);
      } else {
        CloseOwned(h, c);
      }
    case Remove(c) => RemoveOwned(h, c);
    case TestStep(id) => HeartbeatOwned(h, id, Test(h.all[id]));
    case ProbeStep(id, p) => HeartbeatOwned(h, id, Answer(h.all[id], p));
  }

  /** In every run, however the callers interleave. */
  lemma {:induction false} RunOwned(steps: seq<Step>)
    requires Run(steps).Some?
    ensures Inv(Run(steps).value) && AllOwned(Run(steps).value)
  {
    RegistryInv(steps);
    if steps == [] {
    } else {
      hide Inv, AllOwned, Enabled, Apply;
      RunOwned(steps[..|steps| - 1]);
      StepOwned(Run(steps[..|steps| - 1]).value, steps[|steps| - 1]);
    }
  }

  /** A node is registered under its address exactly until it is removed, which happens at most
      once; a caller that removes takes its own node out and no other; and of all callers that
      enter Destroy of a node at most one comes back: the others panic or stay inside. */
  lemma RemovedOnce(steps: seq<Step>, id: nat)
    requires Run(steps).Some? && id < |Run(steps).value.all|
    ensures var h := Run(steps).value; var n := h.all[id];
            && (Registered(h, n.addr) == Some(id) <==> n.removed == 0)
            && n.removed + |Removers(h, id)| <= 1
            && n.destroyed == |Stoppers(h, id)| + n.panics + n.removed + |Removers(h, id)|
            && forall c :: c in Removers(h, id) ==>
                 && Enabled(h, Remove(c))
                 && Apply(h, Remove(c)).nodes == h.nodes - {n.addr} && Registered(h, n.addr) == Some(id)
  {
    RunOwned(steps);
    var h := Run(steps).value;
    assert Owned(h, id);
    hide Run, Inv;
    forall c | c in Removers(h, id)
      ensures Registered(h, h.all[id].addr) == Some(id)
    {
      RemoverOwns(h, c);
    }
  }

  /** In every run Get returns a registered node: one that is not dead, or one that another
      caller registered after the look-up. A dead one is removed by the caller that comes back
      from its Destroy, which makes room for a new one. */
  lemma GetReplacesDead(steps: seq<Step>, c: nat)
    requires Run(steps).Some?
    ensures var h := Run(steps).value;
            && (Enabled(h, Decide(c)) && Found(h, c).Some? ==>
                  var id, addr, h' := Found(h, c).value, h.callers[c].addr, Apply(h, Decide(c));
                  && id < |h'.all| && Registered(h', addr) == Some(id)
                  && (!h'.all[id].isDead || (h.callers[c].node.None? && addr in h.nodes)))
            && (Enabled(h, Remove(c)) ==>
                  var id, addr := h.callers[c].id, h.callers[c].addr;
                  Registered(h, addr) == Some(id) && Registered(Apply(h, Remove(c)), addr) == None)
  {
    RunOwned(steps);
    var h := Run(steps).value;
    hide Run;
    InvKnows(h);
    if Enabled(h, Decide(c)) && h.callers[c].node.Some? {
      assert Known(h, h.callers[c]);
      StaysRegistered(h, h.callers[c].node.value);
    }
    if Enabled(h, Remove(c)) {
      assert Known(h, h.callers[c]);
      RemoverOwns(h, c);
    }
    hide Heartbeat, AllOwned;
  }

  /** A node that is not dead is registered. */
  lemma StaysRegistered(h: Hub, id: nat)
    requires Inv(h) && AllOwned(h) && id < |h.all|
    ensures !h.all[id].isDead ==> Registered(h, h.all[id].addr) == Some(id)
  {
    InvKnows(h);
    assert Owned(h, id);
    hide Inv, Stoppers, Removers;
  }

  // ---------- entered once ----------

  /** The caller is about to enter Destroy of a node that another one has begun to remove: its
      node is dead, and no longer registered or already on its way out. */
  ghost predicate Stale(h: Hub, step: Step)
    requires Enabled(h, step)
  {
    step.Decide? && var phase := h.callers[step.c];
    phase.node.Some? && h.all[phase.node.value].isDead
    && (Registered(h, phase.addr) != phase.node || exists x :: On(h, x, phase.node.value))
  }

  /** No step of the run is stale. */
  ghost predicate Fair(steps: seq<Step>)
    requires Run(steps).Some?
  {
    steps == [] ||
    (Fair(steps[..|steps| - 1]) && !Stale(Run(steps[..|steps| - 1]).value, steps[|steps| - 1]))
  }

  /** Destroy of a node has not been entered exactly while it is registered and nobody is on
      the way to remove it. */
  lemma Untouched(h: Hub, id: nat)
    requires AllOwned(h) && id < |h.all|
    ensures h.all[id].destroyed == 0 <==> Registered(h, h.all[id].addr) == Some(id) && !exists x :: On(h, x, id)
  {
    assert Owned(h, id);
    assert forall x :: x in Stoppers(h, id) || x in Removers(h, id) <==> On(h, x, id);
    hide Stoppers, Removers, On;
    if Stoppers(h, id) == {} && Removers(h, id) == {} {
      assert !exists x :: On(h, x, id);
    } else {
      var x :| x in Stoppers(h, id) || x in Removers(h, id);
      assert On(h, x, id);
    }
  }

  ghost predicate Once(h: Hub) {
    forall id :: 0 <= id < |h.all| ==> h.all[id].destroyed <= 1
  }

  /** How often Destroy has been entered changes only by a decision on a dead node. */
  lemma EnteredStep(h: Hub, step: Step, id: nat)
    requires Enabled(h, step) && id < |h.all|
    ensures var n, n' := h.all[id], Apply(h, step).all[id];
            if step.Decide? && h.callers[step.c].node == Some(id) && n.isDead then n'.destroyed == n.destroyed + 1
            else n'.destroyed == n.destroyed
    ensures forall i :: |h.all| <= i < |Apply(h, step).all| ==> Apply(h, step).all[i].destroyed == 0
  {
  }

  lemma StepOnce(h: Hub, step: Step)
    requires Inv(h) && AllOwned(h) && Enabled(h, step)
    ensures Once(h) && !Stale(h, step) ==> Once(Apply(h, step))
    ensures !Once(h) || Stale(h, step) ==> !Once(Apply(h, step))
  {
    var h' := Apply(h, step);
    InvKnows(h);
    forall id | 0 <= id < |h.all|
      ensures id < |h'.all| && h.all[id].destroyed <= h'.all[id].destroyed
      ensures !Stale(h, step) && h.all[id].destroyed <= 1 ==> h'.all[id].destroyed <= 1
      ensures Stale(h, step) && h.callers[step.c].node == Some(id) ==> h'.all[id].destroyed >= 2
    {
      StepForward(h, step, id);
      EnteredStep(h, step, id);
      Untouched(h, id);
      if step.Decide? && h.callers[step.c].node == Some(id) {
        assert Known(h, h.callers[step.c]);
      }
      hide Apply, AllOwned, Inv, Heartbeat, On;
    }
    forall id | |h.all| <= id < |h'.all|
      ensures h'.all[id].destroyed == 0
    {
      hide Inv, AllOwned;
      EnteredNew(h, step, id);
    }
    hide Apply, AllOwned, Inv, Heartbeat, On;
  }

  lemma EnteredNew(h: Hub, step: Step, id: nat)
    requires Enabled(h, step) && |h.all| <= id < |Apply(h, step).all|
    ensures Apply(h, step).all[id].destroyed == 0
  {
  }

  lemma {:induction false} FairOnce(steps: seq<Step>)
    requires Run(steps).Some?
    ensures Fair(steps) <==> Once(Run(steps).value)
  {
    if steps == [] {
    } else {
      var before, step := steps[..|steps| - 1], steps[|steps| - 1];
      FairOnce(before);
      RunOwned(before);
      hide Inv, AllOwned, Once, Stale, Apply, Enabled;
      StepOnce(Run(before).value, step);
    }
  }

  /** No Destroy is ever entered twice, and hence nobody panics or is kept inside by another
      caller's closing, exactly when no caller finds, at the moment at which it acts on a dead
      node, that another one has begun to remove it. */
  lemma DestroyedOnceIff(steps: seq<Step>)
    requires Run(steps).Some?
    ensures var all := Run(steps).value.all;
            && ((forall id :: 0 <= id < |all| ==> all[id].destroyed <= 1) <==> Fair(steps))
            && (Fair(steps) ==> forall id :: 0 <= id < |all| ==> all[id].panics == 0)
  {
    FairOnce(steps);
    RunOwned(steps);
    var h := Run(steps).value;
    hide Run, Fair, Inv;
    forall id | 0 <= id < |h.all| && h.all[id].destroyed <= 1
      ensures h.all[id].panics == 0
    {
      assert Owned(h, id);
      hide Stoppers, Removers;
    }
  }

  // ---------- the callers that come too late ----------

  lemma LateStep(h: Hub, step: Step, c: nat, id: nat)
    requires Enabled(h, step) && !(step.Look? && step.c == c) && id < |h.all| && h.all[id].closed
    ensures var h' := Apply(h, step);
            && |h.all| <= |h'.all| && h'.all[id].closed && h.all[id].panics <= h'.all[id].panics
            && (c !in h.callers ==> c !in h'.callers)
            && (On(h, c, id) && h.callers[c].Stopping? ==>
                  if c in h'.callers then h'.callers[c] == h.callers[c] else h'.all[id].panics > h.all[id].panics)
  {
  }

  /** A caller that is inside Destroy when another one has closed the channel never comes back
      from it: in every continuation it is still inside, or it has panicked. */
  lemma {:induction false} LateCallerNeverReturns(h: Hub, more: seq<Step>, c: nat, id: nat)
    requires id < |h.all| && h.all[id].closed && On(h, c, id) && h.callers[c].Stopping?
    requires RunFrom(h, more).Some? && forall i :: 0 <= i < |more| ==> !(more[i].Look? && more[i].c == c)
    ensures var h' := RunFrom(h, more).value;
            && id < |h'.all| && h'.all[id].closed && h.all[id].panics <= h'.all[id].panics
            && if c in h'.callers then h'.callers[c] == h.callers[c] else h'.all[id].panics > h.all[id].panics
  {
    if more == [] {
    } else {
      var before, step := more[..|more| - 1], more[|more| - 1];
      LateCallerNeverReturns(h, before, c, id);
      hide Apply, Enabled;
      LateStep(RunFrom(h, before).value, step, c, id);
    }
  }

  lemma RunNone(h: Hub)
    ensures RunFrom(h, []) == Some(h)
  {
  }

  lemma RunOne(h: Hub, steps: seq<Step>, i: nat, mid: Hub, end: Hub)
    requires i < |steps| && RunFrom(h, steps[..i]) == Some(mid)
    requires Enabled(mid, steps[i]) && Apply(mid, steps[i]) == end
    ensures RunFrom(h, steps[..i + 1]) == Some(end)
  {
    assert steps[..i + 1][..i] == steps[..i];
  }

  /** Five steps in a row. */
  lemma RunFive(h0: Hub, h1: Hub, h2: Hub, h3: Hub, h4: Hub, h5: Hub, steps: seq<Step>)
    requires |steps| == 5
    requires Enabled(h0, steps[0]) && h1 == Apply(h0, steps[0]) && Enabled(h1, steps[1]) && h2 == Apply(h1, steps[1])
    requires Enabled(h2, steps[2]) && h3 == Apply(h2, steps[2]) && Enabled(h3, steps[3]) && h4 == Apply(h3, steps[3])
    requires Enabled(h4, steps[4]) && h5 == Apply(h4, steps[4])
    ensures RunFrom(h0, steps) == Some(h5)
  {
    hide Apply, Enabled, RunFrom;
    RunNone(h0);
    assert steps[..0] == [] && steps[..5] == steps;
    RunOne(h0, steps, 0, h0, h1);
    RunOne(h0, steps, 1, h1, h2);
    RunOne(h0, steps, 2, h2, h3);
    RunOne(h0, steps, 3, h3, h4);
    RunOne(h0, steps, 4, h4, h5);
  }

  lemma {:induction false} RunConcat(h: Hub, a: seq<Step>, b: seq<Step>)
    requires RunFrom(h, a).Some?
    ensures RunFrom(h, a + b) == RunFrom(RunFrom(h, a).value, b)
  {
    if b == [] {
      assert a + b == a;
    } else {
      RunConcat(h, a, b[..|b| - 1]);
      assert (a + b)[..|a + b| - 1] == a + b[..|b| - 1];
    }
  }

  function FirstSteps(addr: Text): seq<Step> { [Look(1, addr), Look(2, addr), Decide(1), Close(1), Remove(1)] }

  function LaterSteps(addr: Text): seq<Step> { [Look(3, addr), Decide(3), Decide(2), Close(2), Look(4, addr)] }

  // The states of that run: two callers look the dead node up, the first one removes it, a
  // third one registers a new node, the second one enters Destroy of the old one and panics, and
  // a fourth one finds the new node.

  function Entered(n: Node): Node { n.(destroyed := n.destroyed + 1) }

  function Shut(n: Node): Node { n.(closed := true) }

  function Gone(n: Node): Node { n.(removed := n.removed + 1) }

  function Thrown(n: Node): Node { n.(panics := n.panics + 1) }

  lemma BothLook(h: Hub, addr: Text, id: nat)
    requires h.callers == map[] && Registered(h, addr) == Some(id)
    ensures var found := Looked(addr, Some(id)); var h1 := h.(callers := map[1 := found]);
            && Enabled(h, Look(1, addr)) && Apply(h, Look(1, addr)) == h1
            && Enabled(h1, Look(2, addr)) && Apply(h1, Look(2, addr)) == h.(callers := map[1 := found, 2 := found])
  {
  }

  lemma FirstEnters(all: seq<Node>, nodes: map<Text, nat>, addr: Text, id: nat)
    requires id < |all| && all[id].isDead
    ensures var found := Looked(addr, Some(id)); var h := Hub(all, nodes, map[1 := found, 2 := found]);
            && Enabled(h, Decide(1))
            && Apply(h, Decide(1)) == Hub(all[id := Entered(all[id])], nodes, map[1 := Stopping(addr, id), 2 := found])
  {
    assert Destroy(all[id]) == Entered(all[id]);
  }

  lemma FirstCloses(all: seq<Node>, nodes: map<Text, nat>, addr: Text, id: nat)
    requires id < |all| && !all[id].closed
    ensures var found := Looked(addr, Some(id)); var h := Hub(all, nodes, map[1 := Stopping(addr, id), 2 := found]);
            && Enabled(h, Close(1))
            && Apply(h, Close(1)) == Hub(all[id := Shut(all[id])], nodes, map[1 := Removing(addr, id), 2 := found])
  {
  }

  lemma FirstRemoves(all: seq<Node>, nodes: map<Text, nat>, addr: Text, id: nat)
    requires id < |all| && all[id].addr == addr
    ensures var found := Looked(addr, Some(id)); var h := Hub(all, nodes, map[1 := Removing(addr, id), 2 := found]);
            && Enabled(h, Remove(1))
            && Apply(h, Remove(1)) == Hub(all[id := Gone(all[id])], nodes - {addr}, map[2 := found])
  {
    var found := Looked(addr, Some(id));
    assert map[1 := Removing(addr, id), 2 := found] - {1} == map[2 := found];
  }

  lemma Overtaken(h: Hub, addr: Text, id: nat)
    requires h.callers == map[] && Registered(h, addr) == Some(id) && id < |h.all|
    requires var n := h.all[id]; n.isDead && n.addr == addr && !n.closed
    ensures RunFrom(h, FirstSteps(addr)) ==
            Some(Hub(h.all[id := Gone(Shut(Entered(h.all[id])))], h.nodes - {addr}, map[2 := Looked(addr, Some(id))]))
  {
    var n, found := h.all[id], Looked(addr, Some(id));
    var all3, all4 := h.all[id := Entered(n)], h.all[id := Shut(Entered(n))];
    BothLook(h, addr, id);
    FirstEnters(h.all, h.nodes, addr, id);
    FirstCloses(all3, h.nodes, addr, id);
    assert all3[id := Shut(all3[id])] == all4;
    FirstRemoves(all4, h.nodes, addr, id);
    assert all4[id := Gone(all4[id])] == h.all[id := Gone(Shut(Entered(n)))];
    hide RunFrom, Apply, Enabled, Gone, Shut, Entered;
    RunFive(h, h.(callers := map[1 := found]), h.(callers := map[1 := found, 2 := found]),
            Hub(all3, h.nodes, map[1 := Stopping(addr, id), 2 := found]),
            Hub(all4, h.nodes, map[1 := Removing(addr, id), 2 := found]),
            Hub(all4[id := Gone(all4[id])], h.nodes - {addr}, map[2 := found]), FirstSteps(addr));
  }

  lemma ThirdCreates(h: Hub, addr: Text, id: nat)
    requires addr !in h.nodes && h.callers == map[2 := Looked(addr, Some(id))]
    ensures var h1 := h.(callers := map[2 := Looked(addr, Some(id)), 3 := Looked(addr, None)]);
            && Enabled(h, Look(3, addr)) && Apply(h, Look(3, addr)) == h1
            && Enabled(h1, Decide(3))
            && Apply(h1, Decide(3)) == Hub(h.all + [NewNode(addr)], h.nodes[addr := |h.all|], h.callers)
  {
    assert map[2 := Looked(addr, Some(id)), 3 := Looked(addr, None)] - {3} == h.callers;
  }

  lemma SecondPanics(h: Hub, addr: Text, id: nat)
    requires id < |h.all| && h.callers == map[2 := Looked(addr, Some(id))] && h.all[id].isDead && h.all[id].closed
    ensures var h1 := Hub(h.all[id := Entered(h.all[id])], h.nodes, map[2 := Stopping(addr, id)]);
            && Enabled(h, Decide(2)) && Apply(h, Decide(2)) == h1 && Enabled(h1, Close(2))
            && Apply(h1, Close(2)) == Hub(h.all[id := Thrown(Entered(h.all[id]))], h.nodes, map[])
  {
    var h1 := Hub(h.all[id := Entered(h.all[id])], h.nodes, map[2 := Stopping(addr, id)]);
    assert Destroy(h.all[id]) == Entered(h.all[id]);
    assert h1.callers - {2} == map[];
    assert h1.all[id := Thrown(h1.all[id])] == h.all[id := Thrown(Entered(h.all[id]))];
  }

  lemma Replaced(h: Hub, addr: Text, id: nat)
    requires addr !in h.nodes && id < |h.all| && h.callers == map[2 := Looked(addr, Some(id))]
    requires var n := h.all[id]; n.isDead && n.addr == addr && n.closed
    ensures RunFrom(h, LaterSteps(addr)) ==
            Some(Hub((h.all + [NewNode(addr)])[id := Thrown(Entered(h.all[id]))],
                     h.nodes[addr := |h.all|], map[4 := Looked(addr, Some(|h.all|))]))
  {
    var h1 := h.(callers := map[2 := Looked(addr, Some(id)), 3 := Looked(addr, None)]);
    var h2 := Hub(h.all + [NewNode(addr)], h.nodes[addr := |h.all|], h.callers);
    var h3 := Hub(h2.all[id := Entered(h.all[id])], h2.nodes, map[2 := Stopping(addr, id)]);
    var h4 := Hub(h2.all[id := Thrown(Entered(h.all[id]))], h2.nodes, map[]);
    var h5 := h4.(callers := map[4 := Looked(addr, Some(|h.all|))]);
    ThirdCreates(h, addr, id);
    assert h2.all[id] == h.all[id];
    SecondPanics(h2, addr, id);
    assert Enabled(h4, Look(4, addr)) && Apply(h4, Look(4, addr)) == h5;
    hide RunFrom, Apply, Enabled, Thrown, Entered, NewNode;
    RunFive(h, h1, h2, h3, h4, h5, LaterSteps(addr));
  }

  /** It happens, from every state with a dead registered node and nobody in a Get: of two
      callers that have looked it up the later one panics, and the node that has replaced the
      dead one by then stays registered. */
  lemma LateCallerPanics(h: Hub, addr: Text)
    requires Inv(h) && AllOwned(h) && h.callers == map[] && addr in h.nodes && h.all[h.nodes[addr]].isDead
    ensures var end := RunFrom(h, FirstSteps(addr) + LaterSteps(addr)); var id := h.nodes[addr];
            && end.Some? && |end.value.all| == |h.all| + 1
            && end.value.all[id].destroyed == 2 && end.value.all[id].panics == 1 && end.value.all[id].removed == 1
            && Registered(end.value, addr) == Some(|h.all|) && end.value.all[|h.all|] == NewNode(addr)
  {
    var id := h.nodes[addr];
    Untouched(h, id);
    assert Owned(h, id);
    hide RunFrom, FirstSteps, LaterSteps, Owned, AllOwned, Heartbeat;
    Overtaken(h, addr, id);
    var mid := RunFrom(h, FirstSteps(addr)).value;
    Replaced(mid, addr, id);
    RunConcat(h, FirstSteps(addr), LaterSteps(addr));
  }

  /** And the whole story, from an empty registry: the node is created, dies and is replaced. */
  lemma LateCallerRun(addr: Text)
    ensures var end := Run(DyingSteps(addr, 9) + (FirstSteps(addr) + LaterSteps(addr)));
            && end.Some? && |end.value.all| == 2 && end.value.all[0].panics == 1 && end.value.all[0].removed == 1
            && Registered(end.value, addr) == Some(1) && !end.value.all[1].isDead
  {
    NodeDies(addr);
    RunOwned(DyingSteps(addr, 9));
    hide RunFrom, DyingSteps, FirstSteps, LaterSteps, AllOwned, Heartbeat;
    LateCallerPanics(Run(DyingSteps(addr, 9)).value, addr);
    RunConcat(EMPTY, DyingSteps(addr, 9), FirstSteps(addr) + LaterSteps(addr));
  }

  // ---------- callers that take turns ----------

  ghost predicate Nobody(h: Hub, addr: Text) {
    forall c :: c in h.callers ==> h.callers[c].addr != addr
  }

  /** Every Get of an address begins when no other Get of that address is in progress, as if a
      lock for the address were held around it. */
  ghost predicate TakingTurns(steps: seq<Step>)
    requires Run(steps).Some?
  {
    steps == [] ||
    var before, step := steps[..|steps| - 1], steps[|steps| - 1];
    TakingTurns(before) && (step.Look? ==> Nobody(Run(before).value, step.addr))
  }

  /** One caller for each address, which knows what is registered there. */
  ghost predicate Apart(h: Hub) {
    && (forall c, d :: c in h.callers && d in h.callers && c != d ==> h.callers[c].addr != h.callers[d].addr)
    && (forall c :: c in h.callers && h.callers[c].Looked? ==> Registered(h, h.callers[c].addr) == h.callers[c].node)
  }

  lemma ApartFair(h: Hub, step: Step)
    requires Inv(h) && Apart(h) && Enabled(h, step)
    ensures !Stale(h, step)
  {
    InvKnows(h);
    hide Heartbeat, Inv;
    if step.Decide? && h.callers[step.c].node.Some? {
      assert Known(h, h.callers[step.c]);
      forall x
        ensures !On(h, x, h.callers[step.c].node.value)
      {
        if x in h.callers { assert Known(h, h.callers[x]); }
      }
    }
  }

  /** Other callers do not notice what a caller registers or removes at its own address. */
  lemma ApartStays(h: Hub, h': Hub, c: nat)
    requires Apart(h) && c in h.callers
    requires forall x :: x in h'.callers ==> x in h.callers && (x != c ==> h'.callers[x] == h.callers[x])
    requires c in h'.callers ==> h'.callers[c].addr == h.callers[c].addr && !h'.callers[c].Looked?
    requires forall a :: a != h.callers[c].addr ==> Registered(h', a) == Registered(h, a)
    ensures Apart(h')
  {
    hide Registered;
  }

  lemma LookApart(h: Hub, c: nat, addr: Text)
    requires Apart(h) && Enabled(h, Look(c, addr)) && Nobody(h, addr)
    ensures Apart(Apply(h, Look(c, addr)))
  {
    var h' := Apply(h, Look(c, addr));
    assert forall a :: Registered(h', a) == Registered(h, a);
    hide Registered;
  }

  lemma DecideApart(h: Hub, c: nat)
    requires Apart(h) && Enabled(h, Decide(c))
    ensures Apart(Decided(h, c))
  {
    hide Apart;
    ApartStays(h, Decided(h, c), c);
  }

  lemma CloseApart(h: Hub, c: nat)
    requires Apart(h) && Enabled(h, Close(c))
    ensures Apart(Closed(h, c))
  {
    hide Apart;
    ApartStays(h, Closed(h, c), c);
  }

  lemma RemoveApart(h: Hub, c: nat)
    requires Apart(h) && Enabled(h, Remove(c)) && Known(h, h.callers[c])
    ensures Apart(Apply(h, Remove(c)))
  {
    hide Apart;
    ApartStays(h, Apply(h, Remove(c)), c);
  }

  lemma StepApart(h: Hub, step: Step)
    requires Inv(h) && Apart(h) && Enabled(h, step) && (step.Look? ==> Nobody(h, step.addr))
    ensures Apart(Apply(h, step))
  {
    InvKnows(h);
    hide Inv, Heartbeat, Decided, Closed, Nobody, Known;
    match step
    case Look(c, addr) => LookApart(h, c, addr);
    case Decide(c) => DecideApart(h, c);
    case Close(c) => CloseApart(h, c);
    case Remove(c) => RemoveApart(h, c);
    case TestStep(_) =>
    case ProbeStep(_, _) =>
  }

  lemma {:induction false} TurnsFair(steps: seq<Step>)
    requires Run(steps).Some? && TakingTurns(steps)
    ensures Fair(steps) && Apart(Run(steps).value)
  {
    if steps == [] {
    } else {
      var before, step := steps[..|steps| - 1], steps[|steps| - 1];
      TurnsFair(before);
      RunOwned(before);
      hide Inv, AllOwned, Apart, Apply, Enabled, Stale, Nobody;
      ApartFair(Run(before).value, step);
      StepApart(Run(before).value, step);
    }
  }

  /** When the callers for each address take turns, no Destroy is entered twice and nobody
      panics, and at an address where no Get is in progress every node is registered and its
      Destroy has not been entered, or it is gone, entered once and removed once. */
  lemma TurnsDestroyOnce(steps: seq<Step>, id: nat)
    requires Run(steps).Some? && TakingTurns(steps) && id < |Run(steps).value.all|
    ensures var h := Run(steps).value; var n := h.all[id];
            && n.destroyed <= 1 && n.panics == 0
            && (Nobody(h, n.addr) ==>
                  if Registered(h, n.addr) == Some(id) then n.destroyed == 0 && n.removed == 0
                  else n.destroyed == 1 && n.removed == 1)
  {
    TurnsFair(steps);
    DestroyedOnceIff(steps);
    RunOwned(steps);
    var h := Run(steps).value;
    hide Run, Fair, TakingTurns;
    InvKnows(h);
    Untouched(h, id);
    assert Owned(h, id);
    hide Inv, AllOwned, Heartbeat;
    if Nobody(h, h.all[id].addr) {
      forall x
        ensures !On(h, x, id)
      {
        if x in h.callers { assert Known(h, h.callers[x]); }
      }
      assert forall x :: x in Removers(h, id) ==> On(h, x, id);
      assert Removers(h, id) == {};
    }
  }

  // ---------- one whole Get ----------

  /** What a registry keeps whose callers take turns. */
  ghost predicate Orderly(h: Hub) {
    Inv(h) && AllOwned(h) && Once(h) && Apart(h)
  }

  lemma StepOrderly(h: Hub, step: Step)
    requires Orderly(h) && Enabled(h, step) && (step.Look? ==> Nobody(h, step.addr))
    ensures Orderly(Apply(h, step))
  {
    hide Inv, AllOwned, Once, Apart, Apply, Enabled, Nobody, Stale;
    StepKeeps(h, step);
    StepOwned(h, step);
    ApartFair(h, step);
    StepOnce(h, step);
    StepApart(h, step);
  }

  lemma LookedUp(h: Hub, c: nat, addr: Text)
    requires Inv(h) && c !in h.callers
    ensures Enabled(Apply(h, Look(c, addr)), Decide(c))
  {
    hide Heartbeat;
  }

  lemma WholeGetFound(h: Hub, c: nat, addr: Text)
    requires Inv(h) && c !in h.callers && Enabled(Apply(h, Look(c, addr)), Decide(c))
    requires Found(Apply(h, Look(c, addr)), c).Some?
    ensures var h1 := Apply(h, Look(c, addr)); var id, h2 := Found(h1, c).value, Apply(h1, Decide(c));
            h2.callers == h.callers && id < |h2.all| && !h2.all[id].isDead && h2.nodes == h.nodes[addr := id]
  {
    hide Heartbeat;
    var h1 := Apply(h, Look(c, addr));
    assert h1.callers - {c} == h.callers;
    assert addr in h.nodes ==> h.nodes[addr := h.nodes[addr]] == h.nodes;
  }

  lemma WholeGetDead(h: Hub, c: nat, addr: Text)
    requires Inv(h) && c !in h.callers && Enabled(Apply(h, Look(c, addr)), Decide(c))
    requires Found(Apply(h, Look(c, addr)), c).None?
    ensures addr in h.nodes && h.all[h.nodes[addr]].isDead
    ensures var h2 := Apply(Apply(h, Look(c, addr)), Decide(c));
            && h2.callers == h.callers[c := Stopping(addr, h.nodes[addr])] && h2.nodes == h.nodes
            && Enabled(h2, Close(c))
  {
    hide Heartbeat;
  }

  /** The only caller inside Destroy finds the channel open, comes back and removes the node. */
  lemma ClosesAndRemoves(h: Hub, c: nat)
    requires Orderly(h) && Enabled(h, Close(c))
    ensures var h1 := Apply(h, Close(c));
            && Enabled(h1, Remove(c))
            && Apply(h1, Remove(c)).nodes == h.nodes - {h.callers[c].addr}
            && Apply(h1, Remove(c)).callers == h.callers - {c}
  {
    var id := h.callers[c].id;
    InvKnows(h);
    assert Known(h, h.callers[c]);
    assert Owned(h, id) && c in Stoppers(h, id) && h.all[id].destroyed <= 1;
    hide Inv, AllOwned, Once, Apart, Stoppers, Removers, Heartbeat;
    assert !h.all[id].closed;
    assert h.callers[c := Removing(h.callers[c].addr, id)] - {c} == h.callers - {c};
  }
}
