/** Remote nodes: the heartbeat that declares them dead and the registry that replaces them,
    from nodes/node.go and nodes/nodehub.go, as a step system. */
module NodeRegistry {
  import opened Basics

  const PING_MAX_RETRYS := 2

  /** The heartbeat goroutine is at its test, asleep until the next probe, or has ended. */
  datatype Loop = AtTest | Asleep | Ended

  /** `closed` tells whether the quit channel of the node's aggregator is closed. The last five
      fields are histories: the outcomes of all probes, how often the node's queue was cleared,
      how often Destroy was entered, how often it panicked because the channel was closed
      already, and how often the node was deleted from the registry. */
  datatype Node = Node(
    addr: Text,
    isAlive: bool,
    pingRetrys: nat,
    isDead: bool,
    numClient: int,
    loop: Loop,
    closed: bool,
    probes: seq<Probe>,
    clears: nat,
    destroyed: nat,
    panics: nat,
    removed: nat)

  function NewNode(addr: Text): Node { Node(addr, true, 0, false, 0, AtTest, false, [], 0, 0, 0, 0) }

  /** A probe either fails, with what GetLenMQ says if asked, or returns the client count. */
  datatype Probe = Failed(queueLen: Option<nat>) | Count(clients: int)

  function Test(n: Node): Node {
    if n.pingRetrys > PING_MAX_RETRYS || n.isDead then n.(isDead := true, loop := Ended) else n.(loop := Asleep)
  }

  function Answer(n: Node, p: Probe): Node {
    match p
    case Failed(len) =>
      n.(isAlive := false, pingRetrys := n.pingRetrys + 1, loop := AtTest, probes := n.probes + [p],
         clears := if n.isAlive && len.Some? && len.value > 0 then n.clears + 1 else n.clears)
    case Count(c) =>
      n.(isAlive := true, pingRetrys := 0, numClient := c, loop := AtTest, probes := n.probes + [p])
  }

  function Destroy(n: Node): Node { n.(isDead := true, destroyed := n.destroyed + 1) }

  /** A caller of Get for `addr` has looked it up, outside the lock; or has entered Destroy of
      the dead node it found and waits for an empty queue to close the node's quit channel; or
      has come back from Destroy and is to delete the node from the registry. */
  datatype Phase =
    | Looked(addr: Text, node: Option<nat>)
    | Stopping(addr: Text, id: nat)
    | Removing(addr: Text, id: nat)

  /** All nodes ever created, by number, the registered one for each address, and the callers
      in the middle of a Get. */
  datatype Hub = Hub(all: seq<Node>, nodes: map<Text, nat>, callers: map<nat, Phase>)

  const EMPTY := Hub([], map[], map[])

  datatype Step =
    | Look(c: nat, addr: Text)
    | Decide(c: nat)
    | Close(c: nat)
    | Remove(c: nat)
    | TestStep(id: nat)
    | ProbeStep(id: nat, probe: Probe)

  predicate Enabled(h: Hub, step: Step) {
    match step
    case Look(c, _) => c !in h.callers
    case Decide(c) =>
      && c in h.callers && h.callers[c].Looked?
      && (h.callers[c].node.Some? ==> h.callers[c].node.value < |h.all|)
    case Close(c) => c in h.callers && h.callers[c].Stopping? && h.callers[c].id < |h.all|
    case Remove(c) => c in h.callers && h.callers[c].Removing? && h.callers[c].id < |h.all|
    case TestStep(id) => id < |h.all| && h.all[id].loop.AtTest?
    case ProbeStep(id, _) => id < |h.all| && h.all[id].loop.Asleep?
  }

  function Registered(h: Hub, addr: Text): Option<nat> {
    if addr in h.nodes then Some(h.nodes[addr]) else None
  }

  function Apply(h: Hub, step: Step): Hub
    requires Enabled(h, step)
  {
    match step
    case Look(c, addr) => h.(callers := h.callers[c := Looked(addr, Registered(h, addr))])
    case Decide(c) => Decided(h, c)
    case Close(c) => Closed(h, c)
    case Remove(c) =>
      var n := h.all[h.callers[c].id];
      Hub(h.all[h.callers[c].id := n.(removed := n.removed + 1)], h.nodes - {n.addr}, h.callers - {c})
    case TestStep(id) => h.(all := h.all[id := Test(h.all[id])])
    case ProbeStep(id, p) => h.(all := h.all[id := Answer(h.all[id], p)])
  }

  /** After a look-up in vain: in the lock, look again and create what is still missing. After
      a look-up that found a node: enter its Destroy if it is dead. */
  function Decided(h: Hub, c: nat): Hub
    requires Enabled(h, Decide(c))
  {
    var addr, rest := h.callers[c].addr, h.callers - {c};
    match h.callers[c].node
    case None =>
      if addr in h.nodes then h.(callers := rest)
      else Hub(h.all + [NewNode(addr)], h.nodes[addr := |h.all|], rest)
    case Some(id) =>
      if h.all[id].isDead then
        h.(all := h.all[id := Destroy(h.all[id])], callers := h.callers[c := Stopping(addr, id)])
      else h.(callers := rest)
  }

  /** SafeStop closes the quit channel, whichever of its branches it takes, before it returns;
      on a closed channel that is a panic, which takes the caller out of Get. */
  function Closed(h: Hub, c: nat): Hub
    requires Enabled(h, Close(c))
  {
    var addr, id := h.callers[c].addr, h.callers[c].id;
    var n := h.all[id];
    if n.closed then h.(all := h.all[id := n.(panics := n.panics + 1)], callers := h.callers - {c})
    else h.(all := h.all[id := n.(closed := true)], callers := h.callers[c := Removing(addr, id)])
  }

  /** What the caller then receives: the number of a node, or nothing. */
  function Found(h: Hub, c: nat): Option<nat>
    requires Enabled(h, Decide(c))
  {
    match h.callers[c].node
    case None => Some(if h.callers[c].addr in h.nodes then h.nodes[h.callers[c].addr] else |h.all|)
    case Some(id) => if h.all[id].isDead then None else Some(id)
  }

  function RunFrom(h: Hub, steps: seq<Step>): Option<Hub> {
    if steps == [] then Some(h)
    else
      match RunFrom(h, steps[..|steps| - 1])
      case None => None
      case Some(h') => if Enabled(h', steps[|steps| - 1]) then Some(Apply(h', steps[|steps| - 1])) else None
  }

  function Run(steps: seq<Step>): Option<Hub> { RunFrom(EMPTY, steps) }

  /** The number of failed probes since the last successful one. */
  function FailuresInARow(probes: seq<Probe>): nat {
    if probes == [] || probes[|probes| - 1].Count? then 0 else 1 + FailuresInARow(probes[..|probes| - 1])
  }

  /** The failed probes that began an outage. */
  function OutageStarts(probes: seq<Probe>): seq<Probe> {
    if probes == [] then []
    else
      var before, p := probes[..|probes| - 1], probes[|probes| - 1];
      OutageStarts(before) + if p.Failed? && FailuresInARow(before) == 0 then [p] else []
  }

  /** How many of them found a queue that was not empty. */
  function Backlogs(starts: seq<Probe>): nat {
    if starts == [] then 0
    else
      var p := starts[|starts| - 1];
      Backlogs(starts[..|starts| - 1]) + if p.Failed? && p.queueLen.Some? && p.queueLen.value > 0 then 1 else 0
  }

  /** The client count of the latest successful probe. */
  function LatestCount(probes: seq<Probe>): int {
    if probes == [] then 0
    else if probes[|probes| - 1].Count? then probes[|probes| - 1].clients
    else LatestCount(probes[..|probes| - 1])
  }

  /** A node is alive exactly when its latest probe did not fail, the retries are the current
      run of failures, a run of three ends the heartbeat and is the only cause of death, and
      each outage that begins with a backlog, and nothing else, clears the queue once. */
  ghost predicate Heartbeat(n: Node) {
    && (n.isAlive <==> n.pingRetrys == 0)
    && n.pingRetrys == FailuresInARow(n.probes) <= PING_MAX_RETRYS + 1
    && (n.loop.Asleep? ==> n.pingRetrys <= PING_MAX_RETRYS)
    && n.clears == Backlogs(OutageStarts(n.probes))
    && n.numClient == LatestCount(n.probes)
    && (n.isDead <==> n.loop.Ended?)
    && (n.isDead ==> n.pingRetrys == PING_MAX_RETRYS + 1)
  }

  // ---------- the heartbeat of one node ----------

  lemma TestKeeps(n: Node)
    requires Heartbeat(n) && n.loop.AtTest?
    ensures Heartbeat(Test(n))
  {
    hide FailuresInARow, OutageStarts, Backlogs, LatestCount;
  }

  lemma FailuresAppend(probes: seq<Probe>, p: Probe)
    ensures FailuresInARow(probes + [p]) == if p.Count? then 0 else 1 + FailuresInARow(probes)
    ensures LatestCount(probes + [p]) == if p.Count? then p.clients else LatestCount(probes)
  {
    assert (probes + [p])[..|probes|] == probes;
  }

  lemma StartsAppend(probes: seq<Probe>, p: Probe)
    ensures OutageStarts(probes + [p]) ==
            OutageStarts(probes) + if p.Failed? && FailuresInARow(probes) == 0 then [p] else []
  {
    assert (probes + [p])[..|probes|] == probes;
  }

  lemma BacklogsAppend(starts: seq<Probe>, p: Probe)
    ensures Backlogs(starts + [p]) ==
            Backlogs(starts) + if p.Failed? && p.queueLen.Some? && p.queueLen.value > 0 then 1 else 0
  {
    assert (starts + [p])[..|starts|] == starts;
  }

  lemma AnswerKeeps(n: Node, p: Probe)
    requires Heartbeat(n) && n.loop.Asleep?
    ensures Heartbeat(Answer(n, p))
  {
    hide FailuresInARow, OutageStarts, Backlogs, LatestCount;
    var starts := OutageStarts(n.probes);
    FailuresAppend(n.probes, p);
    StartsAppend(n.probes, p);
    BacklogsAppend(starts, p);
    assert starts + [] == starts;
  }

  // ---------- what every run keeps ----------

  /** Registered nodes have their own address, callers know nodes that exist, a node that is to
      be removed is dead, as is every destroyed one, and all heartbeats are in order. */
  ghost predicate Inv(h: Hub) {
    && (forall a :: a in h.nodes ==> h.nodes[a] < |h.all| && h.all[h.nodes[a]].addr == a)
    && (forall c :: c in h.callers ==> Known(h, h.callers[c]))
    && (forall id :: 0 <= id < |h.all| ==> Heartbeat(h.all[id]) && (h.all[id].destroyed > 0 ==> h.all[id].isDead))
  }

  ghost predicate Known(h: Hub, phase: Phase) {
    if phase.Looked? then phase.node.Some? ==> phase.node.value < |h.all| && h.all[phase.node.value].addr == phase.addr
    else phase.id < |h.all| && h.all[phase.id].addr == phase.addr && h.all[phase.id].isDead
  }

  lemma UpdateKeeps(h: Hub, id: nat, n: Node)
    requires Inv(h) && id < |h.all| && Heartbeat(n) && n.addr == h.all[id].addr
    requires (n.destroyed > 0 || h.all[id].isDead) ==> n.isDead
    ensures Inv(h.(all := h.all[id := n]))
  {
    hide Heartbeat;
    var h' := h.(all := h.all[id := n]);
    forall c | c in h'.callers
      ensures Known(h', h'.callers[c])
    {
      assert Known(h, h.callers[c]);
    }
  }

  lemma CallersKeep(h: Hub, callers: map<nat, Phase>)
    requires Inv(h) && forall c :: c in callers ==> Known(h, callers[c])
    ensures Inv(h.(callers := callers))
  {
    hide Heartbeat;
    var h' := h.(callers := callers);
    forall c | c in h'.callers
      ensures Known(h', h'.callers[c])
    {
      assert Known(h, callers[c]);
    }
  }

  lemma CreateKeeps(h: Hub, addr: Text)
    requires Inv(h) && addr !in h.nodes
    ensures Inv(h.(all := h.all + [NewNode(addr)], nodes := h.nodes[addr := |h.all|]))
  {
    assert Heartbeat(NewNode(addr));
    hide Heartbeat;
    var h' := h.(all := h.all + [NewNode(addr)], nodes := h.nodes[addr := |h.all|]);
    forall c | c in h'.callers
      ensures Known(h', h'.callers[c])
    {
      assert Known(h, h.callers[c]);
    }
  }

  lemma DecideKeeps(h: Hub, c: nat)
    requires Inv(h) && Enabled(h, Decide(c))
    ensures Inv(Decided(h, c))
  {
    hide Heartbeat, Inv, Known;
    var addr, rest := h.callers[c].addr, h.callers - {c};
    assert forall x :: x in rest ==> Known(h, rest[x]) by { InvKnows(h); }
    match h.callers[c].node
    case None =>
      CallersKeep(h, rest);
      if addr !in h.nodes {
        CreateKeeps(h.(callers := rest), addr);
      }
    case Some(id) =>
      if h.all[id].isDead {
        var gone := h.callers[c := Stopping(addr, id)];
        assert Known(h, Stopping(addr, id)) by { InvKnows(h); KnownOn(h, c); }
        assert forall x :: x in gone ==> Known(h, gone[x]) by { InvKnows(h); }
        ChangeKeeps(h, id, Destroy(h.all[id]), gone);
      } else {
        CallersKeep(h, rest);
      }
  }

  lemma InvKnows(h: Hub)
    requires Inv(h)
    ensures forall c :: c in h.callers ==> Known(h, h.callers[c])
    ensures forall id :: 0 <= id < |h.all| ==> Heartbeat(h.all[id]) && (h.all[id].destroyed > 0 ==> h.all[id].isDead)
  {
  }

  /** A node that was looked up and is dead can be stopped. */
  lemma KnownOn(h: Hub, c: nat)
    requires c in h.callers && h.callers[c].Looked? && Known(h, h.callers[c]) && h.callers[c].node.Some?
    requires h.callers[c].node.value < |h.all| && h.all[h.callers[c].node.value].isDead
    ensures Known(h, Stopping(h.callers[c].addr, h.callers[c].node.value))
  {
  }

  /** The heartbeat does not depend on what happens to the registration. */
  lemma HistoryKeeps(n: Node, n': Node)
    requires Heartbeat(n)
    requires n' == n.(closed := n'.closed, destroyed := n'.destroyed, panics := n'.panics, removed := n'.removed)
    ensures Heartbeat(n')
  {
    hide FailuresInARow, OutageStarts, Backlogs, LatestCount;
  }

  /** A change of a node's registration together with a change of the callers. */
  lemma ChangeKeeps(h: Hub, id: nat, n': Node, callers: map<nat, Phase>)
    requires Inv(h) && id < |h.all| && h.all[id].isDead && forall c :: c in callers ==> Known(h, callers[c])
    requires var n := h.all[id];
             n' == n.(closed := n'.closed, destroyed := n'.destroyed, panics := n'.panics, removed := n'.removed)
    ensures Inv(Hub(h.all[id := n'], h.nodes, callers))
  {
    InvKnows(h);
    HistoryKeeps(h.all[id], n');
    hide Inv, Heartbeat, Known;
    CallersKeep(h, callers);
    UpdateKeeps(h.(callers := callers), id, n');
  }

  /** A caller that has entered Destroy can go on to remove the node. */
  lemma KnownDead(h: Hub, c: nat)
    requires Inv(h) && c in h.callers && !h.callers[c].Looked?
    ensures var addr, id := h.callers[c].addr, h.callers[c].id;
            id < |h.all| && h.all[id].isDead && Known(h, Removing(addr, id))
  {
    InvKnows(h);
    hide Inv, Heartbeat;
    assert Known(h, h.callers[c]);
  }

  lemma CloseKeeps(h: Hub, c: nat)
    requires Inv(h) && Enabled(h, Close(c))
    ensures Inv(Closed(h, c))
  {
    hide Heartbeat, Inv, Known;
    InvKnows(h);
    KnownDead(h, c);
    var addr, id := h.callers[c].addr, h.callers[c].id;
    var n := h.all[id];
    if n.closed {
      ChangeKeeps(h, id, n.(panics := n.panics + 1), h.callers - {c});
    } else {
      ChangeKeeps(h, id, n.(closed := true), h.callers[c := Removing(addr, id)]);
    }
  }

  lemma LookKeeps(h: Hub, c: nat, addr: Text)
    requires Inv(h) && c !in h.callers
    ensures Inv(h.(callers := h.callers[c := Looked(addr, Registered(h, addr))]))
  {
    hide Heartbeat;
    assert Known(h, Looked(addr, Registered(h, addr)));
    CallersKeep(h, h.callers[c := Looked(addr, Registered(h, addr))]);
  }

  lemma UnregisterKeeps(h: Hub, addr: Text)
    requires Inv(h)
    ensures Inv(h.(nodes := h.nodes - {addr}))
  {
    hide Heartbeat;
    var h' := h.(nodes := h.nodes - {addr});
    forall x | x in h'.callers
      ensures Known(h', h'.callers[x])
    {
      assert Known(h, h.callers[x]);
    }
  }

  lemma RemoveKeeps(h: Hub, c: nat)
    requires Inv(h) && Enabled(h, Remove(c))
    ensures Inv(Apply(h, Remove(c)))
  {
    hide Heartbeat, Inv, Known;
    InvKnows(h);
    KnownDead(h, c);
    var id := h.callers[c].id;
    var n := h.all[id];
    ChangeKeeps(h, id, n.(removed := n.removed + 1), h.callers - {c});
    UnregisterKeeps(Hub(h.all[id := n.(removed := n.removed + 1)], h.nodes, h.callers - {c}), n.addr);
  }

  lemma StepKeeps(h: Hub, step: Step)
    requires Inv(h) && Enabled(h, step)
    ensures Inv(Apply(h, step))
  {
    InvKnows(h);
    hide Inv, Heartbeat, Test, Answer, Decided, Closed;
    match step
    case Look(c, addr) => LookKeeps(h, c, addr);
    case Decide(c) => DecideKeeps(h, c);
    case Close(c) => CloseKeeps(h, c);
    case Remove(c) => RemoveKeeps(h, c);
    case TestStep(id) =>
      TestKeeps(h.all[id]);
      SameNode(h, id, Test(h.all[id]));
      UpdateKeeps(h, id, Test(h.all[id]));
    case ProbeStep(id, p) =>
      AnswerKeeps(h.all[id], p);
      SameNode(h, id, Answer(h.all[id], p));
      UpdateKeeps(h, id, Answer(h.all[id], p));
  }

  /** The heartbeat does not change who a node is. */
  lemma SameNode(h: Hub, id: nat, n': Node)
    requires Inv(h) && id < |h.all| && (n' == Test(h.all[id]) || exists p :: n' == Answer(h.all[id], p))
    ensures n'.addr == h.all[id].addr && ((n'.destroyed > 0 || h.all[id].isDead) ==> n'.isDead)
  {
    hide Heartbeat;
  }

  /** In every reachable state, however the callers of Get interleave. */
  lemma {:induction false} RegistryInv(steps: seq<Step>)
    requires Run(steps).Some?
    ensures Inv(Run(steps).value)
  {
    if steps == [] {
    } else {
      hide Inv, Enabled, Apply;
      RegistryInv(steps[..|steps| - 1]);
      StepKeeps(Run(steps[..|steps| - 1]).value, steps[|steps| - 1]);
    }
  }

  /** A step that can be taken keeps every node, its address and its death. */
  lemma StepForward(h: Hub, step: Step, id: nat)
    requires Enabled(h, step) && id < |h.all|
    ensures var h' := Apply(h, step);
            && |h.all| <= |h'.all| && h'.all[id].addr == h.all[id].addr
            && (h.all[id].isDead ==> h'.all[id].isDead)
            && (h.all[id].closed ==> h'.all[id].closed)
            && h.all[id].probes <= h'.all[id].probes && h.all[id].destroyed <= h'.all[id].destroyed
            && h.all[id].panics <= h'.all[id].panics
  {
  }

  /** Death is for good: no later run of steps revives a node or probes it again. */
  lemma {:induction false} DeathIsFinal(steps: seq<Step>, i: nat, id: nat)
    requires i <= |steps| && Run(steps).Some?
    requires Run(steps[..i]).Some? && id < |Run(steps[..i]).value.all| && Run(steps[..i]).value.all[id].isDead
    ensures id < |Run(steps).value.all|
    ensures Run(steps).value.all[id].isDead && Run(steps).value.all[id].probes == Run(steps[..i]).value.all[id].probes
  {
    if i == |steps| {
      assert steps[..i] == steps;
    } else {
      var before := steps[..|steps| - 1];
      assert before[..i] == steps[..i];
      DeathIsFinal(before, i, id);
      RegistryInv(before);
      var h := Run(before).value;
      assert Heartbeat(h.all[id]);
      StepForward(h, steps[|steps| - 1], id);
    }
  }

  // ---------- probes and death ----------

  /** The outcomes of the probes of node `id` in a run. */
  function ProbesOf(steps: seq<Step>, id: nat): seq<Probe> {
    if steps == [] then []
    else
      var rest, step := ProbesOf(steps[..|steps| - 1], id), steps[|steps| - 1];
      if step.ProbeStep? && step.id == id then rest + [step.probe] else rest
  }

  lemma ProbesStep(h: Hub, step: Step, id: nat)
    requires Enabled(h, step)
    ensures var h' := Apply(h, step);
            && |h.all| <= |h'.all|
            && (id < |h.all| ==>
                  h'.all[id].probes == if step.ProbeStep? && step.id == id then h.all[id].probes + [step.probe]
                                       else h.all[id].probes)
            && (|h.all| <= id < |h'.all| ==> h'.all[id].probes == [])
            && (step.ProbeStep? && step.id == id ==> id < |h.all|)
  {
  }

  /** A node's history is the history of the run. */
  lemma {:induction false} ProbeHistory(steps: seq<Step>, id: nat)
    requires Run(steps).Some?
    ensures var h := Run(steps).value;
            if id < |h.all| then h.all[id].probes == ProbesOf(steps, id) else ProbesOf(steps, id) == []
  {
    if steps == [] {
    } else {
      hide Enabled, Apply;
      var before := steps[..|steps| - 1];
      ProbeHistory(before, id);
      ProbesStep(Run(before).value, steps[|steps| - 1], id);
    }
  }

  /** Three failures in a row kill, and nothing else does: in every run, a test of the heartbeat
      loop ends the loop with the node dead exactly when more than two probes in a row have
      failed, and otherwise sends the loop to sleep until the next probe. */
  lemma DeadIff(steps: seq<Step>, id: nat)
    requires Run(steps).Some? && Enabled(Run(steps).value, TestStep(id))
    ensures var n := Apply(Run(steps).value, TestStep(id)).all[id];
            && (n.isDead && n.loop.Ended? <==> FailuresInARow(ProbesOf(steps, id)) >= 3)
            && (!n.isDead && n.loop.Asleep? <==> FailuresInARow(ProbesOf(steps, id)) < 3)
  {
    RegistryInv(steps);
    ProbeHistory(steps, id);
    hide Run, ProbesOf, FailuresInARow, OutageStarts, Backlogs, LatestCount;
    assert Heartbeat(Run(steps).value.all[id]);
  }

  /** What a probe tells is what the node shows: alive, the client count and the clearings. */
  lemma NodeShows(steps: seq<Step>, id: nat)
    requires Run(steps).Some? && id < |Run(steps).value.all|
    ensures var n, probes := Run(steps).value.all[id], ProbesOf(steps, id);
            && (n.isAlive <==> FailuresInARow(probes) == 0)
            && n.numClient == LatestCount(probes)
            && n.clears == Backlogs(OutageStarts(probes))
            && (n.isDead ==> FailuresInARow(probes) == PING_MAX_RETRYS + 1)
  {
    RegistryInv(steps);
    ProbeHistory(steps, id);
    hide Run, ProbesOf, FailuresInARow, OutageStarts, Backlogs, LatestCount;
    assert Heartbeat(Run(steps).value.all[id]);
  }

  // A run in which a node dies: created, tested, and three times probed in vain.

  function DyingStep(addr: Text, n: nat): Step {
    if n == 0 then Look(0, addr) else if n == 1 then Decide(0)
    else if n % 2 == 0 then TestStep(0) else ProbeStep(0, Failed(None))
  }

  function DyingSteps(addr: Text, n: nat): seq<Step> {
    if n == 0 then [] else DyingSteps(addr, n - 1) + [DyingStep(addr, n - 1)]
  }

  function Failures(n: nat): seq<Probe> { if n == 0 then [] else Failures(n - 1) + [Failed(None)] }

  /** The hub after `n` of those steps. */
  function Dying(addr: Text, n: nat): Hub {
    if n == 0 then EMPTY
    else if n == 1 then Hub([], map[], map[0 := Looked(addr, None)])
    else
      var failures := n / 2 - 1;
      var loop := if n == 9 then Ended else if n % 2 == 0 then AtTest else Asleep;
      Hub([NewNode(addr).(isAlive := failures == 0, pingRetrys := failures, isDead := n == 9, loop := loop,
                          probes := Failures(failures))], map[addr := 0], map[])
  }

  lemma DyingMoves(addr: Text, n: nat)
    requires n < 9
    ensures Enabled(Dying(addr, n), DyingStep(addr, n))
    ensures Apply(Dying(addr, n), DyingStep(addr, n)) == Dying(addr, n + 1)
  {
    if n == 0 {
      assert map[][0 := Looked(addr, None)] == map[0 := Looked(addr, None)];
    } else if n == 1 {
      assert map[0 := Looked(addr, None)] - {0} == map[];
      assert [] + [NewNode(addr)] == [NewNode(addr)] && map[][addr := 0] == map[addr := 0];
    } else {
      var h, h' := Dying(addr, n), Dying(addr, n + 1);
      assert h.all[0 := h'.all[0]] == h'.all;
    }
  }

  lemma {:induction false} DyingRun(addr: Text, n: nat)
    requires n <= 9
    ensures Run(DyingSteps(addr, n)) == Some(Dying(addr, n))
  {
    if n == 0 {
    } else {
      DyingRun(addr, n - 1);
      DyingMoves(addr, n - 1);
      hide Enabled, Apply, Dying, DyingStep;
      var steps := DyingSteps(addr, n);
      assert steps[..|steps| - 1] == DyingSteps(addr, n - 1);
    }
  }

  /** Dead registered nodes are reachable. */
  lemma NodeDies(addr: Text)
    ensures var r := Run(DyingSteps(addr, 9));
            && r.Some? && |r.value.all| == 1 && r.value.all[0].isDead && r.value.all[0].addr == addr
            && Registered(r.value, addr) == Some(0) && r.value.callers == map[]
  {
    DyingRun(addr, 9);
  }

  /** The next step of a node whose probes fail. */
  function FailingStep(n: Node, id: nat): Step {
    if n.loop.AtTest? then TestStep(id) else ProbeStep(id, Failed(None))
  }

  function ToDeath(n: Node): int {
    2 * (PING_MAX_RETRYS + 1 - n.pingRetrys) + if n.loop.AtTest? then 1 else 0
  }

  lemma FailingWorks(h: Hub, id: nat)
    requires Inv(h) && id < |h.all| && !h.all[id].isDead
    ensures var step := FailingStep(h.all[id], id);
            && Enabled(h, step)
            && var h' := Apply(h, step);
               && |h'.all| == |h.all| && h'.nodes == h.nodes && h'.callers == h.callers
               && (h'.all[id].isDead || ToDeath(h.all[id]) > ToDeath(h'.all[id]) >= 0)
  {
    InvKnows(h);
    hide FailuresInARow, OutageStarts, Backlogs, LatestCount;
    assert Heartbeat(h.all[id]);
  }

  /** From every state, any node whose probes fail from now on dies. */
  lemma {:induction false} FailuresKill(h: Hub, id: nat) returns (more: seq<Step>)
    requires Inv(h) && id < |h.all|
    ensures forall i :: 0 <= i < |more| ==> more[i] == TestStep(id) || more[i] == ProbeStep(id, Failed(None))
    ensures RunFrom(h, more).Some?
    ensures var h' := RunFrom(h, more).value;
            |h'.all| == |h.all| && h'.all[id].isDead && h'.nodes == h.nodes && h'.callers == h.callers
    decreases if h.all[id].isDead then -1 else ToDeath(h.all[id])
  {
    if h.all[id].isDead {
      more := [];
    } else {
      var step := FailingStep(h.all[id], id);
      FailingWorks(h, id);
      StepKeeps(h, step);
      hide Inv, Enabled, Apply;
      var rest := FailuresKill(Apply(h, step), id);
      more := [step] + rest;
      RunFirst(h, step, rest);
    }
  }

  lemma {:induction false} RunFirst(h: Hub, step: Step, rest: seq<Step>)
    requires Enabled(h, step)
    ensures RunFrom(h, [step] + rest) == RunFrom(Apply(h, step), rest)
  {
    hide Enabled, Apply;
    var steps := [step] + rest;
    if rest == [] {
      assert steps[..|steps| - 1] == [] && RunFrom(h, []) == Some(h);
    } else {
      RunFirst(h, step, rest[..|rest| - 1]);
      assert steps[..|steps| - 1] == [step] + rest[..|rest| - 1];
    }
  }
}
