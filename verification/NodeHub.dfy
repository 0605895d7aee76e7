/** The registry of nodes/nodehub.go with the heartbeat loops of its nodes. */
module NodeHub {
  import opened Basics
  import opened NodeRegistry
  import opened NodeRemoval

  /** The registry's variables; a node pointer is the node's number, and `callers` are the local
      variables of the callers of Get. A look-up, a locked section, the test of a node with the
      entry into Destroy, the closing of its quit channel, the removal, and a round of the
      heartbeat loop's test and of its probe are one step each. */
  class NodeHub {
    var all: seq<Node>
    var nodes: map<Text, nat>
    var callers: map<nat, Phase>

    ghost function View(): Hub
      reads this
    {
      Hub(all, nodes, callers)
    }

    constructor ()
      ensures View() == EMPTY && Orderly(View())
    {
      all, nodes, callers := [], map[], map[];
    }

    /** A whole Get, begun when no other Get of the address is in progress. */
    method Get(c: nat, addr: Text) returns (node: Option<nat>)
      requires Orderly(View()) && c !in callers && Nobody(View(), addr)
      modifies this
      ensures Orderly(View()) && callers == old(callers)
      ensures node.Some? ==> node.value < |all| && !all[node.value].isDead && nodes == old(nodes)[addr := node.value]
      ensures node.None? ==> old(addr in nodes && nodes[addr] < |all| && all[nodes[addr]].isDead)
      ensures node.None? ==> nodes == old(nodes) - {addr}
    {
      LookedUp(View(), c, addr);
      if Found(Apply(View(), Step.Look(c, addr)), c).Some? {
        WholeGetFound(View(), c, addr);
      } else {
        WholeGetDead(View(), c, addr);
      }
      StepOrderly(View(), Step.Look(c, addr));
      hide Inv, AllOwned, Once, Apart, Found, Apply, Nobody, Enabled, Orderly;
      Look(c, addr);
      StepOrderly(View(), Step.Decide(c));
      node := Decide(c);
      if node.None? {
        Delete(c);
        assert old(callers)[c := Stopping(addr, old(nodes[addr]))] - {c} == old(callers);
      }
    }

    /** Delete by a caller that has entered Destroy and is the only one there. */
    method Delete(c: nat)
      requires Orderly(View()) && Enabled(View(), Step.Close(c))
      modifies this
      ensures Orderly(View()) && nodes == old(nodes) - {old(callers[c].addr)} && callers == old(callers) - {c}
    {
      ClosesAndRemoves(View(), c);
      hide Inv, AllOwned, Once, Apart, Apply, Enabled;
      StepOrderly(View(), Step.Close(c));
      var _ := CloseQuit(c);
      StepOrderly(View(), Step.Remove(c));
      Remove(c);
    }

    method Look(c: nat, addr: Text)
      requires Inv(View()) && Enabled(View(), Step.Look(c, addr))
      modifies this`callers
      ensures Inv(View()) && View() == Apply(old(View()), Step.Look(c, addr))
    {
      hide Heartbeat;
      LookKeeps(View(), c, addr);
      callers := callers[c := Looked(addr, if addr in nodes then Some(nodes[addr]) else None)];
    }

    method Decide(c: nat) returns (node: Option<nat>)
      requires Inv(View()) && Enabled(View(), Step.Decide(c))
      modifies this
      ensures Inv(View()) && View() == Apply(old(View()), Step.Decide(c))
      ensures node == Found(old(View()), c)
    {
      hide Inv, Heartbeat;
      DecideKeeps(View(), c);
      var addr := callers[c].addr;
      if callers[c].node.None? {
        if addr in nodes {
          node := Some(nodes[addr]);
        } else {
          node := Some(|all|);
          Add(addr, NewNode(addr));
        }
      } else {
        var id := callers[c].node.value;
        if all[id].isDead {
          all, callers := all[id := Destroy(all[id])], callers[c := Stopping(addr, id)];
          return None;
        }
        node := Some(id);
      }
      callers := callers - {c};
    }

    method Add(addr: Text, node: Node)
      modifies this`all, this`nodes
      ensures all == old(all) + [node] && nodes == old(nodes)[addr := |old(all)|]
    {
      nodes := nodes[addr := |all|];
      all := all + [node];
    }

    /** The part of SafeStop that every way through it takes; `ok` is false for a panic. */
    method CloseQuit(c: nat) returns (ok: bool)
      requires Inv(View()) && Enabled(View(), Step.Close(c))
      modifies this`all, this`callers
      ensures Inv(View()) && View() == Apply(old(View()), Step.Close(c))
      ensures ok <==> c in callers
      ensures ok <==> !old(all[callers[c].id].closed)
    {
      hide Inv, Heartbeat;
      CloseKeeps(View(), c);
      var addr, id := callers[c].addr, callers[c].id;
      var n := all[id];
      ok := !n.closed;
      if ok {
        all, callers := all[id := n.(closed := true)], callers[c := Removing(addr, id)];
      } else {
        all, callers := all[id := n.(panics := n.panics + 1)], callers - {c};
      }
    }

    /** The end of Delete. */
    method Remove(c: nat)
      requires Inv(View()) && Enabled(View(), Step.Remove(c))
      modifies this
      ensures Inv(View()) && View() == Apply(old(View()), Step.Remove(c))
    {
      hide Inv, Heartbeat;
      RemoveKeeps(View(), c);
      var id := callers[c].id;
      nodes := nodes - {all[id].addr};
      all := all[id := all[id].(removed := all[id].removed + 1)];
      callers := callers - {c};
    }

    /** The test at the head of the heartbeat loop; `go` tells whether the loop goes on. */
    method HeartbeatTest(id: nat) returns (go: bool)
      requires Inv(View()) && Enabled(View(), TestStep(id))
      modifies this
      ensures View() == Apply(old(View()), TestStep(id)) && Inv(View()) && (old(Orderly(View())) ==> Orderly(View()))
      ensures go <==> FailuresInARow(old(all[id].probes)) <= PING_MAX_RETRYS
      ensures id < |all| && (go <==> !all[id].isDead) && (if go then all[id].loop.Asleep? else all[id].loop.Ended?)
    {
      hide Inv, Orderly;
      StepKeeps(View(), TestStep(id));
      if Orderly(View()) { StepOrderly(View(), TestStep(id)); }
      TestFacts(View(), id);
      var n := all[id];
      if n.pingRetrys > PING_MAX_RETRYS || n.isDead {
        all := all[id := n.(isDead := true, loop := Ended)];
        return false;
      }
      all := all[id := n.(loop := Asleep)];
      return true;
    }

    method HeartbeatProbe(id: nat, probe: Probe)
      requires Inv(View()) && Enabled(View(), ProbeStep(id, probe))
      modifies this
      ensures View() == Apply(old(View()), ProbeStep(id, probe)) && Inv(View())
      ensures id < |all| && all[id].probes == old(all[id].probes) + [probe] && all[id].loop.AtTest?
      ensures all[id].pingRetrys == FailuresInARow(all[id].probes) && (all[id].isAlive <==> probe.Count?)
      ensures all[id].numClient == LatestCount(all[id].probes)
      ensures old(Orderly(View())) ==> Orderly(View())
    {
      hide Inv, Orderly;
      StepKeeps(View(), ProbeStep(id, probe));
      if Orderly(View()) { StepOrderly(View(), ProbeStep(id, probe)); }
      ProbeFacts(View(), id, probe);
      hide FailuresInARow, LatestCount, Enabled;
      var n := all[id];
      match probe {
        case Failed(queueLen) =>
          if n.isAlive {
            n := n.(isAlive := false);
            if queueLen.Some? && queueLen.value > 0 {
              n := n.(clears := n.clears + 1);
            }
          }
          n := n.(pingRetrys := n.pingRetrys + 1, probes := n.probes + [probe]);
        case Count(clients) =>
          if !n.isAlive {
            n := n.(isAlive := true);
          }
          n := n.(pingRetrys := 0, numClient := clients, probes := n.probes + [probe]);
      }
      all := all[id := n.(loop := AtTest)];
    }
  }

  /** A node at its test has the retries of its history and is not dead. */
  lemma TestFacts(h: Hub, id: nat)
    requires Inv(h) && Enabled(h, TestStep(id))
    ensures h.all[id].pingRetrys == FailuresInARow(h.all[id].probes) && !h.all[id].isDead
  {
    InvKnows(h);
    hide FailuresInARow, OutageStarts, Backlogs, LatestCount;
    assert Heartbeat(h.all[id]);
  }

  lemma ProbeFacts(h: Hub, id: nat, probe: Probe)
    requires Inv(h) && Enabled(h, ProbeStep(id, probe))
    ensures var n, probes := Answer(h.all[id], probe), h.all[id].probes + [probe];
            && n.probes == probes && n.pingRetrys == FailuresInARow(probes) && n.numClient == LatestCount(probes)
            && (n.isAlive <==> probe.Count?) && n.loop.AtTest?
  {
    InvKnows(h);
    assert Heartbeat(h.all[id]);
    FailuresAppend(h.all[id].probes, probe);
    hide FailuresInARow, OutageStarts, Backlogs, LatestCount;
  }
}
