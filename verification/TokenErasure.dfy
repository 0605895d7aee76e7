/** Available reads the clock before it takes the lock, so its reading can be older than that
    of a Take that got the lock first. Whatever the run-level theorems say of grants holds all
    the same: leaving the Availables out changes nothing for anyone who takes tokens. */
module TokenErasure {
  import opened TokenRules
  import opened TokenRuns

  /** Calls in the order of their locked sections. A Take reads the clock inside, hence not
      before any earlier call has read it; an Available may have read it any time before. */
  ghost predicate LockOrdered(p: Params, calls: seq<Call>) {
    && (forall i :: 0 <= i < |calls| ==> calls[i].now >= p.startTime)
    && (forall i, j :: 0 <= i < j < |calls| && !calls[j].AvailableCall? ==> calls[i].now <= calls[j].now)
  }

  /** The calls without the Availables. */
  function Takes(calls: seq<Call>): (r: seq<Call>)
    ensures forall c :: c in r ==> c in calls && !c.AvailableCall?
  {
    if calls == [] then []
    else
      var c := calls[|calls| - 1];
      Takes(calls[..|calls| - 1]) + if c.AvailableCall? then [] else [c]
  }

  lemma {:induction false} TakesTimely(p: Params, calls: seq<Call>)
    requires LockOrdered(p, calls)
    ensures Timely(p, Takes(calls))
  {
    if calls == [] {
    } else {
      var before, c := calls[..|calls| - 1], calls[|calls| - 1];
      TakesTimely(p, before);
      var ts := Takes(before);
      forall i | 0 <= i < |ts|
        ensures p.startTime <= ts[i].now && (!c.AvailableCall? ==> ts[i].now <= c.now)
      {
        assert ts[i] in before;
      }
    }
  }

  /** No refill from tick `t` on tells the two states apart. */
  ghost predicate Alike(p: Params, s: State, s': State, t: int) {
    && s.tokens <= p.capacity && s'.tokens <= p.capacity
    && forall u :: u >= t ==> Adjust(p, s, u) == Adjust(p, s', u)
  }

  lemma AlikeTake(p: Params, s: State, s': State, t: int, c: Call)
    requires p.Valid() && Alike(p, s, s', t) && t <= CurrentTick(p, c.now) && !c.AvailableCall?
    ensures Reply(p, s, c) == Reply(p, s', c) && Granted(p, s, c) == Granted(p, s', c)
    ensures Alike(p, Next(p, s, c), Next(p, s', c), CurrentTick(p, c.now))
  {
    hide CurrentTick, EndTick;
    var tick := CurrentTick(p, c.now);
    assert Adjust(p, s, tick) == Adjust(p, s', tick);
    NextCapped(p, s, c);
    NextCapped(p, s', c);
    hide Adjust;
  }

  lemma AlikeAvailable(p: Params, s: State, s': State, t: int, x: int)
    requires p.Valid() && Alike(p, s, s', t)
    ensures Alike(p, Adjust(p, s, x), s', if x < t then t else x)
  {
    AdjustBound(p, s, x);
    forall u | u >= t && u >= x
      ensures Adjust(p, Adjust(p, s, x), u) == Adjust(p, s', u)
    {
      AdjustTwice(p, s, x, u);
    }
  }

  /** The latest reading of the clock. */
  ghost function Newest(p: Params, calls: seq<Call>): (now: int)
    ensures now >= p.startTime && forall c :: c in calls ==> c.now <= now
  {
    if calls == [] then p.startTime
    else
      var before, c := Newest(p, calls[..|calls| - 1]), calls[|calls| - 1];
      if c.now < before then before else c.now
  }

  lemma {:induction false} NewestBefore(p: Params, calls: seq<Call>, now: int)
    requires now >= p.startTime && forall c :: c in calls ==> c.now <= now
    ensures Newest(p, calls) <= now
  {
    if calls == [] {
    } else {
      NewestBefore(p, calls[..|calls| - 1], now);
    }
  }

  /** Leaving out the Availables changes no grant, and no later refill. */
  lemma {:induction false} Erased(p: Params, calls: seq<Call>)
    requires p.Valid() && LockOrdered(p, calls)
    ensures Grants(p, calls) == Grants(p, Takes(calls))
    ensures Alike(p, Run(p, calls), Run(p, Takes(calls)), CurrentTick(p, Newest(p, calls)))
  {
    if calls == [] {
    } else {
      hide CurrentTick, Granted, Next, Alike;
      var before, c := calls[..|calls| - 1], calls[|calls| - 1];
      Erased(p, before);
      var s, s', ts := Run(p, before), Run(p, Takes(before)), Takes(before);
      var now := Newest(p, before);
      if c.AvailableCall? {
        assert Takes(calls) == ts;
        AvailableErased(p, s, s', now, c);
      } else {
        assert Takes(calls) == ts + [c] && (ts + [c])[..|ts|] == ts;
        NewestBefore(p, before, c.now);
        TickMonotone(p, now, c.now);
        AlikeTake(p, s, s', CurrentTick(p, now), c);
      }
    }
  }

  lemma AvailableErased(p: Params, s: State, s': State, now: int, c: Call)
    requires p.Valid() && c.AvailableCall? && now >= p.startTime && c.now >= p.startTime
    requires Alike(p, s, s', CurrentTick(p, now))
    ensures Granted(p, s, c) == []
    ensures Alike(p, Next(p, s, c), s', CurrentTick(p, if c.now < now then now else c.now))
  {
    var t, x := CurrentTick(p, now), CurrentTick(p, c.now);
    if c.now < now { TickMonotone(p, c.now, now); } else { TickMonotone(p, now, c.now); }
    hide CurrentTick;
    AlikeAvailable(p, s, s', t, x);
  }

  /** Nor any answer to a Take, TakeMaxDuration or TakeAvailable. */
  lemma ErasedReply(p: Params, calls: seq<Call>, c: Call)
    requires p.Valid() && LockOrdered(p, calls + [c]) && !c.AvailableCall?
    ensures Reply(p, Run(p, calls), c) == Reply(p, Run(p, Takes(calls)), c)
  {
    var all := calls + [c];
    assert all[|calls|] == c && forall i :: 0 <= i < |calls| ==> all[i] == calls[i];
    assert LockOrdered(p, calls);
    hide Run, CurrentTick, Reply;
    Erased(p, calls);
    NewestBefore(p, calls, c.now);
    TickMonotone(p, Newest(p, calls), c.now);
    AlikeTake(p, Run(p, calls), Run(p, Takes(calls)), CurrentTick(p, Newest(p, calls)), c);
  }

  /** The rate bound, the window bound and the order of the ready ticks, for all interleavings. */
  lemma StaleRateConformance(p: Params, calls: seq<Call>, t: int)
    requires p.Valid() && LockOrdered(p, calls) && t >= 0
    ensures UsableBy(Grants(p, calls), t) <= p.capacity + t * p.quantum
  {
    Erased(p, calls);
    TakesTimely(p, calls);
    RateConformance(p, Takes(calls), t);
  }

  lemma StaleWindowBound(p: Params, calls: seq<Call>, a: int, b: int)
    requires p.Valid() && LockOrdered(p, calls) && a <= b && forall c :: c in calls ==> !c.TakeCall?
    ensures Within(Grants(p, calls), a, b) <= p.capacity + (b - a) * p.quantum
  {
    Erased(p, calls);
    TakesTimely(p, calls);
    WindowBound(p, Takes(calls), a, b);
  }

  lemma StaleReadyInOrder(p: Params, calls: seq<Call>, i: nat, j: nat)
    requires p.Valid() && LockOrdered(p, calls) && i < j < |Grants(p, calls)|
    ensures Grants(p, calls)[i].ready <= Grants(p, calls)[j].ready
  {
    Erased(p, calls);
    TakesTimely(p, calls);
    ReadyInOrder(p, Takes(calls), i, j);
  }

  /** The state itself does not keep its bound: a stale Available on a full bucket turns the
      tick back and leaves the tokens. */
  lemma StaleStateGoesBack(p: Params)
    requires p.Valid()
    ensures var f, start := p.fillInterval, p.startTime;
            var calls := [TakeAvailableCall(start + f, 1), AvailableCall(start + 2 * f), AvailableCall(start)];
            && LockOrdered(p, calls)
            && Total(Grants(p, calls)) + Run(p, calls).tokens > p.capacity + Run(p, calls).tick * p.quantum
  {
    var f, start := p.fillInterval, p.startTime;
    var calls := [TakeAvailableCall(start + f, 1), AvailableCall(start + 2 * f), AvailableCall(start)];
    TickReached(p, p.startTime + f, 1);
    TickReached(p, p.startTime + f, 2);
    TickReached(p, p.startTime + 2 * f, 2);
    TickReached(p, p.startTime + 2 * f, 3);
    TickReached(p, p.startTime, 0);
    TickReached(p, p.startTime, 1);
    hide CurrentTick;
    assert calls[..2][..1] == calls[..1] && calls[..1][..0] == [];
    assert Run(p, calls[..1]) == State(p.capacity - 1, 1);
    assert Run(p, calls[..2]) == State(p.capacity, 2);
    assert Run(p, calls) == State(p.capacity, 0);
    assert Grants(p, calls[..1]) == [Grant(1, 1, 1)];
    assert Grants(p, calls) == [Grant(1, 1, 1)];
  }
}
