/** What the token bucket guarantees over whole runs of calls with a non-decreasing clock. */
module TokenRuns {
  import opened TokenRules

  // ---------- arithmetic ----------

  lemma MulMonotone(a: int, b: int, q: int)
    requires a <= b && q >= 0
    ensures a * q <= b * q
  {
    assert (b - a) * q >= 0;
    assert b * q - a * q == (b - a) * q;
  }

  lemma TickBounds(p: Params, now: int)
    requires p.Valid() && now >= p.startTime
    ensures var t := CurrentTick(p, now);
            t >= 0 && t * p.fillInterval <= now - p.startTime < (t + 1) * p.fillInterval
  {
    var x, f := now - p.startTime, p.fillInterval;
    assert x == (x / f) * f + x % f;
    assert (x / f + 1) * f == (x / f) * f + f;
  }

  lemma TickMonotone(p: Params, a: int, b: int)
    requires p.Valid() && p.startTime <= a <= b
    ensures CurrentTick(p, a) <= CurrentTick(p, b)
  {
    var s, t, f := CurrentTick(p, a), CurrentTick(p, b), p.fillInterval;
    TickBounds(p, a);
    TickBounds(p, b);
    if t < s {
      MulMonotone(t + 1, s, f);
    }
  }

  /** Time `x` is in tick `t` or later exactly when it is not before the tick's start. */
  lemma TickReached(p: Params, x: int, t: int)
    requires p.Valid() && x >= p.startTime
    ensures CurrentTick(p, x) >= t <==> x >= p.startTime + t * p.fillInterval
  {
    var c, f := CurrentTick(p, x), p.fillInterval;
    TickBounds(p, x);
    if c >= t {
      MulMonotone(t, c, f);
    } else {
      MulMonotone(c + 1, t, f);
    }
  }

  /** The end tick is the first at which the debt is covered. */
  lemma EndTickFirst(p: Params, avail: int, tick: int)
    requires p.Valid() && avail < 0
    ensures var e := EndTick(p, avail, tick);
            e > tick && avail + (e - tick) * p.quantum >= 0 && avail + (e - 1 - tick) * p.quantum < 0
  {
    var q, x := p.quantum, -avail + p.quantum - 1;
    var n := x / q;
    assert x == n * q + x % q;
    assert (n - 1) * q == n * q - q;
    if n < 1 {
      MulMonotone(n, 0, q);
    }
  }

  // ---------- lazy refill is eager refill ----------

  /** One refill of the eager bucket per tick. */
  function Eager(p: Params, tokens: int, ticks: nat): int {
    if ticks == 0 then tokens else Min(p.capacity, Eager(p, tokens, ticks - 1) + p.quantum)
  }

  lemma {:induction false} EagerClosed(p: Params, tokens: int, n: nat)
    requires p.Valid() && tokens <= p.capacity
    ensures Eager(p, tokens, n) == Min(p.capacity, tokens + n * p.quantum)
  {
    if n == 0 {
    } else {
      EagerClosed(p, tokens, n - 1);
      assert n * p.quantum == (n - 1) * p.quantum + p.quantum;
      MulMonotone(0, n, p.quantum);
    }
  }

  lemma LazyIsEager(p: Params, s: State, tick: int)
    requires p.Valid() && s.tokens <= p.capacity && tick >= s.tick
    ensures Adjust(p, s, tick).tokens == Eager(p, s.tokens, tick - s.tick)
  {
    EagerClosed(p, s.tokens, tick - s.tick);
    MulMonotone(0, tick - s.tick, p.quantum);
  }

  /** Refilling on the way changes nothing, even for a tick before the latest one. */
  lemma AdjustTwice(p: Params, s: State, t: int, u: int)
    requires p.Valid() && s.tokens <= p.capacity && t <= u
    ensures Adjust(p, Adjust(p, s, t), u) == Adjust(p, s, u)
  {
    var q := p.quantum;
    assert (u - s.tick) * q == (u - t) * q + (t - s.tick) * q;
    MulMonotone(0, u - t, q);
  }

  // ---------- one reservation ----------

  /** A reservation that has to wait ends exactly when its debt has been refilled: looked at
      from any later time, the bucket is out of debt if and only if the wait is over. */
  lemma WaitExact(p: Params, s: State, now: int, count: int, maxWait: int, later: int)
    requires p.Valid() && s.tokens <= p.capacity && p.startTime <= now <= later
    requires s.tick <= CurrentTick(p, now)
    requires count > 0 && Take(p, s, now, count, maxWait).ok && Take(p, s, now, count, maxWait).s.tokens < 0
    ensures var r := Take(p, s, now, count, maxWait);
            && r.wait > 0
            && (Adjust(p, r.s, CurrentTick(p, later)).tokens >= 0 <==> later >= now + r.wait)
  {
    hide EndTick, CurrentTick;
    var r, tick, c := Take(p, s, now, count, maxWait), CurrentTick(p, now), CurrentTick(p, later);
    var e := EndTick(p, r.s.tokens, tick);
    TickMonotone(p, now, later);
    TickReached(p, later, e);
    TickReached(p, now, e);
    EndTickFirst(p, r.s.tokens, tick);
    if c >= e {
      MulMonotone(e - tick, c - tick, p.quantum);
    } else {
      MulMonotone(c - tick, e - 1 - tick, p.quantum);
    }
  }

  // ---------- runs ----------

  /** Take is TakeMaxDuration without a limit on the wait. */
  datatype Call =
    | TakeCall(now: int, count: int, maxWait: int)
    | TakeAvailableCall(now: int, count: int)
    | AvailableCall(now: int)

  /** `tokens` tokens handed out at tick `tick`, usable from tick `ready`. */
  datatype Grant = Grant(tokens: int, tick: int, ready: int)

  /** What a caller sees: the wait, the tokens taken or the tokens left, and success. */
  datatype Answer = Answer(value: int, ok: bool)

  function Next(p: Params, s: State, c: Call): State
    requires p.Valid()
  {
    match c
    case TakeCall(now, count, maxWait) => Take(p, s, now, count, maxWait).s
    case TakeAvailableCall(now, count) => TakeAvailable(p, s, now, count).0
    case AvailableCall(now) => Adjust(p, s, CurrentTick(p, now))
  }

  function Reply(p: Params, s: State, c: Call): Answer
    requires p.Valid()
  {
    match c
    case TakeCall(now, count, maxWait) => var r := Take(p, s, now, count, maxWait); Answer(r.wait, r.ok)
    case TakeAvailableCall(now, count) => Answer(TakeAvailable(p, s, now, count).1, true)
    case AvailableCall(now) => Answer(Adjust(p, s, CurrentTick(p, now)).tokens, true)
  }

  /** The grant that a call makes, if any. */
  function Granted(p: Params, s: State, c: Call): seq<Grant>
    requires p.Valid()
  {
    var tick := CurrentTick(p, c.now);
    match c
    case TakeCall(now, count, maxWait) =>
      var r := Take(p, s, now, count, maxWait);
      if count <= 0 || !r.ok then []
      else [Grant(count, tick, if r.s.tokens >= 0 then tick else EndTick(p, r.s.tokens, tick))]
    case TakeAvailableCall(now, count) =>
      var taken := TakeAvailable(p, s, now, count).1;
      if taken == 0 then [] else [Grant(taken, tick, tick)]
    case AvailableCall(_) => []
  }

  function Initial(p: Params): State { State(p.capacity, 0) }

  function Run(p: Params, calls: seq<Call>): State
    requires p.Valid()
  {
    if calls == [] then Initial(p) else Next(p, Run(p, calls[..|calls| - 1]), calls[|calls| - 1])
  }

  function Grants(p: Params, calls: seq<Call>): seq<Grant>
    requires p.Valid()
  {
    if calls == [] then []
    else
      var before := calls[..|calls| - 1];
      Grants(p, before) + Granted(p, Run(p, before), calls[|calls| - 1])
  }

  /** The clock starts at the bucket's creation and never goes back. */
  ghost predicate Timely(p: Params, calls: seq<Call>) {
    && (forall i :: 0 <= i < |calls| ==> calls[i].now >= p.startTime)
    && (forall i, j :: 0 <= i < j < |calls| ==> calls[i].now <= calls[j].now)
  }

  function Total(gs: seq<Grant>): int {
    if gs == [] then 0 else Total(gs[..|gs| - 1]) + gs[|gs| - 1].tokens
  }

  /** The tokens that are usable at tick `t`. */
  function UsableBy(gs: seq<Grant>, t: int): int {
    if gs == [] then 0
    else UsableBy(gs[..|gs| - 1], t) + if gs[|gs| - 1].ready <= t then gs[|gs| - 1].tokens else 0
  }

  /** The tokens handed out from tick `a` to tick `b`. */
  function Within(gs: seq<Grant>, a: int, b: int): int {
    if gs == [] then 0
    else Within(gs[..|gs| - 1], a, b) + if a <= gs[|gs| - 1].tick <= b then gs[|gs| - 1].tokens else 0
  }

  /** The tick from which the bucket is out of debt. */
  function Cleared(p: Params, s: State): int
    requires p.Valid()
  {
    if s.tokens >= 0 then s.tick else EndTick(p, s.tokens, s.tick)
  }

  /** What every call keeps. `total` is all that has been granted, `ready` the latest ready
      tick and `now` the latest reading of the clock. */
  ghost predicate Inv(p: Params, s: State, total: int, ready: int, now: int)
    requires p.Valid() && now >= p.startTime
  {
    && 0 <= s.tick <= CurrentTick(p, now)
    && s.tokens <= p.capacity
    && total + s.tokens <= p.capacity + s.tick * p.quantum
    && ready <= Cleared(p, s)
  }

  lemma AdjustInv(p: Params, s: State, total: int, ready: int, now: int, now': int)
    requires p.Valid() && p.startTime <= now <= now' && Inv(p, s, total, ready, now)
    ensures Inv(p, Adjust(p, s, CurrentTick(p, now')), total, ready, now')
  {
    hide EndTick, CurrentTick;
    var t, q := CurrentTick(p, now'), p.quantum;
    TickMonotone(p, now, now');
    assert t * q == s.tick * q + (t - s.tick) * q;
    MulMonotone(0, t - s.tick, q);
    if s.tokens < 0 {
      var e, s' := EndTick(p, s.tokens, s.tick), Adjust(p, s, t);
      EndTickFirst(p, s.tokens, s.tick);
      if s'.tokens >= 0 {
        if t < e { MulMonotone(t - s.tick, e - 1 - s.tick, q); }
      } else {
        var e' := EndTick(p, s'.tokens, t);
        EndTickFirst(p, s'.tokens, t);
        assert s'.tokens + (e' - t) * q == s.tokens + (e' - s.tick) * q;
        if e' < e { MulMonotone(e' - s.tick, e - 1 - s.tick, q); }
      }
    }
  }

  /** Taking `count` tokens out of an adjusted bucket. */
  lemma DebitInv(p: Params, s: State, total: int, ready: int, now: int, count: int)
    requires p.Valid() && now >= p.startTime && Inv(p, s, total, ready, now) && count > 0
    ensures var s' := s.(tokens := s.tokens - count);
            && Inv(p, s', total + count, Cleared(p, s'), now)
            && ready <= Cleared(p, s')
            && total + count <= p.capacity + Cleared(p, s') * p.quantum
  {
    hide EndTick, CurrentTick;
    var s', q := s.(tokens := s.tokens - count), p.quantum;
    if s'.tokens < 0 {
      var e' := EndTick(p, s'.tokens, s.tick);
      EndTickFirst(p, s'.tokens, s.tick);
      assert e' * q == s.tick * q + (e' - s.tick) * q;
      if s.tokens < 0 {
        var e := EndTick(p, s.tokens, s.tick);
        EndTickFirst(p, s.tokens, s.tick);
        if e' < e { MulMonotone(e' - s.tick, e - 1 - s.tick, q); }
      }
    }
  }

  /** One call: the invariant, and what its grant, if any, satisfies. */
  lemma CallInv(p: Params, s: State, total: int, ready: int, now: int, c: Call)
    requires p.Valid() && p.startTime <= now <= c.now && Inv(p, s, total, ready, now)
    ensures var gs, s' := Granted(p, s, c), Next(p, s, c);
            && |gs| <= 1
            && (gs == [] ==> Inv(p, s', total, ready, c.now))
            && (gs != [] ==>
                  && gs[0].tokens > 0 && gs[0].tick == s'.tick && ready <= gs[0].ready
                  && Inv(p, s', total + gs[0].tokens, gs[0].ready, c.now)
                  && total + gs[0].tokens <= p.capacity + gs[0].ready * p.quantum)
  {
    hide EndTick, CurrentTick;
    AdjustInv(p, s, total, ready, now, c.now);
    TickMonotone(p, now, c.now);
    var s1 := Adjust(p, s, CurrentTick(p, c.now));
    var gs := Granted(p, s, c);
    if gs != [] {
      DebitInv(p, s1, total, ready, c.now, gs[0].tokens);
    }
  }

  /** The latest reading of the clock. */
  ghost function Clock(p: Params, calls: seq<Call>): int {
    if calls == [] then p.startTime else calls[|calls| - 1].now
  }

  ghost function LastReady(gs: seq<Grant>): int {
    if gs == [] then 0 else gs[|gs| - 1].ready
  }

  lemma InitialInv(p: Params)
    requires p.Valid()
    ensures Inv(p, Initial(p), 0, 0, p.startTime)
  {
    TickBounds(p, p.startTime);
  }

  lemma {:induction false} RunInv(p: Params, calls: seq<Call>)
    requires p.Valid() && Timely(p, calls)
    ensures Clock(p, calls) >= p.startTime
    ensures Inv(p, Run(p, calls), Total(Grants(p, calls)), LastReady(Grants(p, calls)), Clock(p, calls))
  {
    if calls == [] {
      InitialInv(p);
    } else {
      var before, c := calls[..|calls| - 1], calls[|calls| - 1];
      TimelyLast(p, calls);
      RunLast(p, calls);
      hide Run, Grants, Granted, Next, CurrentTick, Inv, Timely, Total;
      RunInv(p, before);
      var gs, g := Grants(p, before), Granted(p, Run(p, before), c);
      CallInv(p, Run(p, before), Total(gs), LastReady(gs), Clock(p, before), c);
      TotalAppend(gs, g, 0);
      if g == [] {
        assert gs + g == gs;
      }
    }
  }

  lemma TimelyLast(p: Params, calls: seq<Call>)
    requires Timely(p, calls) && calls != []
    ensures Timely(p, calls[..|calls| - 1]) && p.startTime <= Clock(p, calls[..|calls| - 1]) <= calls[|calls| - 1].now
  {
  }

  lemma RunLast(p: Params, calls: seq<Call>)
    requires p.Valid() && calls != []
    ensures var before, c := calls[..|calls| - 1], calls[|calls| - 1];
            && Run(p, calls) == Next(p, Run(p, before), c)
            && Grants(p, calls) == Grants(p, before) + Granted(p, Run(p, before), c)
  {
  }

  /** No later taker overtakes an earlier one: ready ticks never decrease. */
  lemma {:induction false} ReadyInOrder(p: Params, calls: seq<Call>, i: nat, j: nat)
    requires p.Valid() && Timely(p, calls) && i < j < |Grants(p, calls)|
    ensures Grants(p, calls)[i].ready <= Grants(p, calls)[j].ready
  {
    hide Granted, Next, Inv;
    var before, c := calls[..|calls| - 1], calls[|calls| - 1];
    var gs := Grants(p, before);
    if j < |gs| {
      ReadyInOrder(p, before, i, j);
    } else {
      RunInv(p, before);
      CallInv(p, Run(p, before), Total(gs), LastReady(gs), Clock(p, before), c);
      if i < |gs| - 1 {
        ReadyInOrder(p, before, i, |gs| - 1);
      }
    }
  }

  lemma TotalAppend(gs: seq<Grant>, g: seq<Grant>, t: int)
    requires |g| <= 1
    ensures Total(gs + g) == Total(gs) + if g != [] then g[0].tokens else 0
    ensures UsableBy(gs + g, t) == UsableBy(gs, t) + if g != [] && g[0].ready <= t then g[0].tokens else 0
  {
    if g == [] {
      assert gs + g == gs;
    } else {
      assert (gs + g)[..|gs|] == gs;
    }
  }

  /** What the latest call has granted, if anything. */
  lemma LatestGrant(p: Params, calls: seq<Call>, t: int) returns (gs: seq<Grant>, g: seq<Grant>)
    requires p.Valid() && Timely(p, calls) && calls != []
    ensures gs == Grants(p, calls[..|calls| - 1]) && Grants(p, calls) == gs + g && |g| <= 1
    ensures g != [] ==> g[0].tokens > 0
    ensures g != [] && g[0].ready <= t ==> Total(gs) + g[0].tokens <= p.capacity + t * p.quantum
  {
    hide Granted, Next, CurrentTick, EndTick;
    var before, c := calls[..|calls| - 1], calls[|calls| - 1];
    RunInv(p, before);
    gs, g := Grants(p, before), Granted(p, Run(p, before), c);
    CallInv(p, Run(p, before), Total(gs), LastReady(gs), Clock(p, before), c);
    if g != [] && g[0].ready <= t { MulMonotone(g[0].ready, t, p.quantum); }
  }

  lemma {:induction false} UsableAtMostTotal(p: Params, calls: seq<Call>, t: int)
    requires p.Valid() && Timely(p, calls)
    ensures UsableBy(Grants(p, calls), t) <= Total(Grants(p, calls))
  {
    if calls == [] {
    } else {
      var gs, g := LatestGrant(p, calls, t);
      hide Grants, Total, UsableBy;
      UsableAtMostTotal(p, calls[..|calls| - 1], t);
      TotalAppend(gs, g, t);
    }
  }

  /** Rate conformance: however Take, TakeMaxDuration and TakeAvailable are mixed, the tokens
      usable by tick `t` never exceed what the bucket held and received until then. */
  lemma {:induction false} RateConformance(p: Params, calls: seq<Call>, t: int)
    requires p.Valid() && Timely(p, calls) && t >= 0
    ensures UsableBy(Grants(p, calls), t) <= p.capacity + t * p.quantum
  {
    if calls == [] {
      MulMonotone(0, t, p.quantum);
    } else {
      var gs, g := LatestGrant(p, calls, t);
      hide Grants, Total, UsableBy;
      RateConformance(p, calls[..|calls| - 1], t);
      UsableAtMostTotal(p, calls[..|calls| - 1], t);
      TotalAppend(gs, g, t);
    }
  }

  // ---------- runs of TakeAvailable only ----------

  ghost predicate OnlyTakeAvailable(calls: seq<Call>) {
    forall i :: 0 <= i < |calls| ==> calls[i].TakeAvailableCall?
  }

  /** The tokens handed out from tick `a` on. */
  function Since(gs: seq<Grant>, a: int): int {
    if gs == [] then 0 else Since(gs[..|gs| - 1], a) + if a <= gs[|gs| - 1].tick then gs[|gs| - 1].tokens else 0
  }

  /** One TakeAvailable, for a window that opens at tick `a` with `w` handed out so far. */
  ghost predicate WindowInv(p: Params, s: State, w: int, a: int) {
    && 0 <= s.tokens <= p.capacity
    && (s.tick < a ==> w == 0)
    && (s.tick >= a ==> w + s.tokens <= p.capacity + (s.tick - a) * p.quantum)
  }

  lemma WindowStep(p: Params, s: State, w: int, a: int, c: Call)
    requires p.Valid() && c.TakeAvailableCall? && WindowInv(p, s, w, a) && s.tick <= CurrentTick(p, c.now)
    ensures var g := Granted(p, s, c);
            WindowInv(p, Next(p, s, c), w + (if g != [] && a <= g[0].tick then g[0].tokens else 0), a)
  {
    hide CurrentTick;
    var tick, q := CurrentTick(p, c.now), p.quantum;
    MulMonotone(0, tick - s.tick, q);
    assert (tick - a) * q == (s.tick - a) * q + (tick - s.tick) * q;
    if tick >= a { MulMonotone(0, tick - a, q); }
  }

  lemma WindowStart(p: Params, a: int)
    requires p.Valid()
    ensures WindowInv(p, Initial(p), 0, a)
  {
    if a <= 0 { MulMonotone(0, -a, p.quantum); }
  }

  lemma {:induction false} SinceInv(p: Params, calls: seq<Call>, a: int)
    requires p.Valid() && Timely(p, calls) && OnlyTakeAvailable(calls)
    ensures WindowInv(p, Run(p, calls), Since(Grants(p, calls), a), a)
  {
    hide WindowInv, Granted, Next, CurrentTick, EndTick;
    if calls == [] {
      WindowStart(p, a);
    } else {
      var before, c := calls[..|calls| - 1], calls[|calls| - 1];
      SinceInv(p, before, a);
      RunInv(p, before);
      var gs, s := Grants(p, before), Run(p, before);
      TickMonotone(p, Clock(p, before), c.now);
      CallInv(p, s, Total(gs), LastReady(gs), Clock(p, before), c);
      WindowStep(p, s, Since(gs, a), a, c);
      SinceAppend(gs, Granted(p, s, c), a);
    }
  }

  lemma SinceAppend(gs: seq<Grant>, g: seq<Grant>, a: int)
    requires |g| <= 1
    ensures Since(gs + g, a) == Since(gs, a) + if g != [] && a <= g[0].tick then g[0].tokens else 0
  {
    if g == [] {
      assert gs + g == gs;
    } else {
      assert (gs + g)[..|gs|] == gs;
    }
  }

  lemma {:induction false} WithinAtMostSince(p: Params, calls: seq<Call>, a: int, b: int)
    requires p.Valid() && Timely(p, calls)
    ensures Within(Grants(p, calls), a, b) <= Since(Grants(p, calls), a)
  {
    if calls == [] {
    } else {
      var gs, g := LatestGrant(p, calls, 0);
      hide Grants, Within, Since;
      WithinAtMostSince(p, calls[..|calls| - 1], a, b);
      WithinAppend(gs, g, a, b);
      SinceAppend(gs, g, a);
    }
  }

  lemma GrantTick(p: Params, s: State, c: Call)
    requires p.Valid() && Granted(p, s, c) != []
    ensures |Granted(p, s, c)| == 1 && Granted(p, s, c)[0].tick == Next(p, s, c).tick
  {
  }

  lemma SinceBound(p: Params, calls: seq<Call>, a: int, b: int)
    requires p.Valid() && Timely(p, calls) && OnlyTakeAvailable(calls) && a <= Run(p, calls).tick <= b
    ensures Since(Grants(p, calls), a) <= p.capacity + (b - a) * p.quantum
  {
    SinceInv(p, calls, a);
    MulMonotone(Run(p, calls).tick - a, b - a, p.quantum);
  }

  lemma WithinAppend(gs: seq<Grant>, g: seq<Grant>, a: int, b: int)
    requires |g| <= 1
    ensures Within(gs + g, a, b) == Within(gs, a, b) + if g != [] && a <= g[0].tick <= b then g[0].tokens else 0
  {
    if g == [] {
      assert gs + g == gs;
    } else {
      assert (gs + g)[..|gs|] == gs;
    }
  }

  /** In any window of ticks, TakeAvailable hands out at most one full bucket and the refills
      of that window. */
  lemma {:induction false} WindowBound(p: Params, calls: seq<Call>, a: int, b: int)
    requires p.Valid() && Timely(p, calls) && OnlyTakeAvailable(calls) && a <= b
    ensures Within(Grants(p, calls), a, b) <= p.capacity + (b - a) * p.quantum
  {
    MulMonotone(0, b - a, p.quantum);
    if calls == [] {
      assert Within([], a, b) == 0;
    } else {
      hide Granted, Next, Within, Since, Run;
      var before, c := calls[..|calls| - 1], calls[|calls| - 1];
      WindowBound(p, before, a, b);
      var gs, g := Grants(p, before), Granted(p, Run(p, before), c);
      if g == [] {
        assert gs + g == gs;
      } else {
        GrantTick(p, Run(p, before), c);
        RunLast(p, calls);
        WithinAppend(gs, g, a, b);
        if a <= g[0].tick <= b {
          SinceBound(p, calls, a, b);
          WithinAtMostSince(p, calls, a, b);
        }
      }
    }
  }

  // ---------- calls that leave no trace ----------

  /** What the callers of `calls` see, starting from state `s`. */
  function Replies(p: Params, s: State, calls: seq<Call>): seq<Answer>
    requires p.Valid()
    decreases |calls|
  {
    if calls == [] then [] else [Reply(p, s, calls[0])] + Replies(p, Next(p, s, calls[0]), calls[1..])
  }

  /** One call after an extra refill: the same answer, and the same state or no change. */
  lemma SameReply(p: Params, s: State, t: int, c: Call)
    requires p.Valid() && s.tokens <= p.capacity && t <= CurrentTick(p, c.now)
    ensures var s1 := Adjust(p, s, t);
            && Reply(p, s1, c) == Reply(p, s, c)
            && (Next(p, s1, c) == Next(p, s, c) || (Next(p, s1, c) == s1 && Next(p, s, c) == s))
  {
    AdjustTwice(p, s, t, CurrentTick(p, c.now));
    hide Adjust, CurrentTick;
  }

  lemma {:induction false} SameReplies(p: Params, s: State, now: int, calls: seq<Call>)
    requires p.Valid() && s.tokens <= p.capacity && now >= p.startTime
    requires forall i :: 0 <= i < |calls| ==> now <= calls[i].now
    ensures Replies(p, Adjust(p, s, CurrentTick(p, now)), calls) == Replies(p, s, calls)
    decreases |calls|
  {
    hide Adjust, CurrentTick, Reply, Next;
    if calls == [] {
    } else {
      var s1, c := Adjust(p, s, CurrentTick(p, now)), calls[0];
      TickMonotone(p, now, c.now);
      SameReply(p, s, CurrentTick(p, now), c);
      if Next(p, s1, c) != Next(p, s, c) {
        SameReplies(p, s, now, calls[1..]);
      }
    }
  }

  lemma NextCapped(p: Params, s: State, c: Call)
    requires p.Valid() && s.tokens <= p.capacity
    ensures Next(p, s, c).tokens <= p.capacity
  {
    hide CurrentTick, EndTick;
  }

  /** The bucket never holds more than its capacity, whatever the clock does. */
  lemma {:induction false} RunCapped(p: Params, calls: seq<Call>)
    requires p.Valid()
    ensures Run(p, calls).tokens <= p.capacity
  {
    if calls == [] {
    } else {
      hide Next;
      RunCapped(p, calls[..|calls| - 1]);
      NextCapped(p, Run(p, calls[..|calls| - 1]), calls[|calls| - 1]);
    }
  }

  /** Asking for Available, or being refused by TakeMaxDuration, changes no later answer. The
      calls before may have read the clock in any order; an Available may have read it before
      a Take that got the lock first. */
  lemma {:induction false} NoTrace(p: Params, before: seq<Call>, c: Call, after: seq<Call>)
    requires p.Valid() && c.now >= p.startTime && forall i :: 0 <= i < |after| ==> c.now <= after[i].now
    requires c.AvailableCall? || (c.TakeCall? && !Reply(p, Run(p, before), c).ok)
    ensures Replies(p, Run(p, before + [c]), after) == Replies(p, Run(p, before), after)
  {
    RunCapped(p, before);
    RunLast(p, before + [c]);
    assert (before + [c])[..|before|] == before;
    OnlyRefills(p, Run(p, before), c);
    hide Run, Next, Reply, Replies;
    SameReplies(p, Run(p, before), c.now, after);
  }

  lemma OnlyRefills(p: Params, s: State, c: Call)
    requires p.Valid() && (c.AvailableCall? || (c.TakeCall? && !Reply(p, s, c).ok))
    ensures Next(p, s, c) == Adjust(p, s, CurrentTick(p, c.now))
  {
    hide Adjust, CurrentTick, EndTick;
  }

  // ---------- the eager bucket ----------

  /** Refills, one tick each, until a debt is repaid. */
  function TicksToRepay(p: Params, tokens: int): nat
    requires p.Valid()
    decreases if tokens < 0 then -tokens else 0
  {
    if tokens >= 0 then 0 else 1 + TicksToRepay(p, tokens + p.quantum)
  }

  /** What a call returns, and the tokens left, in a bucket that holds `x` tokens in tick
      `tick`; no division and no lazy refill. */
  function EagerCall(p: Params, x: int, tick: int, c: Call): (int, Answer)
    requires p.Valid()
  {
    match c
    case TakeCall(now, count, maxWait) =>
      if count <= 0 then (x, Answer(0, true))
      else if x >= count then (x - count, Answer(0, true))
      else
        var wait := p.startTime + (tick + TicksToRepay(p, x - count)) * p.fillInterval - now;
        if wait > maxWait then (x, Answer(0, false)) else (x - count, Answer(wait, true))
    case TakeAvailableCall(_, count) =>
      var taken := if count <= 0 || x <= 0 then 0 else Min(count, x);
      (x - taken, Answer(taken, true))
    case AvailableCall(_) => (x, Answer(x, true))
  }

  /** What the callers of an eager bucket see: it refills once in every tick that passes. */
  function EagerReplies(p: Params, x: int, tick: int, calls: seq<Call>): seq<Answer>
    requires p.Valid()
    decreases |calls|
  {
    if calls == [] then [] else
      var t := CurrentTick(p, calls[0].now);
      var full := Eager(p, x, if t < tick then 0 else t - tick);
      var (rest, answer) := EagerCall(p, full, t, calls[0]);
      [answer] + EagerReplies(p, rest, t, calls[1..])
  }

  lemma {:induction false} RepayTicks(p: Params, tokens: int, tick: int)
    requires p.Valid() && tokens < 0
    ensures tick + TicksToRepay(p, tokens) == EndTick(p, tokens, tick)
    decreases -tokens
  {
    var q, e := p.quantum, EndTick(p, tokens, tick);
    EndTickFirst(p, tokens, tick);
    assert tokens + (e - tick) * q == (tokens + q) + (e - 1 - tick) * q;
    if tokens + q < 0 {
      RepayTicks(p, tokens + q, tick);
      EndTickFirst(p, tokens + q, tick);
      EndTickUnique(p, tokens, tick, EndTick(p, tokens + q, tick) + 1);
    } else {
      EndTickUnique(p, tokens, tick, tick + 1);
    }
  }

  lemma EndTickUnique(p: Params, tokens: int, tick: int, e: int)
    requires p.Valid() && tokens < 0
    requires tokens + (e - tick) * p.quantum >= 0 && tokens + (e - 1 - tick) * p.quantum < 0
    ensures EndTick(p, tokens, tick) == e
  {
    hide EndTick;
    var e', q := EndTick(p, tokens, tick), p.quantum;
    EndTickFirst(p, tokens, tick);
    if e' < e { MulMonotone(e' - tick, e - 1 - tick, q); }
    if e < e' { MulMonotone(e - tick, e' - 1 - tick, q); }
  }

  /** One call: lazy and eager agree if they agree on the tokens of the current tick. */
  lemma EagerCallSame(p: Params, s: State, c: Call)
    requires p.Valid()
    ensures var tick := CurrentTick(p, c.now); var s1 := Adjust(p, s, tick);
            var (rest, answer) := EagerCall(p, s1.tokens, tick, c);
            && answer == Reply(p, s, c)
            && (Next(p, s, c) == State(rest, tick) || (Next(p, s, c) == s && rest == s1.tokens))
  {
    hide Adjust, CurrentTick, EndTick;
    var tick := CurrentTick(p, c.now);
    var s1 := Adjust(p, s, tick);
    assert s1.tick == tick by { AdjustTick(p, s, tick); }
    if c.TakeCall? && s1.tokens - c.count < 0 {
      RepayTicks(p, s1.tokens - c.count, tick);
    }
  }

  lemma AdjustTick(p: Params, s: State, tick: int)
    ensures Adjust(p, s, tick).tick == tick
  {
  }

  /** The lazy bucket is the eager one: no caller can tell them apart, from any state on. */
  lemma {:induction false} LazyRunIsEager(p: Params, s: State, x: int, now: int, calls: seq<Call>)
    requires p.Valid() && s.tokens <= p.capacity && now >= p.startTime && s.tick <= CurrentTick(p, now)
    requires x == Adjust(p, s, CurrentTick(p, now)).tokens
    requires Timely(p, calls) && (forall i :: 0 <= i < |calls| ==> now <= calls[i].now)
    ensures Replies(p, s, calls) == EagerReplies(p, x, CurrentTick(p, now), calls)
    decreases |calls|
  {
    if calls == [] {
    } else {
      hide Adjust, CurrentTick, Reply, Next, EagerCall;
      var c := calls[0];
      var t0, t := CurrentTick(p, now), CurrentTick(p, c.now);
      TickMonotone(p, now, c.now);
      AdjustTwice(p, s, t0, t);
      AdjustBound(p, s, t0);
      AdjustTick(p, s, t0);
      LazyIsEager(p, Adjust(p, s, t0), t);
      EagerCallSame(p, s, c);
      var (rest, _) := EagerCall(p, Adjust(p, s, t).tokens, t, c);
      var s' := Next(p, s, c);
      AdjustBound(p, s, t);
      EagerCallLess(p, Adjust(p, s, t).tokens, t, c);
      AdjustSame(p, s', t);
      LazyRunIsEager(p, s', rest, c.now, calls[1..]);
    }
  }

  /** From its creation on. */
  lemma LazyBucketIsEager(p: Params, calls: seq<Call>)
    requires p.Valid() && Timely(p, calls)
    ensures Replies(p, Initial(p), calls) == EagerReplies(p, p.capacity, 0, calls)
  {
    TickBounds(p, p.startTime);
    TickReached(p, p.startTime, 1);
    LazyRunIsEager(p, Initial(p), p.capacity, p.startTime, calls);
  }

  lemma AdjustBound(p: Params, s: State, tick: int)
    requires s.tokens <= p.capacity
    ensures Adjust(p, s, tick).tokens <= p.capacity
  {
  }

  lemma AdjustSame(p: Params, s: State, tick: int)
    requires s.tokens <= p.capacity
    ensures s.tick == tick ==> Adjust(p, s, tick) == s
  {
  }

  lemma EagerCallLess(p: Params, x: int, tick: int, c: Call)
    requires p.Valid()
    ensures EagerCall(p, x, tick, c).0 <= x
  {
  }

  // ---------- 64-bit arithmetic ----------

  const MAX64 := 0x7FFF_FFFF_FFFF_FFFF

  predicate Int64(x: int) { -MAX64 - 1 <= x <= MAX64 }

  /** Every value that TakeAvailable computes fits into 64 bits. */
  predicate Fits(p: Params, s: State, c: Call)
    requires p.Valid() && c.TakeAvailableCall?
  {
    var elapsed, tick := c.now - p.startTime, CurrentTick(p, c.now);
    c.count <= 0 ||
    (&& Int64(elapsed) && Int64(tick) && Int64(tick - s.tick)
     && (s.tokens >= p.capacity ||
         (Int64((tick - s.tick) * p.quantum) && Int64(s.tokens + (tick - s.tick) * p.quantum)))
     && Int64(TakeAvailable(p, s, c.now, c.count).0.tokens))
  }

  /** The condition on the parameters, computable when the bucket is made. */
  predicate Roomy(p: Params)
    requires p.Valid()
  {
    p.capacity - 1 + (MAX64 / p.fillInterval) * p.quantum <= MAX64
  }

  lemma RoomyFitsOnce(p: Params, s: State, c: Call)
    requires p.Valid() && Int64(p.capacity) && Roomy(p) && c.TakeAvailableCall?
    requires p.startTime <= c.now <= p.startTime + MAX64
    requires 0 <= s.tokens <= p.capacity && 0 <= s.tick <= CurrentTick(p, c.now)
    ensures Fits(p, s, c)
  {
    var tick, q := CurrentTick(p, c.now), p.quantum;
    TickBounds(p, c.now);
    TickMonotone(p, c.now, p.startTime + MAX64);
    MulMonotone(tick - s.tick, MAX64 / p.fillInterval, q);
    MulMonotone(0, tick - s.tick, q);
    MulMonotone(1, p.fillInterval, tick);
  }

  /** With room, no run of TakeAvailable ever overflows, however long the clock runs. */
  lemma RoomyFits(p: Params, calls: seq<Call>, c: Call)
    requires p.Valid() && Int64(p.capacity) && Roomy(p) && c.TakeAvailableCall?
    requires Timely(p, calls + [c]) && OnlyTakeAvailable(calls) && c.now - p.startTime <= MAX64
    ensures Fits(p, Run(p, calls), c)
  {
    hide Roomy, Fits;
    var all := calls + [c];
    assert forall i :: 0 <= i < |calls| ==> calls[i] == all[i];
    assert all[|calls|] == c;
    SinceInv(p, calls, 0);
    RunInv(p, calls);
    TickMonotone(p, Clock(p, calls), c.now);
    RoomyFitsOnce(p, Run(p, calls), c);
  }

  /** Without room, two calls overflow: one token at the start and one when the clock is at
      its last whole tick. */
  lemma CrampedOverflows(p: Params)
    requires p.Valid() && !Roomy(p)
    ensures var first := TakeAvailableCall(p.startTime, 1);
            var last := TakeAvailableCall(p.startTime + (MAX64 / p.fillInterval) * p.fillInterval, 1);
            && Timely(p, [first, last]) && last.now - p.startTime <= MAX64
            && !Fits(p, Run(p, [first]), last)
  {
    var m := MAX64 / p.fillInterval;
    var first, last := TakeAvailableCall(p.startTime, 1), TakeAvailableCall(p.startTime + m * p.fillInterval, 1);
    MulMonotone(0, m, p.fillInterval);
    TickBounds(p, p.startTime);
    TickBounds(p, last.now);
    TickReached(p, last.now, m);
    TickReached(p, last.now, m + 1);
    TickReached(p, p.startTime, 1);
    assert (m + 1) * p.fillInterval == m * p.fillInterval + p.fillInterval;
    assert [first][..0] == [];
    assert Run(p, [first]) == State(p.capacity - 1, 0);
  }

  /** The server's bucket: one second, capacity and quantum both the configured rate. */
  lemma ServerRate(start: int, rate: int)
    requires rate > 0
    ensures Roomy(Params(start, rate, rate, 1_000_000_000)) <==> rate <= 999_999_999
  {
  }
}
