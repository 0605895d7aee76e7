/** The rules of the token bucket in util/ratelimit: lazy refill in whole ticks, debt and
    reservations. */
module TokenRules {

  datatype Params = Params(startTime: int, capacity: int, quantum: int, fillInterval: int) {
    predicate Valid() { capacity > 0 && quantum > 0 && fillInterval > 0 }
  }

  datatype State = State(tokens: int, tick: int)

  /** Go's integer division: towards zero. */
  function QuoTowardsZero(x: int, y: int): int
    requires y > 0
  {
    if x >= 0 then x / y else -((-x) / y)
  }

  function CurrentTick(p: Params, now: int): int
    requires p.Valid()
  {
    QuoTowardsZero(now - p.startTime, p.fillInterval)
  }

  function Min(a: int, b: int): int { if a < b then a else b }

  function Adjust(p: Params, s: State, tick: int): State {
    State(if s.tokens >= p.capacity then s.tokens else Min(p.capacity, s.tokens + (tick - s.tick) * p.quantum), tick)
  }

  /** The tick at which a debt of `-avail` tokens will have been repaid. */
  function EndTick(p: Params, avail: int, tick: int): int
    requires p.Valid()
  {
    tick + QuoTowardsZero(-avail + p.quantum - 1, p.quantum)
  }

  datatype Outcome = Outcome(s: State, wait: int, ok: bool)

  function Take(p: Params, s: State, now: int, count: int, maxWait: int): Outcome
    requires p.Valid()
  {
    if count <= 0 then Outcome(s, 0, true) else
      var tick := CurrentTick(p, now);
      var s1 := Adjust(p, s, tick);
      var avail := s1.tokens - count;
      if avail >= 0 then Outcome(s1.(tokens := avail), 0, true) else
        var wait := p.startTime + EndTick(p, avail, tick) * p.fillInterval - now;
        if wait > maxWait then Outcome(s1, 0, false) else Outcome(s1.(tokens := avail), wait, true)
  }

  function TakeAvailable(p: Params, s: State, now: int, count: int): (State, int)
    requires p.Valid()
  {
    if count <= 0 then (s, 0) else
      var s1 := Adjust(p, s, CurrentTick(p, now));
      if s1.tokens <= 0 then (s1, 0) else
        var taken := Min(count, s1.tokens);
        (s1.(tokens := s1.tokens - taken), taken)
  }
}

/** The bucket itself; each method is one locked section, given the clock's reading. */
module TokenBucket {
  import opened TokenRules

  class Bucket {
    const p: Params
    var availableTokens: int
    var latestTick: int

    ghost function View(): State
      reads this
    {
      State(availableTokens, latestTick)
    }

    constructor (fillInterval: int, capacity: int, quantum: int, now: int)
      ensures p == Params(now, capacity, quantum, fillInterval)
      ensures View() == State(capacity, 0)
    {
      p := Params(now, capacity, quantum, fillInterval);
      availableTokens, latestTick := capacity, 0;
    }

    method AdjustAvailableTokens(tick: int)
      modifies this
      ensures View() == Adjust(p, old(View()), tick)
    {
      var lastTick := latestTick;
      latestTick := tick;
      if availableTokens >= p.capacity {
        return;
      }
      availableTokens := availableTokens + (tick - lastTick) * p.quantum;
      if availableTokens > p.capacity {
        availableTokens := p.capacity;
      }
    }

    method Take(now: int, count: int, maxWait: int) returns (wait: int, ok: bool)
      requires p.Valid()
      modifies this
      ensures Outcome(View(), wait, ok) == TokenRules.Take(p, old(View()), now, count, maxWait)
    {
      if count <= 0 {
        return 0, true;
      }
      var tick := CurrentTick(p, now);
      AdjustAvailableTokens(tick);
      var avail := availableTokens - count;
      if avail >= 0 {
        availableTokens := avail;
        return 0, true;
      }
      var endTick := EndTick(p, avail, tick);
      var endTime := p.startTime + endTick * p.fillInterval;
      wait := endTime - now;
      if wait > maxWait {
        return 0, false;
      }
      availableTokens := avail;
      ok := true;
    }

    method TakeAvailable(now: int, count: int) returns (taken: int)
      requires p.Valid()
      modifies this
      ensures (View(), taken) == TokenRules.TakeAvailable(p, old(View()), now, count)
    {
      if count <= 0 {
        return 0;
      }
      AdjustAvailableTokens(CurrentTick(p, now));
      if availableTokens <= 0 {
        return 0;
      }
      taken := count;
      if taken > availableTokens {
        taken := availableTokens;
      }
      availableTokens := availableTokens - taken;
    }

    method Available(now: int) returns (tokens: int)
      requires p.Valid()
      modifies this
      ensures View() == Adjust(p, old(View()), CurrentTick(p, now)) && tokens == View().tokens
    {
      AdjustAvailableTokens(CurrentTick(p, now));
      return availableTokens;
    }
  }
}
