/** The aggregator's own variables and the code between two points where goroutines can
    interleave; each method is one such stretch and takes the matching step. */
module Aggregator {
  import opened Basics
  import opened AggregatorSteps

  class Aggregator<T> {
    const option: Config
    var clock: int
    var eventQueue: seq<T>
    var workers: seq<Worker<T>>
    var quit: bool
    ghost var checked: Option<nat>
    ghost var accepted: seq<T>
    ghost var processed: seq<seq<T>>
    ghost var lost: seq<T>

    ghost function View(): State<T>
      reads this
    {
      State(clock, eventQueue, workers, quit, checked, accepted, processed, lost)
    }

    /** The channel buffer is never smaller than the number of workers. */
    constructor (batchSize: nat, workerCount: nat, channelBufferSize: nat, linger: nat, now: int)
      ensures option == Config(batchSize, linger,
                               if channelBufferSize <= workerCount then workerCount else channelBufferSize)
      ensures View() == Initial(workerCount, now)
    {
      var buffer := channelBufferSize;
      if buffer <= workerCount {
        buffer := workerCount;
      }
      option := Config(batchSize, linger, buffer);
      clock, eventQueue, quit := now, [], false;
      workers := seq(workerCount, _ => NewWorker(now));
      checked, accepted, processed, lost := None, [], [], [];
    }

    /** One non-blocking attempt to send; TryEnqueue makes up to two, Enqueue waits for one. */
    method TrySend(item: T) returns (ok: bool)
      modifies this
      ensures ok <==> |old(eventQueue)| < option.buffer
      ensures ok ==> eventQueue == old(eventQueue) + [item] && accepted == old(accepted) + [item]
      ensures ok == Enabled(option, old(View()), Offer(item))
      ensures View() == if ok then Apply(option, old(View()), Offer(item)) else old(View())
    {
      ok := |eventQueue| < option.buffer;
      if ok {
        eventQueue := eventQueue + [item];
        accepted := accepted + [item];
      }
    }

    method BatchProcess(w: nat, items: seq<T>, panics: bool)
      requires w < |workers|
      modifies this`processed, this`lost, this`workers
      ensures panics ==> processed == old(processed) && lost == old(lost) + items
      ensures panics ==> workers == old(workers)[w := NewWorker(clock)]
      ensures !panics ==> processed == old(processed) + [items] && lost == old(lost) && workers == old(workers)
    {
      if panics {
        lost := lost + items;
        workers := workers[w := NewWorker(clock)];
      } else {
        processed := processed + [items];
      }
    }

    /** The select chose the event queue. */
    method OnRequest(w: nat, panics: bool)
      requires Enabled(option, View(), Request(w, panics))
      modifies this
      ensures View() == Apply(option, old(View()), Request(w, panics))
      ensures var batch := old(workers[w].batch) + [old(eventQueue[0])];
              && eventQueue == old(eventQueue[1..])
              && (|batch| < option.batchSize ==>
                    w < |workers| && workers[w].batch == batch && processed == old(processed) && lost == old(lost))
              && (|batch| >= option.batchSize && !panics ==> processed == old(processed) + [batch] && lost == old(lost))
              && (|batch| >= option.batchSize && panics ==> processed == old(processed) && lost == old(lost) + batch)
    {
      var req := eventQueue[0];
      eventQueue := eventQueue[1..];
      var batch := workers[w].batch + [req];
      var batchSize := |batch|;
      if batchSize < option.batchSize {
        if batchSize == 1 {
          workers := workers[w := workers[w].(timer := Armed(clock + option.linger), first := clock)];
        }
        workers := workers[w := workers[w].(batch := batch)];
        return;
      }
      BatchProcess(w, batch, panics);
      if !panics {
        workers := workers[w := workers[w].(batch := batch, phase := Stopping)];
      }
    }

    /** The timer was stopped, or must be drained. */
    method OnStopTimer(w: nat)
      requires Enabled(option, View(), StopTimer(w))
      modifies this
      ensures View() == Apply(option, old(View()), StopTimer(w))
    {
      var k := workers[w];
      if !k.timer.Armed? {
        workers := workers[w := k.(phase := if k.phase.Starting? then StartDrain else Draining)];
        return;
      }
      workers := workers[w := k.(timer := Idle, batch := [], phase := Ready)];
    }

    method OnDrain(w: nat)
      requires Enabled(option, View(), Drain(w))
      modifies this
      ensures View() == Apply(option, old(View()), Drain(w))
    {
      workers := workers[w := workers[w].(timer := Idle)];
      workers := workers[w := workers[w].(batch := [], phase := Ready)];
    }

    /** The select chose the linger timer. */
    method OnLinger(w: nat, panics: bool)
      requires Enabled(option, View(), Linger(w, panics))
      modifies this
      ensures View() == Apply(option, old(View()), Linger(w, panics))
      ensures var batch := old(workers[w].batch);
              && (batch != [] && !panics ==> processed == old(processed) + [batch] && lost == old(lost))
              && (batch != [] && panics ==> processed == old(processed) && lost == old(lost) + batch)
              && (batch == [] ==> processed == old(processed) && lost == old(lost))
              && w < |workers| && workers[w].batch == []
    {
      workers := workers[w := workers[w].(timer := Idle)];
      if |workers[w].batch| == 0 {
        return;
      }
      BatchProcess(w, workers[w].batch, panics);
      if !panics {
        workers := workers[w := workers[w].(batch := [])];
      }
    }

    /** The select chose the quit channel. */
    method OnQuit(w: nat, panics: bool)
      requires Enabled(option, View(), Quit(w, panics))
      modifies this
      ensures View() == Apply(option, old(View()), Quit(w, panics))
      ensures var batch := old(workers[w].batch);
              && (batch != [] && !panics ==> processed == old(processed) + [batch] && lost == old(lost))
              && (batch != [] && panics ==> processed == old(processed) && lost == old(lost) + batch)
              && (batch == [] ==> processed == old(processed) && lost == old(lost))
              && w < |workers| && (workers[w].phase.Exited? <==> batch == [] || !panics)
    {
      if |workers[w].batch| != 0 {
        BatchProcess(w, workers[w].batch, panics);
        if panics {
          return;
        }
      }
      workers := workers[w := workers[w].(phase := Exited)];
    }

    /** One look of SafeStop at the queue length. */
    method CheckQueue() returns (empty: bool)
      requires !quit
      modifies this`checked
      ensures empty <==> eventQueue == []
      ensures checked == if empty then Some(|accepted|) else old(checked)
      ensures empty == Enabled(option, old(View()), CheckEmpty)
      ensures View() == if empty then Apply(option, old(View()), CheckEmpty) else old(View())
    {
      empty := |eventQueue| == 0;
      if empty {
        checked := Some(|accepted|);
      }
    }

    method CloseQuit()
      requires !quit
      modifies this`quit
      ensures quit
      ensures View() == Apply(option, old(View()), Close)
    {
      quit := true;
    }

    /** Any one step of the system. */
    method Perform(step: Step<T>)
      requires Enabled(option, View(), step)
      modifies this
      ensures View() == Apply(option, old(View()), step)
    {
      match step {
        case Advance(d) => clock := clock + d;
        case Expire(w) => workers := workers[w := workers[w].(timer := Fired(workers[w].timer.deadline))];
        case Offer(item) => var _ := TrySend(item);
        case StopTimer(w) => OnStopTimer(w);
        case Drain(w) => OnDrain(w);
        case Request(w, panics) => OnRequest(w, panics);
        case Linger(w, panics) => OnLinger(w, panics);
        case Quit(w, panics) => OnQuit(w, panics);
        case CheckEmpty => var _ := CheckQueue();
        case Close => CloseQuit();
      }
    }

    /** Two attempts: when the queue is full the sender yields, other goroutines take the
        steps `others`, and it tries once more. */
    method TryEnqueue(item: T, others: seq<Step<T>>) returns (ok: bool)
      requires RunFrom(option, View(), others).Some?
      modifies this
      ensures var s0 := old(View()); var s1 := RunFrom(option, s0, others).value;
              if Enabled(option, s0, Offer(item)) then ok && View() == Apply(option, s0, Offer(item))
              else if Enabled(option, s1, Offer(item)) then ok && View() == Apply(option, s1, Offer(item))
              else !ok && View() == s1
      ensures !ok <==>
                && |old(eventQueue)| >= option.buffer
                && |RunFrom(option, old(View()), others).value.queue| >= option.buffer
      ensures ok ==> eventQueue != [] && eventQueue[|eventQueue| - 1] == item
      ensures ok ==> accepted != [] && accepted[|accepted| - 1] == item
    {
      hide Apply, Enabled;
      ok := TrySend(item);
      if ok {
        return;
      }
      ghost var s0 := View();
      assert others[..|others|] == others;
      for i := 0 to |others|
        invariant RunFrom(option, s0, others[..i]) == Some(View())
      {
        Prefixes(option, s0, others, i + 1);
        assert others[..i + 1][..i] == others[..i];
        Perform(others[i]);
      }
      ok := TrySend(item);
    }
  }

  /** Every prefix of a run is a run. */
  lemma {:induction false} Prefixes<T>(cfg: Config, s: State<T>, steps: seq<Step<T>>, i: nat)
    requires RunFrom(cfg, s, steps).Some? && i <= |steps|
    ensures RunFrom(cfg, s, steps[..i]).Some?
    decreases |steps|
  {
    hide Enabled, Apply;
    if i == |steps| {
      assert steps[..i] == steps;
    } else {
      Prefixes(cfg, s, steps[..|steps| - 1], i);
      assert steps[..|steps| - 1][..i] == steps[..i];
    }
  }
}
