/** The self-rescheduling benchmark of utils/bench-simulator.cc over an abstract
event queue: any delays, and any order in which the scheduler serves events. */
module Bench {
  import opened Wrappers

  /** Pending events by their time.  The scheduler may serve any of them next. */
  class Simulator {
    var now: nat
    var pending: seq<nat>
    ghost var delays: seq<nat>   // of all events scheduled so far

    constructor ()
      ensures pending == [] && now == 0 && delays == []
    {
      now, pending, delays := 0, [], [];
    }

    method Schedule(delay: nat)
      modifies this`pending, this`delays
      ensures pending == old(pending) + [now + delay] && delays == old(delays) + [delay]
    {
      pending := pending + [now + delay];
      delays := delays + [delay];
    }

    /** Take event number i out of the queue and advance the clock to it. */
    method Serve(i: nat)
      requires i < |pending|
      modifies this`now, this`pending
      ensures pending == old(pending)[..i] + old(pending)[i + 1..] && now == old(pending)[i]
    {
      now := pending[i];
      pending := pending[..i] + pending[i + 1..];
    }

    /** Serve one of the pending events, whichever k stands for. */
    method ServeOne(k: nat)
      requires pending != []
      modifies this`now, this`pending
      ensures |pending| == |old(pending)| - 1
      ensures exists i :: 0 <= i < |old(pending)| && now == old(pending)[i]
                          && pending == old(pending)[..i] + old(pending)[i + 1..]
    {
      Serve(k % |pending|);
    }
  }

  /** The number of callbacks a benchmark executes. */
  function Expected(population: nat, total: nat): nat {
    if population == 0 then 0 else population + total
  }

  /** Queue length after n callbacks. */
  function QueueAfter(population: nat, total: nat, n: nat): int {
    if n <= total then population else population + total - n
  }

  /** The first n delays of the stream. */
  function Drawn(delays: nat -> nat, n: nat): seq<nat> {
    if n == 0 then [] else Drawn(delays, n - 1) + [delays(n - 1)]
  }

  lemma DrawnNext(delays: nat -> nat, n: nat, before: seq<nat>)
    ensures before + Drawn(delays, n + 1) == before + Drawn(delays, n) + [delays(n)]
    ensures before + Drawn(delays, 0) == before
  {}

  class Benchmark {
    const population: nat
    const total: nat
    var count: nat
    const simulator: Simulator

    constructor (population: nat, total: nat, simulator: Simulator)
      ensures this.population == population && this.total == total && this.simulator == simulator && count == 0
    {
      this.population, this.total, this.simulator, count := population, total, simulator, 0;
    }

    /** The callback: reschedule itself until the total is reached. */
    method Cb(delay: nat)
      modifies this, simulator
      ensures count == if old(count) < total then old(count) + 1 else old(count)
      ensures simulator.now == old(simulator.now)
      ensures simulator.pending == old(simulator.pending)
        + if old(count) < total then [simulator.now + delay] else []
      ensures simulator.delays == old(simulator.delays) + if old(count) < total then [delay] else []
    {
      if count >= total {
        return;
      }
      simulator.Schedule(delay);
      count := count + 1;
    }

    /** RunBench, for every delay stream and every serving order: `pick` chooses
        the event to serve, modulo the number of pending ones.  The result lists
        the queue length before the run and after each callback. */
    method RunBench(delays: nat -> nat, pick: nat -> nat) returns (executed: nat, lengths: seq<nat>)
      requires simulator.pending == []
      modifies this, simulator
      ensures executed == Expected(population, total)
      ensures count == (if population == 0 then 0 else total) && simulator.pending == []
      ensures simulator.delays == old(simulator.delays) + Drawn(delays, Expected(population, total))
      ensures |lengths| == executed + 1
      ensures forall n :: 0 <= n < |lengths| ==> lengths[n] == QueueAfter(population, total, n)
    {
      hide Drawn;
      ghost var before := simulator.delays;
      DrawnNext(delays, 0, before);
      count := 0;
      for i := 0 to population
        invariant |simulator.pending| == i && count == 0
        invariant simulator.delays == before + Drawn(delays, i)
      {
        DrawnNext(delays, i, before);
        simulator.Schedule(delays(i));
      }
      executed := 0;
      lengths := [|simulator.pending|];
      while simulator.pending != []
        invariant executed <= Expected(population, total)
        invariant |simulator.pending| == QueueAfter(population, total, executed)
        invariant count == Min(executed, total)
        invariant simulator.delays == before + Drawn(delays, population + count)
        invariant |lengths| == executed + 1
        invariant forall n :: 0 <= n <= executed ==> lengths[n] == QueueAfter(population, total, n)
        decreases Expected(population, total) - executed
      {
        simulator.ServeOne(pick(executed));
        DrawnNext(delays, population + count, before);
        Cb(delays(population + count));
        executed := executed + 1;
        lengths := lengths + [|simulator.pending|];
      }
    }
  }
}
