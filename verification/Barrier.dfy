/**
 The reusable barrier of bench/src/platform.h: a mutex, a condition variable, an
 arrival counter and an unsigned generation that wraps.

 `Barrier` is the object whose fields plat_barrier_wait updates inside its critical
 sections. `BarrierSystem` puts any number of threads around one barrier and lets
 them interleave at the grain of those critical sections.
 */
module PlatBarrier {

  /** The range of C's `unsigned`. */
  const UINT_RANGE: int := 0x1_0000_0000

  datatype Shared = Shared(limit: nat, waiting: nat, generation: nat)

  /** What one arrival does to the barrier: the last arrival of a round resets the
      counter and moves to the next generation. */
  function Arrived(b: Shared): Shared {
    var waiting := (b.waiting + 1) % UINT_RANGE;
    if waiting == b.limit
    then b.(waiting := 0, generation := (b.generation + 1) % UINT_RANGE)
    else b.(waiting := waiting)
  }

  /** Whether that arrival was the one that opened the barrier. */
  predicate Opens(b: Shared) {
    (b.waiting + 1) % UINT_RANGE == b.limit
  }

  /** The condition of the loop around pthread_cond_wait. */
  predicate StillClosed(b: Shared, mine: nat) {
    mine == b.generation
  }

  /** An arrival in a barrier for `limit`, at any generation of an unsigned of 32 bits. */
  lemma ArrivedIs(limit: nat, waiting: nat, generation: nat)
    requires 0 <= waiting < limit < 4294967296 && generation < 4294967296
    ensures var b := Shared(limit, waiting, generation);
            Arrived(b) ==
              if waiting + 1 < limit then Shared(limit, waiting + 1, generation)
              else Shared(limit, 0, if generation == 4294967295 then 0 else generation + 1)
    ensures Opens(Shared(limit, waiting, generation)) <==> waiting + 1 == limit
  {
  }

  class Barrier {
    var limit: nat
    var waiting: nat
    var generation: nat

    function View(): Shared
      reads this
    {
      Shared(limit, waiting, generation)
    }

    constructor ()
      ensures View() == Shared(0, 0, 0)
    {
      limit, waiting, generation := 0, 0, 0;
    }

    /** plat_barrier_init; initialising the mutex and the condition variable always
        succeeds here. */
    method Init(count: nat) returns (rc: int)
      requires count < UINT_RANGE
      modifies this
      ensures count == 0 ==> rc == -1 && View() == old(View())
      ensures count > 0 ==> rc == 0 && View() == Shared(count, 0, 0)
    {
      if count == 0 { return -1; }
      limit := count;
      waiting := 0;
      generation := 0;
      return 0;
    }

    /** From taking the mutex to knowing whether this thread is the last to arrive. */
    method Arrive() returns (mine: nat, serial: bool)
      modifies this
      ensures View() == Arrived(old(View()))
      ensures mine == old(generation)
      ensures serial == Opens(old(View()))
    {
      mine := generation;
      waiting := (waiting + 1) % UINT_RANGE;
      if waiting == limit {
        waiting := 0;
        generation := (generation + 1) % UINT_RANGE;
        return mine, true;
      }
      return mine, false;
    }
  }
}
