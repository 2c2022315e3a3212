/**
 The two chase phases of worker() in bench/src/bench.c, from building the links to the last
 batch of loads.
 */
module MemPhases {
  import opened Chases
  import opened Shuffles
  import opened Kernels
  import opened Sizes
  import opened Sweeps
  import opened Walks

  const NODE_WORDS: nat := 8

  lemma WalkableLoads(mem: seq<nat>, heads: seq<nat>, done: nat, n: nat)
    requires Walkable(mem, heads)
    ensures MayLoad(mem, AllHops(mem, heads, done), n)
  {
    var cur := AllHops(mem, heads, done);
    forall w, k | 0 <= w < |heads| && 0 <= k < n ensures Hops(mem, cur[w], k) < |mem| {
      HopsAdd(mem, heads[w], done, k);
    }
  }

  lemma HopsFurther(mem: seq<nat>, heads: seq<nat>, a: nat, b: nat)
    ensures AllHops(mem, AllHops(mem, heads, a), b) == AllHops(mem, heads, a + b)
  {
    forall w | 0 <= w < |heads| ensures Hops(mem, Hops(mem, heads[w], a), b) == Hops(mem, heads[w], a + b) {
      HopsAdd(mem, heads[w], a, b);
    }
  }

  /** One repetition: the cursors start at the heads and take the batches one by one. */
  method MlpRepetition(buf: array<nat>, heads: array<nat>, batches: seq<nat>) returns (cur: array<nat>)
    requires heads.Length == CHASE_WAYS && Walkable(buf[..], heads[..])
    ensures fresh(cur) && cur.Length == CHASE_WAYS
    ensures cur[..] == AllHops(buf[..], heads[..], SumOf(batches))
  {
    ghost var mem, start := buf[..], heads[..];
    cur := new nat[CHASE_WAYS](j requires 0 <= j < CHASE_WAYS reads heads => heads[j]);
    assert cur[..] == AllHops(mem, start, 0);
    for b := 0 to |batches|
      invariant buf[..] == mem && heads[..] == start
      invariant cur[..] == AllHops(mem, start, SumOf(batches[..b]))
    {
      var done := SumOf(batches[..b]);
      WalkableLoads(mem, start, done, batches[b]);
      HopsFurther(mem, start, done, batches[b]);
      PushBatch(batches[..b], batches[b], false);
      assert batches[..b + 1] == batches[..b] + [batches[b]];
      MemMlp(buf, cur, batches[b]);
    }
    assert batches[..|batches|] == batches;
  }

  function ChaseLayout(nbytes: nat, ways: nat): Layout
    requires ways > 0
  {
    LayoutOf(nbytes / WORD_BYTES, NODE_WORDS, ways)
  }

  /** One node per 64-byte line, the ways taking turns. */
  lemma ChaseLayoutIs(nbytes: nat, ways: nat, w: nat, i: nat)
    requires ways > 0
    ensures ChaseLayout(nbytes, ways) == Layout(8, ways, nbytes / 64 / ways)
    ensures Spot(ChaseLayout(nbytes, ways), w, i) == (i * ways + w) * 8
  {
    assert nbytes / 8 / 8 == nbytes / 64;
  }

  /** Where a repetition's cursors may end: every one inside the buffer, on its own way, and
      no two on one node. */
  ghost predicate WellPlaced(mem: seq<nat>, l: Layout, cur: seq<nat>) {
    |cur| == l.ways && OnOwnWay(mem, l, cur) && Distinct(cur)
  }

  lemma RepetitionEnds(mem: seq<nat>, l: Layout, heads: seq<nat>, k: nat)
    requires l.Valid() && |heads| == l.ways && l.Fits(mem) && AllCycles(mem, l, heads)
    ensures WellPlaced(mem, l, AllHops(mem, heads, k))
  {
    CursorsAfterAnyHops(mem, l, heads, k);
  }

  /** One repetition of the latency phase: a single cursor, the others left unset. */
  method LatRepetition(buf: array<nat>, heads: array<nat>, batches: seq<nat>) returns (at: nat)
    requires heads.Length == CHASE_WAYS && Walkable(buf[..], heads[..1])
    ensures at == Hops(buf[..], heads[0], SumOf(batches))
  {
    ghost var mem, start := buf[..], heads[..1];
    var cur := new nat[CHASE_WAYS];
    cur[0] := heads[0];
    for b := 0 to |batches|
      invariant buf[..] == mem && heads[..1] == start
      invariant cur[0] == Hops(mem, start[0], SumOf(batches[..b]))
    {
      var done := SumOf(batches[..b]);
      WalkableLoads(mem, start, done, batches[b]);
      assert cur[0] == AllHops(mem, start, done)[0];
      HopsAdd(mem, start[0], done, batches[b]);
      PushBatch(batches[..b], batches[b], false);
      assert batches[..b + 1] == batches[..b] + [batches[b]];
      MemLat(buf, cur, batches[b]);
    }
    assert batches[..|batches|] == batches;
    at := cur[0];
  }

  /** The latency phase: one chase over the whole buffer. It runs whenever the buffer and the
      scratch array are there, its links form one cycle through every node, and each
      repetition ends where that many dependent loads from the head lead, on a node. */
  method LatPhase(buf: array<nat>, nbytes: nat, heads: array<nat>, seed: bv64, memOk: bool, scratch: bool,
                  warmup: real, batches: seq<seq<nat>>, clock: nat -> real, ghost last: nat)
    returns (ok: bool, finals: seq<nat>)
    requires buf != heads && heads.Length == CHASE_WAYS && buf.Length == nbytes / WORD_BYTES
    requires memOk ==> nbytes >= MIN_MEM
    requires Monotone(clock) && clock(last) >= clock(0) + warmup
    modifies buf, heads
    ensures ok <==> memOk && scratch
    ensures !ok ==> buf[..] == old(buf[..]) && finals == []
    ensures ok ==> |finals| == |batches|
    ensures ok ==> forall r :: 0 <= r < |batches| ==> finals[r] == Hops(buf[..], heads[0], SumOf(batches[r]))
    ensures ok && Narrow(ChaseLayout(nbytes, 1)) ==> FullCycle(buf[..], ChaseLayout(nbytes, 1), 0, heads[0])
    ensures ok && Narrow(ChaseLayout(nbytes, 1)) ==>
              forall r :: 0 <= r < |batches| ==> OnWay(ChaseLayout(nbytes, 1), 0, finals[r])
  {
    ghost var l := ChaseLayout(nbytes, 1);
    ok, finals := false, [];
    if memOk {
      var rc := BuildChases(buf, NODE_WORDS, 1, seed, heads, scratch);
      ok := rc == 0;
    }
    ghost var mem, start := buf[..], heads[..1];
    for r := 0 to |batches|
      invariant buf[..] == mem && heads[..1] == start
      invariant |finals| == if ok then r else 0
      invariant ok ==> forall q :: 0 <= q < r ==> finals[q] == Hops(mem, start[0], SumOf(batches[q]))
    {
      if r == 0 { var _ := MemWarmup(buf, nbytes, warmup, true, clock, last); }
      if ok {
        var at := LatRepetition(buf, heads, batches[r]);
        finals := finals + [at];
      }
    }
    if ok && Narrow(l) {
      LayoutFits(buf.Length, NODE_WORDS, 1);
      forall r | 0 <= r < |batches| ensures OnWay(l, 0, finals[r]) {
        WalkStaysOnWay(mem, l, 0, start[0], SumOf(batches[r]));
      }
    }
  }

  /** The parallel chase phase: it runs whenever the buffer and the builder's scratch array
      are there, the warm-up before it does not disturb a link, and every repetition ends
      with its cursors where that many hops from the heads lead. */
  method MlpPhase(buf: array<nat>, nbytes: nat, heads: array<nat>, seed: bv64, memOk: bool, scratch: bool,
                  warmup: real, batches: seq<seq<nat>>, clock: nat -> real, ghost last: nat)
    returns (ok: bool, finals: seq<seq<nat>>)
    requires buf != heads && heads.Length == CHASE_WAYS && buf.Length == nbytes / WORD_BYTES
    requires memOk ==> nbytes >= MIN_MEM
    requires Monotone(clock) && clock(last) >= clock(0) + warmup
    modifies buf, heads
    ensures ok <==> memOk && scratch
    ensures !ok ==> buf[..] == old(buf[..]) && finals == []
    ensures ok ==> |finals| == |batches|
    ensures ok ==> forall r :: 0 <= r < |batches| ==> finals[r] == AllHops(buf[..], heads[..], SumOf(batches[r]))
    ensures ok && Narrow(ChaseLayout(nbytes, CHASE_WAYS)) ==> AllCycles(buf[..], ChaseLayout(nbytes, CHASE_WAYS), heads[..])
    ensures ok && Narrow(ChaseLayout(nbytes, CHASE_WAYS)) ==> forall r :: 0 <= r < |batches| ==> WellPlaced(buf[..], ChaseLayout(nbytes, CHASE_WAYS), finals[r])
  {
    ghost var l := ChaseLayout(nbytes, CHASE_WAYS);
    ok, finals := false, [];
    if memOk {
      var rc := BuildChases(buf, NODE_WORDS, CHASE_WAYS, seed, heads, scratch);
      assert heads[..CHASE_WAYS] == heads[..];
      ok := rc == 0;
    }
    ghost var mem, start := buf[..], heads[..];
    for r := 0 to |batches|
      invariant buf[..] == mem && heads[..] == start
      invariant |finals| == if ok then r else 0
      invariant ok ==> forall q :: 0 <= q < r ==> finals[q] == AllHops(mem, start, SumOf(batches[q]))
    {
      if r == 0 { var _ := MemWarmup(buf, nbytes, warmup, true, clock, last); }
      if ok {
        var cur := MlpRepetition(buf, heads, batches[r]);
        finals := finals + [cur[..]];
      }
    }
    if ok && Narrow(l) {
      LayoutFits(buf.Length, NODE_WORDS, CHASE_WAYS);
      forall r | 0 <= r < |batches| ensures WellPlaced(mem, l, finals[r]) {
        RepetitionEnds(mem, l, start, SumOf(batches[r]));
      }
    }
  }
}
