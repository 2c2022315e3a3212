/**
 What one worker of bench/src/bench.c does between barriers, whatever its
 allocations returned.
 */
module WorkerRun {
  import opened Sizes

  /** The phases of the suite, in the order worker() walks them: five compute phases,
      one per ladder period, and three memory phases. */
  const DISP_FIRST: nat := 5
  const MEM_BW: nat := DISP_FIRST + DISP_LADDER_N
  const MEM_LAT: nat := MEM_BW + 1
  const MEM_MLP: nat := MEM_BW + 2
  const PHASES: nat := MEM_BW + 3

  datatype Event =
    | Sync                                // one plat_barrier_wait
    | Warmup(phase: nat)                  // a compute warm-up
    | MemWarmup(phase: nat, readonly: bool)
    | Build(ways: nat)                    // links the chases into the buffer
    | Measure(phase: nat, rep: nat)       // run_timed

  /** What can differ between two workers of one run: the buffer, the selector array,
      and how the two chase builds ended. */
  datatype Config = Config(reps: int, memBytes: nat, buf: bool, idx: bool, built1: bool, built8: bool) {
    function Reps(): (r: nat)
      ensures r >= 1
    {
      if reps > 0 then reps else 1
    }

    predicate MemOk() {
      buf && memBytes >= MIN_MEM
    }

    /** Whether run_timed is reached in `phase`. */
    predicate Runs(phase: nat) {
      if phase < DISP_FIRST then true
      else if phase < MEM_BW then idx
      else if phase == MEM_BW then MemOk()
      else if phase == MEM_LAT then MemOk() && built1
      else MemOk() && built8
    }
  }

  function Warm(phase: nat, rep: nat): seq<Event> {
    if phase >= MEM_BW then (if rep == 0 then [MemWarmup(phase, phase != MEM_BW)] else [])
    else if phase <= DISP_FIRST && rep == 0 then [Warmup(phase)]
    else []
  }

  /** One repetition: both barriers, always; the work between and after them, sometimes. */
  function RepEvents(c: Config, phase: nat, rep: nat): seq<Event> {
    [Sync] + Warm(phase, rep) + [Sync] + (if c.Runs(phase) then [Measure(phase, rep)] else [])
  }

  function PhaseEvents(c: Config, phase: nat, reps: nat): seq<Event> {
    if reps == 0 then [] else PhaseEvents(c, phase, reps - 1) + RepEvents(c, phase, reps - 1)
  }

  function Before(c: Config, phase: nat): seq<Event> {
    if !c.MemOk() then []
    else if phase == MEM_LAT then [Build(1)]
    else if phase == MEM_MLP then [Build(CHASE_WAYS)]
    else []
  }

  /** Everything a worker does up to the start of `phase`. */
  function Trace(c: Config, phases: nat): seq<Event> {
    if phases == 0 then []
    else Trace(c, phases - 1) + Before(c, phases - 1) + PhaseEvents(c, phases - 1, c.Reps())
  }

  function Syncs(t: seq<Event>): nat {
    if t == [] then 0 else Syncs(t[..|t| - 1]) + (if t[|t| - 1] == Sync then 1 else 0)
  }

  /** How often every worker of a run crosses the barrier. */
  function Crossings(reps: nat): nat {
    2 * reps * PHASES
  }

  // ----- the worker as the program it is -----

  method PhaseBegin(phase: nat, rep: nat) returns (t: seq<Event>)
    requires phase < MEM_BW
    ensures t == [Sync] + (if rep == 0 then [Warmup(phase)] else []) + [Sync]
  {
    t := [Sync];
    if rep == 0 { t := t + [Warmup(phase)]; }
    t := t + [Sync];
  }

  method PhaseBeginMem(phase: nat, rep: nat, readonly: bool) returns (t: seq<Event>)
    ensures t == [Sync] + (if rep == 0 then [MemWarmup(phase, readonly)] else []) + [Sync]
  {
    t := [Sync];
    if rep == 0 { t := t + [MemWarmup(phase, readonly)]; }
    t := t + [Sync];
  }

  method ComputePhase(c: Config, phase: nat) returns (t: seq<Event>)
    requires phase < DISP_FIRST
    ensures t == PhaseEvents(c, phase, c.Reps())
  {
    t := [];
    for rep := 0 to c.Reps()
      invariant t == PhaseEvents(c, phase, rep)
    {
      var begin := PhaseBegin(phase, rep);
      t := t + (begin + [Measure(phase, rep)]);
      assert begin + [Measure(phase, rep)] == RepEvents(c, phase, rep);
    }
  }

  method LadderPhase(c: Config, k: nat) returns (t: seq<Event>)
    requires k < DISP_LADDER_N
    ensures t == PhaseEvents(c, DISP_FIRST + k, c.Reps())
  {
    t := [];
    for rep := 0 to c.Reps()
      invariant t == PhaseEvents(c, DISP_FIRST + k, rep)
    {
      var one := PhaseBegin(DISP_FIRST + k, if k == 0 then rep else 1);
      if c.idx { one := one + [Measure(DISP_FIRST + k, rep)]; }
      assert one == RepEvents(c, DISP_FIRST + k, rep);
      t := t + one;
    }
  }

  method MemPhase(c: Config, phase: nat, ok: bool, readonly: bool) returns (t: seq<Event>)
    requires MEM_BW <= phase < PHASES
    requires ok == c.Runs(phase) && readonly == (phase != MEM_BW)
    ensures t == PhaseEvents(c, phase, c.Reps())
  {
    t := [];
    for rep := 0 to c.Reps()
      invariant t == PhaseEvents(c, phase, rep)
    {
      var one := PhaseBeginMem(phase, rep, readonly);
      if ok { one := one + [Measure(phase, rep)]; }
      assert one == RepEvents(c, phase, rep);
      t := t + one;
    }
  }

  lemma TraceOn(c: Config, phase: nat, t: seq<Event>, p: seq<Event>)
    requires t == Trace(c, phase) + Before(c, phase) && p == PhaseEvents(c, phase, c.Reps())
    ensures t + p == Trace(c, phase + 1)
  {
  }

  method Compute(c: Config) returns (t: seq<Event>)
    ensures t == Trace(c, DISP_FIRST)
  {
    t := [];
    assert Trace(c, 0) == [];
    hide Trace, PhaseEvents;
    var phase := 0;
    while phase < DISP_FIRST
      invariant phase <= DISP_FIRST
      invariant t == Trace(c, phase)
    {
      var p := ComputePhase(c, phase);
      assert Before(c, phase) == [] && t == t + [];
      TraceOn(c, phase, t, p);
      t := t + p;
      phase := phase + 1;
    }
  }

  method Ladder(c: Config, first: nat, before: seq<Event>) returns (t: seq<Event>)
    requires first == DISP_FIRST && before == Trace(c, first)
    ensures t == Trace(c, first + DISP_LADDER_N)
  {
    hide Trace, PhaseEvents;
    t := before;
    for k := 0 to DISP_LADDER_N
      invariant t == Trace(c, first + k)
    {
      var p := LadderPhase(c, k);
      assert Before(c, first + k) == [] && t == t + [];
      TraceOn(c, first + k, t, p);
      t := t + p;
    }
  }

  method Chase(c: Config, phase: nat, memOk: bool, before: seq<Event>) returns (t: seq<Event>)
    requires phase == MEM_LAT || phase == MEM_MLP
    requires memOk == c.MemOk() && before == Trace(c, phase)
    ensures t == Trace(c, phase + 1)
  {
    hide Trace, PhaseEvents;
    t := before;
    if memOk { t := t + [Build(if phase == MEM_LAT then 1 else CHASE_WAYS)]; }
    var ok := memOk && (if phase == MEM_LAT then c.built1 else c.built8);
    var p := MemPhase(c, phase, ok, true);
    assert t == before + Before(c, phase);
    TraceOn(c, phase, t, p);
    t := t + p;
  }

  /** worker(), with every library call reduced to whether it succeeded. */
  method Worker(c: Config) returns (t: seq<Event>)
    ensures t == Trace(c, PHASES)
  {
    hide Trace, PhaseEvents;
    t := Compute(c);
    t := Ladder(c, DISP_FIRST, t);
    var memOk := c.buf && c.memBytes >= MIN_MEM;
    var bw := MemPhase(c, MEM_BW, memOk, false);
    assert Before(c, MEM_BW) == [] && t == t + [];
    TraceOn(c, MEM_BW, t, bw);
    t := t + bw;
    t := Chase(c, MEM_LAT, memOk, t);
    t := Chase(c, MEM_MLP, memOk, t);
  }

  // ----- what every such program has in common -----

  lemma {:induction false} SyncsConcat(a: seq<Event>, b: seq<Event>)
    ensures Syncs(a + b) == Syncs(a) + Syncs(b)
  {
    if b == [] {
      assert a + b == a;
    } else {
      SyncsConcat(a, b[..|b| - 1]);
      assert (a + b)[..|a + b| - 1] == a + b[..|b| - 1];
    }
  }

  lemma RepSyncs(c: Config, phase: nat, rep: nat)
    ensures Syncs(RepEvents(c, phase, rep)) == 2
    ensures Syncs([Sync] + Warm(phase, rep) + [Sync]) == 2
  {
    var tail := if c.Runs(phase) then [Measure(phase, rep)] else [];
    SyncsConcat([Sync], Warm(phase, rep));
    SyncsConcat([Sync] + Warm(phase, rep), [Sync]);
    SyncsConcat([Sync] + Warm(phase, rep) + [Sync], tail);
    assert Syncs([Sync]) == 1 && Syncs(Warm(phase, rep)) == 0 && Syncs(tail) == 0;
  }

  lemma {:induction false} PhaseSyncs(c: Config, phase: nat, reps: nat)
    ensures Syncs(PhaseEvents(c, phase, reps)) == 2 * reps
  {
    if reps > 0 {
      PhaseSyncs(c, phase, reps - 1);
      RepSyncs(c, phase, reps - 1);
      SyncsConcat(PhaseEvents(c, phase, reps - 1), RepEvents(c, phase, reps - 1));
    }
  }

  lemma OneMorePhase(reps: nat, phases: nat)
    requires phases > 0
    ensures 2 * reps * (phases - 1) + 2 * reps == 2 * reps * phases
  {
  }

  lemma {:induction false} TraceSyncs(c: Config, phases: nat)
    ensures Syncs(Trace(c, phases)) == 2 * c.Reps() * phases
  {
    if phases > 0 {
      hide Syncs, PhaseEvents, Before, c.Reps;
      TraceSyncs(c, phases - 1);
      BeforeSyncs(c, phases - 1);
      PhaseSyncs(c, phases - 1, c.Reps());
      SyncsConcat(Trace(c, phases - 1), Before(c, phases - 1));
      SyncsConcat(Trace(c, phases - 1) + Before(c, phases - 1), PhaseEvents(c, phases - 1, c.Reps()));
      OneMorePhase(c.Reps(), phases);
    }
  }

  /** The rule stated beside phase_begin: every thread crosses the barrier the same
      number of times, whichever allocations failed. */
  lemma EveryWorkerCrossesEqually(c: Config)
    ensures Syncs(Trace(c, PHASES)) == Crossings(c.Reps())
  {
    TraceSyncs(c, PHASES);
  }

  /** The work that has to be lined up: warm-ups and measurements. */
  predicate Timed(e: Event) {
    e.Measure? || e.Warmup? || e.MemWarmup?
  }

  /** How many crossings into its phase a piece of work belongs: a warm-up between the two
      of the first repetition, a measurement after both of its own. */
  function Slot(e: Event): nat
    requires Timed(e)
  {
    if e.Measure? then 2 * e.rep + 2 else 1
  }

  /** Where a piece of work sits among a worker's barrier crossings. */
  function CrossingsBefore(reps: nat, e: Event): nat
    requires Timed(e)
  {
    2 * reps * e.phase + Slot(e)
  }

  lemma SyncsAt(front: seq<Event>, back: seq<Event>, i: nat)
    requires |front| <= i <= |front + back|
    ensures Syncs((front + back)[..i]) == Syncs(front) + Syncs(back[..i - |front|])
  {
    assert (front + back)[..i] == front + back[..i - |front|];
    SyncsConcat(front, back[..i - |front|]);
  }

  /** e is work c does: a measurement that may run, or a phase's own warm-up. */
  predicate WorkOf(c: Config, reps: nat, e: Event) {
    Timed(e) && if e.Measure? then e.rep < reps && c.Runs(e.phase) else [e] == Warm(e.phase, 0)
  }

  lemma WorkOfMore(c: Config, reps: nat, e: Event)
    requires WorkOf(c, reps, e)
    ensures WorkOf(c, reps + 1, e)
  {
  }

  lemma RepWorks(c: Config, phase: nat, rep: nat, i: nat)
    requires i < |RepEvents(c, phase, rep)| && Timed(RepEvents(c, phase, rep)[i])
    ensures WorkOf(c, rep + 1, RepEvents(c, phase, rep)[i]) && RepEvents(c, phase, rep)[i].phase == phase
    ensures 2 * rep + Syncs(RepEvents(c, phase, rep)[..i]) == Slot(RepEvents(c, phase, rep)[i])
  {
    var t, begin := RepEvents(c, phase, rep), [Sync] + Warm(phase, rep) + [Sync];
    if t[i].Measure? {
      assert i == |begin| && t[..i] == begin;
      RepSyncs(c, phase, rep);
    } else {
      assert i == 1 && t[..1] == [Sync];
    }
  }

  lemma LastRepWorks(c: Config, phase: nat, rep: nat, front: seq<Event>, back: seq<Event>, i: nat)
    requires front == PhaseEvents(c, phase, rep) && back == RepEvents(c, phase, rep)
    requires |front| <= i < |front + back| && Timed((front + back)[i])
    ensures WorkOf(c, rep + 1, (front + back)[i]) && (front + back)[i].phase == phase
    ensures Syncs((front + back)[..i]) == Slot((front + back)[i])
  {
    hide *;
    var k := i - |front|;
    assert (front + back)[i] == back[k];
    RepWorks(c, phase, rep, k);
    PhaseSyncs(c, phase, rep);
    SyncsAt(front, back, i);
  }

  lemma {:induction false} PhaseWorks(c: Config, phase: nat, reps: nat, i: nat)
    requires i < |PhaseEvents(c, phase, reps)| && Timed(PhaseEvents(c, phase, reps)[i])
    ensures WorkOf(c, reps, PhaseEvents(c, phase, reps)[i]) && PhaseEvents(c, phase, reps)[i].phase == phase
    ensures Syncs(PhaseEvents(c, phase, reps)[..i]) == Slot(PhaseEvents(c, phase, reps)[i])
  {
    var front, back := PhaseEvents(c, phase, reps - 1), RepEvents(c, phase, reps - 1);
    assert PhaseEvents(c, phase, reps) == front + back;
    hide *;
    if i < |front| {
      PhaseWorks(c, phase, reps - 1, i);
      WorkOfMore(c, reps - 1, front[i]);
      assert (front + back)[..i] == front[..i];
    } else {
      LastRepWorks(c, phase, reps - 1, front, back, i);
    }
  }

  /** The work at t[i] is one of c's, and t crosses the barrier as often before it as its
      place in the suite says. */
  predicate Aligned(c: Config, t: seq<Event>, i: nat)
    requires i < |t| && Timed(t[i])
  {
    && WorkOf(c, c.Reps(), t[i])
    && Syncs(t[..i]) == CrossingsBefore(c.Reps(), t[i])
  }

  lemma BeforeSyncs(c: Config, phase: nat)
    ensures Syncs(Before(c, phase)) == 0
  {
  }

  lemma LastPhaseWorks(c: Config, p: nat, i: nat)
    requires |Trace(c, p)| <= i < |Trace(c, p + 1)| && Timed(Trace(c, p + 1)[i])
    ensures var front := Trace(c, p) + Before(c, p);
            |front| <= i && Trace(c, p + 1) == front + PhaseEvents(c, p, c.Reps())
    ensures Trace(c, p + 1)[i].phase == p
    ensures Aligned(c, Trace(c, p + 1), i)
  {
    var front, body := Trace(c, p) + Before(c, p), PhaseEvents(c, p, c.Reps());
    hide PhaseEvents, Syncs, Slot, Warm, c.Runs;
    PhaseWorks(c, p, c.Reps(), i - |front|);
    SyncsAt(front, body, i);
    SyncsConcat(Trace(c, p), Before(c, p));
    TraceSyncs(c, p);
    assert Syncs(Before(c, p)) == 0 by { BeforeSyncs(c, p); }
  }

  /** Every warm-up lies between the two crossings that begin its phase, and every
      measurement after exactly the crossings of its own repetition. */
  lemma {:induction false} WorkIsAligned(c: Config, phases: nat, i: nat)
    requires i < |Trace(c, phases)| && Timed(Trace(c, phases)[i])
    ensures Trace(c, phases)[i].phase < phases
    ensures Aligned(c, Trace(c, phases), i)
  {
    var p := phases - 1;
    if i < |Trace(c, p)| {
      WorkIsAligned(c, p, i);
      assert Trace(c, phases)[..i] == Trace(c, p)[..i];
    } else {
      LastPhaseWorks(c, p, i);
    }
  }

  /** What the worker's buffer holds: raw words, or the links of a chase. */
  datatype Contents = Words | Links(ways: nat)

  function After(t: seq<Event>): Contents {
    if t == [] then Words
    else match t[|t| - 1]
      case Build(ways) => Links(ways)
      case MemWarmup(_, readonly) => if readonly then After(t[..|t| - 1]) else Words
      case Measure(phase, _) => if phase == MEM_BW then Words else After(t[..|t| - 1])
      case _ => After(t[..|t| - 1])
  }

  predicate Harmless(e: Event) {
    !e.Build? && !(e.MemWarmup? && !e.readonly) && !(e.Measure? && e.phase == MEM_BW)
  }

  lemma {:induction false} HarmlessKeeps(a: seq<Event>, b: seq<Event>)
    requires forall k :: 0 <= k < |b| ==> Harmless(b[k])
    ensures After(a + b) == After(a)
  {
    if b == [] {
      assert a + b == a;
    } else {
      HarmlessKeeps(a, b[..|b| - 1]);
      assert (a + b)[..|a + b| - 1] == a + b[..|b| - 1];
    }
  }

  lemma {:induction false} PhaseHarmless(c: Config, phase: nat, reps: nat)
    requires phase != MEM_BW
    ensures forall k :: 0 <= k < |PhaseEvents(c, phase, reps)| ==> Harmless(PhaseEvents(c, phase, reps)[k])
  {
    if reps > 0 {
      PhaseHarmless(c, phase, reps - 1);
    }
  }

  /** The chase phases only ever run over the links built for them: no writing warm-up
      and no bandwidth sweep comes between a build and its chase. */
  lemma ChasesFindTheirLinks(c: Config, i: nat)
    requires i < |Trace(c, PHASES)| && Trace(c, PHASES)[i].Measure?
    ensures Trace(c, PHASES)[i].phase == MEM_LAT ==> After(Trace(c, PHASES)[..i]) == Links(1)
    ensures Trace(c, PHASES)[i].phase == MEM_MLP ==> After(Trace(c, PHASES)[..i]) == Links(CHASE_WAYS)
  {
    var t := Trace(c, PHASES);
    var p := t[i].phase;
    WorkIsAligned(c, PHASES, i);
    if p == MEM_LAT {
      if i >= |Trace(c, MEM_MLP) + Before(c, MEM_MLP)| {
        PhaseWorks(c, MEM_MLP, c.Reps(), i - |Trace(c, MEM_MLP) + Before(c, MEM_MLP)|);
        assert false;
      }
      assert i < |Trace(c, MEM_MLP)|;
      ChaseFinds(c, MEM_LAT, i);
      assert t[..i] == Trace(c, MEM_MLP)[..i];
    } else if p == MEM_MLP {
      ChaseFinds(c, MEM_MLP, i);
    }
  }

  lemma AfterBuild(c: Config, p: nat)
    requires p == MEM_LAT || p == MEM_MLP
    requires c.Runs(p)
    ensures After(Trace(c, p) + Before(c, p)) == Links(if p == MEM_LAT then 1 else CHASE_WAYS)
  {
    hide Trace;
    var front := Trace(c, p) + Before(c, p);
    assert front[..|front| - 1] == Trace(c, p);
  }

  lemma NotYet(c: Config, p: nat, i: nat)
    requires i < |Trace(c, p + 1)| && Timed(Trace(c, p + 1)[i]) && Trace(c, p + 1)[i].phase == p
    ensures i >= |Trace(c, p)|
  {
    if i < |Trace(c, p)| {
      assert Trace(c, p + 1)[i] == Trace(c, p)[i];
      hide *;
      WorkIsAligned(c, p, i);
      assert false;
    }
  }

  lemma ChaseFinds(c: Config, p: nat, i: nat)
    requires p == MEM_LAT || p == MEM_MLP
    requires i < |Trace(c, p + 1)| && Trace(c, p + 1)[i].Measure? && Trace(c, p + 1)[i].phase == p
    ensures After(Trace(c, p + 1)[..i]) == Links(if p == MEM_LAT then 1 else CHASE_WAYS)
  {
    assert Timed(Trace(c, p + 1)[i]);
    hide Trace, Before, PhaseEvents, After, Warm, Syncs, Harmless, CrossingsBefore, c.Runs;
    NotYet(c, p, i);
    LastPhaseWorks(c, p, i);
    AfterBuild(c, p);
    var front, body := Trace(c, p) + Before(c, p), PhaseEvents(c, p, c.Reps());
    PhaseHarmless(c, p, c.Reps());
    HarmlessKeeps(front, body[..i - |front|]);
    assert Trace(c, p + 1)[..i] == front + body[..i - |front|];
  }

  // ----- all the work of the suite, once each -----

  /** How often e occurs in the first `reps` repetitions of a phase. */
  function InPhase(c: Config, phase: nat, reps: nat, e: Event): nat {
    match e
    case Sync => 2 * reps
    case Build(_) => 0
    case Measure(p, rep) => if p == phase && rep < reps && c.Runs(p) then 1 else 0
    case Warmup(p) => if p == phase && p <= DISP_FIRST && reps > 0 then 1 else 0
    case MemWarmup(p, readonly) => if p == phase && p >= MEM_BW && readonly == (p != MEM_BW) && reps > 0 then 1 else 0
  }

  lemma Occurrences(a: seq<Event>, b: seq<Event>, e: Event)
    ensures multiset(a + b)[e] == multiset(a)[e] + multiset(b)[e]
  {
  }

  lemma OneHolds(x: Event, e: Event)
    ensures multiset([x])[e] == if x == e then 1 else 0
  {
  }

  lemma WarmHolds(phase: nat, rep: nat, e: Event)
    ensures multiset(Warm(phase, rep))[e] == if rep == 0 && (e.Warmup? || e.MemWarmup?) && [e] == Warm(phase, 0) then 1 else 0
  {
    if Warm(phase, rep) != [] { OneHolds(Warm(phase, rep)[0], e); }
  }

  lemma TailHolds(c: Config, phase: nat, rep: nat, e: Event)
    ensures multiset(if c.Runs(phase) then [Measure(phase, rep)] else [])[e] == if c.Runs(phase) && e == Measure(phase, rep) then 1 else 0
  {
    OneHolds(Measure(phase, rep), e);
  }

  lemma RepCounts(c: Config, phase: nat, rep: nat, e: Event)
    ensures multiset(RepEvents(c, phase, rep))[e] ==
            (if e == Sync then 2 else 0) + multiset(Warm(phase, rep))[e]
            + multiset(if c.Runs(phase) then [Measure(phase, rep)] else [])[e]
  {
    assert RepEvents(c, phase, rep)
        == [Sync] + Warm(phase, rep) + [Sync] + if c.Runs(phase) then [Measure(phase, rep)] else [];
    hide *;
    Occurrences([Sync] + Warm(phase, rep) + [Sync], if c.Runs(phase) then [Measure(phase, rep)] else [], e);
    Occurrences([Sync] + Warm(phase, rep), [Sync], e);
    Occurrences([Sync], Warm(phase, rep), e);
    OneHolds(Sync, e);
  }

  lemma RepHolds(c: Config, phase: nat, rep: nat, e: Event)
    ensures multiset(RepEvents(c, phase, rep))[e] == InPhase(c, phase, rep + 1, e) - InPhase(c, phase, rep, e)
  {
    hide RepEvents, c.Runs;
    RepCounts(c, phase, rep, e);
    WarmHolds(phase, rep, e);
    TailHolds(c, phase, rep, e);
  }

  lemma PhaseOnce(c: Config, phase: nat, reps: nat, e: Event)
    ensures reps > 0 ==> PhaseEvents(c, phase, reps) == PhaseEvents(c, phase, reps - 1) + RepEvents(c, phase, reps - 1)
    ensures reps == 0 ==> PhaseEvents(c, phase, reps) == [] && InPhase(c, phase, reps, e) == 0
  {
  }

  lemma {:induction false} PhaseHolds(c: Config, phase: nat, reps: nat, e: Event)
    ensures multiset(PhaseEvents(c, phase, reps))[e] == InPhase(c, phase, reps, e)
  {
    hide *;
    PhaseOnce(c, phase, reps, e);
    if reps > 0 {
      PhaseHolds(c, phase, reps - 1, e);
      RepHolds(c, phase, reps - 1, e);
      Occurrences(PhaseEvents(c, phase, reps - 1), RepEvents(c, phase, reps - 1), e);
    }
  }

  /** How often e occurs in the phases before `phases`. */
  function InTrace(c: Config, phases: nat, e: Event): nat {
    match e
    case Sync => 2 * c.Reps() * phases
    case Build(ways) => if c.MemOk() && ((ways == 1 && phases > MEM_LAT) || (ways == CHASE_WAYS && phases > MEM_MLP)) then 1 else 0
    case Measure(p, rep) => if p < phases then InPhase(c, p, c.Reps(), e) else 0
    case Warmup(p) => if p < phases then InPhase(c, p, c.Reps(), e) else 0
    case MemWarmup(p, readonly) => if p < phases then InPhase(c, p, c.Reps(), e) else 0
  }

  lemma TraceOnce(c: Config, phases: nat, e: Event)
    ensures phases > 0 ==>
      Trace(c, phases) == Trace(c, phases - 1) + Before(c, phases - 1) + PhaseEvents(c, phases - 1, c.Reps())
    ensures phases == 0 ==> Trace(c, phases) == [] && InTrace(c, phases, e) == 0
  {
  }

  lemma BeforeHolds(c: Config, phase: nat, e: Event)
    ensures InTrace(c, phase + 1, e) == InTrace(c, phase, e) + multiset(Before(c, phase))[e] + InPhase(c, phase, c.Reps(), e)
  {
    hide c.Reps, c.MemOk, c.Runs;
    OneMorePhase(c.Reps(), phase + 1);
  }

  lemma {:induction false} TraceHolds(c: Config, phases: nat, e: Event)
    ensures multiset(Trace(c, phases))[e] == InTrace(c, phases, e)
  {
    hide *;
    TraceOnce(c, phases, e);
    if phases > 0 {
      var p := phases - 1;
      TraceHolds(c, p, e);
      BeforeHolds(c, p, e);
      PhaseHolds(c, p, c.Reps(), e);
      Occurrences(Trace(c, p) + Before(c, p), PhaseEvents(c, p, c.Reps()), e);
      Occurrences(Trace(c, p), Before(c, p), e);
    }
  }

  /** Each phase measures every repetition once; the ladder needs its selectors, the memory
      phases their buffer of half a megabyte, the chases their links. */
  lemma EveryMeasurementOnce(c: Config, phase: nat, rep: nat)
    ensures multiset(Trace(c, 22))[Measure(phase, rep)] ==
            if && rep < (if c.reps > 0 then c.reps else 1)
               && (|| phase < 5
                   || (phase < 19 && c.idx)
                   || (phase == 19 && c.buf && c.memBytes >= 524288)
                   || (phase == 20 && c.buf && c.memBytes >= 524288 && c.built1)
                   || (phase == 21 && c.buf && c.memBytes >= 524288 && c.built8))
            then 1 else 0
  {
    hide Trace;
    TraceHolds(c, 22, Measure(phase, rep));
  }

  /** Every compute phase, the first rung and every memory phase warm up once; only the
      warm-up for bandwidth writes. */
  lemma EveryWarmupOnce(c: Config, phase: nat, readonly: bool)
    ensures multiset(Trace(c, 22))[Warmup(phase)] == if phase <= 5 then 1 else 0
    ensures multiset(Trace(c, 22))[MemWarmup(phase, readonly)] ==
            if 19 <= phase <= 21 && readonly == (phase != 19) then 1 else 0
  {
    hide Trace;
    TraceHolds(c, 22, Warmup(phase));
    TraceHolds(c, 22, MemWarmup(phase, readonly));
  }

  /** One chase is built, then eight, and only in a buffer that can hold them. */
  lemma EveryBuildOnce(c: Config, ways: nat)
    ensures multiset(Trace(c, 22))[Build(ways)] ==
            if c.buf && c.memBytes >= 524288 && (ways == 1 || ways == 8) then 1 else 0
    ensures multiset(Trace(c, 22))[Sync] == 44 * (if c.reps > 0 then c.reps else 1)
  {
    hide Trace;
    TraceHolds(c, 22, Build(ways));
    TraceHolds(c, 22, Sync);
  }

  // ----- and in order -----

  lemma {:induction false} SyncsAreOccurrences(t: seq<Event>)
    ensures Syncs(t) == multiset(t)[Sync]
  {
    if t != [] {
      SyncsAreOccurrences(t[..|t| - 1]);
      assert t == t[..|t| - 1] + [t[|t| - 1]];
      Occurrences(t[..|t| - 1], [t[|t| - 1]], Sync);
    }
  }

  lemma OccursIn(t: seq<Event>, i: nat)
    requires i < |t|
    ensures multiset(t)[t[i]] > 0
  {
    assert t[i] in multiset(t);
  }

  lemma NoBuildInPhase(c: Config, phase: nat, reps: nat, i: nat)
    requires i < |PhaseEvents(c, phase, reps)|
    ensures !PhaseEvents(c, phase, reps)[i].Build?
  {
    hide PhaseEvents;
    var t := PhaseEvents(c, phase, reps);
    OccursIn(t, i);
    PhaseHolds(c, phase, reps, t[i]);
  }

  lemma {:induction false} BuildPlaces(c: Config, phases: nat, i: nat)
    requires i < |Trace(c, phases)| && Trace(c, phases)[i].Build?
    ensures Syncs(Trace(c, phases)[..i]) == 2 * c.Reps() * if Trace(c, phases)[i].ways == 1 then MEM_LAT else MEM_MLP
  {
    var p := phases - 1;
    var front, before, body := Trace(c, p), Before(c, p), PhaseEvents(c, p, c.Reps());
    assert Trace(c, phases) == front + before + body;
    if i < |front| {
      BuildPlaces(c, p, i);
      assert Trace(c, phases)[..i] == front[..i];
    } else if i >= |front + before| {
      NoBuildInPhase(c, p, c.Reps(), i - |front + before|);
      assert false;
    } else {
      assert i == |front| && Trace(c, phases)[..i] == front;
      TraceSyncs(c, p);
    }
  }

  /** How many barriers the worker has crossed when it comes to a piece of its work. */
  lemma WorkStandsAt(c: Config, i: nat)
    requires i < |Trace(c, 22)|
    ensures var t, reps := Trace(c, 22), if c.reps > 0 then c.reps else 1;
            var crossed := multiset(t[..i])[Sync];
            match t[i]
            case Sync => true
            case Measure(phase, rep) => crossed == 2 * reps * phase + 2 * rep + 2
            case Warmup(phase) => crossed == 2 * reps * phase + 1
            case MemWarmup(phase, _) => crossed == 2 * reps * phase + 1
            case Build(ways) => crossed == 2 * reps * if ways == 1 then 20 else 21
  {
    hide Trace, Syncs;
    var t := Trace(c, 22);
    SyncsAreOccurrences(t[..i]);
    if Timed(t[i]) {
      WorkIsAligned(c, 22, i);
    } else if t[i].Build? {
      BuildPlaces(c, 22, i);
    }
  }

  lemma CrossingsGrow(t: seq<Event>, i: nat, j: nat)
    requires i <= j <= |t|
    ensures multiset(t[..i])[Sync] <= multiset(t[..j])[Sync]
  {
    assert t[..j] == t[..i] + t[i..j];
    Occurrences(t[..i], t[i..j], Sync);
  }

  lemma SuiteOrder(reps: nat, p: nat, r: nat, q: nat, s: nat)
    requires r < reps && s < reps && 2 * reps * p + 2 * r + 2 <= 2 * reps * q + 2 * s + 2
    ensures p < q || (p == q && r <= s)
  {
    if q < p {
      MoreCrossings(reps, q, p);
    }
  }

  lemma MoreCrossings(reps: nat, q: nat, p: nat)
    requires q < p
    ensures 2 * reps * q + 2 * reps <= 2 * reps * p
  {
    OneMorePhase(reps, q + 1);
    InStep(2 * reps, q + 1, p);
  }

  lemma InStep(k: nat, q: nat, p: nat)
    requires q <= p
    ensures k * q <= k * p
  {
  }

  /** Measurements come phase by phase, and within a phase repetition by repetition. */
  lemma MeasurementsInOrder(c: Config, i: nat, j: nat)
    requires i < j < |Trace(c, 22)| && Trace(c, 22)[i].Measure? && Trace(c, 22)[j].Measure?
    ensures var m, n := Trace(c, 22)[i], Trace(c, 22)[j];
            m.phase < n.phase || (m.phase == n.phase && m.rep <= n.rep)
  {
    hide Trace;
    var t := Trace(c, 22);
    WorkStandsAt(c, i);
    WorkStandsAt(c, j);
    CrossingsGrow(t, i, j);
    WorkIsAligned(c, 22, i);
    WorkIsAligned(c, 22, j);
    SuiteOrder(c.Reps(), t[i].phase, t[i].rep, t[j].phase, t[j].rep);
  }

  /** What leaves the links in place. */
  predicate LinksStand(e: Event) {
    match e
    case Build(_) => false
    case MemWarmup(_, readonly) => readonly
    case Measure(phase, _) => phase != 19
    case _ => true
  }

  lemma LinksBefore(c: Config, p: nat, t: seq<Event>, i: nat) returns (j: nat)
    requires (p == MEM_LAT || p == MEM_MLP) && t == Trace(c, p + 1)
    requires i < |t| && t[i].Measure? && t[i].phase == p
    ensures j < i && t[j] == Build(if p == MEM_LAT then 1 else 8)
    ensures forall k :: j < k < i ==> LinksStand(t[k])
  {
    assert Timed(t[i]);
    hide Trace, PhaseEvents, Syncs, CrossingsBefore;
    NotYet(c, p, i);
    LastPhaseWorks(c, p, i);
    PhaseHarmless(c, p, c.Reps());
    j := |Trace(c, p)|;
    var front, body := Trace(c, p) + Before(c, p), PhaseEvents(c, p, c.Reps());
    assert t[j] == Before(c, p)[0] && |front| == j + 1;
    forall k | j < k < i ensures LinksStand(t[k]) {
      assert t[k] == body[k - |front|];
      assert Harmless(body[k - |front|]);
    }
  }

  /** A chase runs over the links of its own build: nothing between the two links anew,
      sweeps, or warms up by writing. */
  lemma ChaseFollowsItsBuild(c: Config, i: nat) returns (j: nat)
    requires i < |Trace(c, 22)| && Trace(c, 22)[i].Measure? && Trace(c, 22)[i].phase >= 20
    ensures j < i && Trace(c, 22)[j] == Build(if Trace(c, 22)[i].phase == 20 then 1 else 8)
    ensures forall k :: j < k < i ==>
              match Trace(c, 22)[k]
              case Build(_) => false
              case MemWarmup(_, readonly) => readonly
              case Measure(phase, _) => phase != 19
              case _ => true
  {
    var t := Trace(c, 22);
    assert Timed(t[i]) && t == Trace(c, MEM_MLP) + Before(c, MEM_MLP) + PhaseEvents(c, MEM_MLP, c.Reps());
    hide Trace, PhaseEvents, Syncs;
    WorkIsAligned(c, 22, i);
    if t[i].phase == 20 {
      if i >= |Trace(c, 21)| {
        LastPhaseWorks(c, 21, i);
        assert false;
      }
      j := LinksBefore(c, 20, Trace(c, 21), i);
      forall k | j < k < i ensures LinksStand(t[k]) {
        assert t[k] == Trace(c, 21)[k];
      }
    } else {
      j := LinksBefore(c, 21, t, i);
    }
  }
}
