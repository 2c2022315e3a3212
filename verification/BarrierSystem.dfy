/**
 Any number of workers around one barrier, as run_workers starts and joins them. One
 action is one critical section, one hand-over of the mutex, one wake-up, or one piece
 of work between barriers; any thread may take the next one.
 */
module BarrierSystem {
  import opened PlatBarrier
  import opened WorkerRun
  import opened Wrappers

  /** Where a thread stands in plat_barrier_wait. */
  datatype Pc =
    | Running               // outside the barrier
    | Locking               // in pthread_mutex_lock
    | Arriving              // has the mutex, has not counted itself
    | Opening               // counted itself last, has yet to broadcast
    | Opened                // has broadcast
    | Checking(mine: nat)   // has the mutex, is about to test the loop condition
    | Sleeping(mine: nat)   // in pthread_cond_wait
    | Waking(mine: nat)     // woken, wants the mutex back
    | Leaving               // out of the loop, still has the mutex
  {
    predicate Holds() { Arriving? || Opening? || Opened? || Checking? || Leaving? }
    predicate Waits() { Checking? || Sleeping? || Waking? }
    predicate Outside() { Running? || Locking? || Arriving? }
  }

  /** `entered` and `results` record history: how often the thread has been counted, and
      what each of its completed waits returned (true for PLAT_BARRIER_SERIAL_THREAD). */
  datatype Thread = Thread(pc: Pc, todo: seq<Event>, entered: nat, results: seq<bool>)

  /** `opener[k]` records which thread opened round k. Threads below `joined` have been joined. */
  datatype State = State(owner: Option<nat>, barrier: Shared, threads: seq<Thread>,
                         opener: seq<nat>, joined: nat)

  datatype Action =
    | Work(t: nat) | Call(t: nat) | Acquire(t: nat) | Arrive(t: nat) | Broadcast(t: nat)
    | Test(t: nat) | Spurious(t: nat) | Release(t: nat) | Join

  predicate Enabled(s: State, a: Action) {
    if a.Join? then
      s.joined < |s.threads| && s.threads[s.joined].pc.Running? && s.threads[s.joined].todo == []
    else if a.t >= |s.threads| then false
    else
      var th := s.threads[a.t];
      match a
      case Work(_) => th.pc.Running? && th.todo != [] && th.todo[0] != Sync
      case Call(_) => th.pc.Running? && th.todo != [] && th.todo[0] == Sync
      case Acquire(_) => s.owner.None? && (th.pc.Locking? || th.pc.Waking?)
      case Arrive(_) => th.pc.Arriving?
      case Broadcast(_) => th.pc.Opening?
      case Test(_) => th.pc.Checking?
      case Spurious(_) => th.pc.Sleeping?
      case Release(_) => th.pc.Opened? || th.pc.Leaving?
  }

  function Put(s: State, t: nat, th: Thread): State
    requires t < |s.threads|
  {
    s.(threads := s.threads[t := th])
  }

  function Woken(th: Thread): Thread {
    if th.pc.Sleeping? then th.(pc := Waking(th.pc.mine)) else th
  }

  function Apply(s: State, a: Action): (r: State)
    requires Enabled(s, a)
    ensures |r.threads| == |s.threads|
  {
    if a.Join? then s.(joined := s.joined + 1) else
    var th := s.threads[a.t];
    match a
    case Work(t) => Put(s, t, th.(todo := th.todo[1..]))
    case Call(t) => Put(s, t, th.(pc := Locking, todo := th.todo[1..]))
    case Acquire(t) =>
      Put(s, t, th.(pc := if th.pc.Locking? then Arriving else Checking(th.pc.mine))).(owner := Some(t))
    case Arrive(t) =>
      var pc := if Opens(s.barrier) then Opening else Checking(s.barrier.generation);
      Put(s, t, th.(pc := pc, entered := th.entered + 1)).(
        barrier := Arrived(s.barrier),
        opener := if Opens(s.barrier) then s.opener + [t] else s.opener)
    case Broadcast(t) =>
      s.(threads := seq(|s.threads|, i requires 0 <= i < |s.threads| =>
        if i == t then th.(pc := Opened) else Woken(s.threads[i])))
    case Test(t) =>
      if StillClosed(s.barrier, th.pc.mine)
      then Put(s, t, th.(pc := Sleeping(th.pc.mine))).(owner := None)
      else Put(s, t, th.(pc := Leaving))
    case Spurious(t) => Put(s, t, Woken(th))
    case Release(t) => Put(s, t, th.(pc := Running, results := th.results + [th.pc.Opened?])).(owner := None)
  }

  function Start(programs: seq<seq<Event>>): State {
    State(None, Shared(|programs|, 0, 0),
          seq(|programs|, i requires 0 <= i < |programs| => Thread(Running, programs[i], 0, [])), [], 0)
  }

  predicate ValidRun(s: State, run: seq<Action>)
    decreases |run|
  {
    run == [] || (Enabled(s, run[0]) && ValidRun(Apply(s, run[0]), run[1..]))
  }

  function Final(s: State, run: seq<Action>): (r: State)
    requires ValidRun(s, run)
    ensures |r.threads| == |s.threads|
    decreases |run|
  {
    if run == [] then s else Final(Apply(s, run[0]), run[1..])
  }

  // ----- the invariant -----

  function Entered(ts: seq<Thread>, round: nat): nat {
    if ts == [] then 0
    else Entered(ts[..|ts| - 1], round) + (if ts[|ts| - 1].entered == round then 1 else 0)
  }

  /** What one thread's place says about its history, `o` rounds having opened. */
  predicate ThreadInv(s: State, t: nat)
    requires t < |s.threads|
  {
    var th, o := s.threads[t], |s.opener|;
    && (th.entered == o || th.entered == o + 1)
    && |th.results| <= o
    && (forall k :: 0 <= k < |th.results| ==> th.results[k] == (s.opener[k] == t))
    && (th.pc.Outside() ==> |th.results| == th.entered == o)
    && (!th.pc.Outside() ==> |th.results| + 1 == th.entered)
    && (th.pc.Waits() ==> th.pc.mine == (th.entered - 1) % UINT_RANGE)
    && (th.pc.Waits() && th.entered == o ==> s.opener[o - 1] != t)
    && (th.pc.Sleeping? && th.entered == o ==> s.owner.Some? && s.owner.value < |s.threads| && s.threads[s.owner.value].pc.Opening?)
    && (th.pc.Leaving? ==> th.entered == o && s.opener[o - 1] != t)
    && (th.pc.Opening? || th.pc.Opened? ==> th.entered == o && s.opener[o - 1] == t)
    && (th.pc.Opening? ==> s.barrier.waiting == 0)
    && (th.pc.Holds() <==> s.owner == Some(t))
  }

  /** Barrier crossings a thread has made, is making, or still has to make. */
  function Program(th: Thread): nat {
    th.entered + Syncs(th.todo) + (if th.pc.Locking? || th.pc.Arriving? then 1 else 0)
  }

  predicate SharedInv(s: State) {
    var n, o := |s.threads|, |s.opener|;
    && 0 < n < UINT_RANGE
    && s.barrier.limit == n
    && s.barrier.generation == o % UINT_RANGE
    && s.barrier.waiting == Entered(s.threads, o + 1) < n
    && (s.owner.Some? ==> s.owner.value < n)
    && (forall k :: 0 <= k < o ==> s.opener[k] < n)
    && s.joined <= n
  }

  predicate Inv(s: State, due: seq<nat>) {
    && SharedInv(s)
    && |due| == |s.threads|
    && (forall t :: 0 <= t < |s.threads| ==> ThreadInv(s, t))
    && (forall t :: 0 <= t < |s.threads| ==> Program(s.threads[t]) == due[t])
    && (forall t :: 0 <= t < s.joined ==> s.threads[t].pc.Running? && s.threads[t].todo == [])
  }

  lemma {:induction false} EnteredUpdate(ts: seq<Thread>, t: nat, th: Thread, round: nat)
    requires t < |ts|
    ensures Entered(ts[t := th], round)
         == Entered(ts, round) - (if ts[t].entered == round then 1 else 0) + (if th.entered == round then 1 else 0)
  {
    var n := |ts| - 1;
    if t < n {
      EnteredUpdate(ts[..n], t, th, round);
      assert ts[t := th][..n] == ts[..n][t := th];
    } else {
      assert ts[t := th][..n] == ts[..n];
    }
  }

  lemma {:induction false} EnteredSame(ts: seq<Thread>, us: seq<Thread>, round: nat)
    requires |ts| == |us| && forall i :: 0 <= i < |ts| ==> ts[i].entered == us[i].entered
    ensures Entered(ts, round) == Entered(us, round)
  {
    if ts != [] {
      EnteredSame(ts[..|ts| - 1], us[..|us| - 1], round);
    }
  }

  lemma {:induction false} EnteredBound(ts: seq<Thread>, round: nat)
    ensures Entered(ts, round) <= |ts|
    ensures Entered(ts, round) == |ts| ==> forall i :: 0 <= i < |ts| ==> ts[i].entered == round
    ensures Entered(ts, round) == 0 ==> forall i :: 0 <= i < |ts| ==> ts[i].entered != round
    ensures (forall i :: 0 <= i < |ts| ==> ts[i].entered == round) ==> Entered(ts, round) == |ts|
    ensures (forall i :: 0 <= i < |ts| ==> ts[i].entered != round) ==> Entered(ts, round) == 0
  {
    if ts != [] {
      EnteredBound(ts[..|ts| - 1], round);
    }
  }

  /** Steps that touch one thread and the mutex only. */
  predicate Local(s: State, t: nat, th: Thread, owner: Option<nat>, due: seq<nat>)
    requires t < |s.threads| && |due| == |s.threads|
  {
    && th.entered == s.threads[t].entered && Program(th) == due[t]
    && (t < s.joined ==> th.pc.Running? && th.todo == [])
    && (owner == s.owner || (owner == Some(t) && s.owner.None?) || (owner.None? && s.owner == Some(t)))
    && ThreadInv(Put(s, t, th).(owner := owner), t)
    && !s.threads[t].pc.Opening?
  }

  lemma LocalThread(s: State, t: nat, th: Thread, owner: Option<nat>, due: seq<nat>, u: nat)
    requires Inv(s, due) && t < |s.threads| == |due| && Local(s, t, th, owner, due) && u < |s.threads|
    ensures ThreadInv(Put(s, t, th).(owner := owner), u)
  {
    assert ThreadInv(s, u) && ThreadInv(s, t);
  }

  lemma LocalStep(s: State, t: nat, th: Thread, owner: Option<nat>, due: seq<nat>)
    requires Inv(s, due) && t < |s.threads| == |due| && Local(s, t, th, owner, due)
    ensures Inv(Put(s, t, th).(owner := owner), due)
  {
    var s' := Put(s, t, th).(owner := owner);
    EnteredUpdate(s.threads, t, th, |s.opener| + 1);
    forall u | 0 <= u < |s.threads| ensures ThreadInv(s', u) {
      LocalThread(s, t, th, owner, due, u);
    }
  }

  /** The generation tells a round that opened from one that has not, wrap or no wrap,
      because a waiting thread is never more than one round behind. */
  lemma GenerationDecides(rounds: nat, entered: nat)
    requires entered == rounds || entered == rounds + 1
    requires entered > 0
    ensures (entered - 1) % UINT_RANGE == rounds % UINT_RANGE <==> entered == rounds + 1
  {
  }

  lemma SyncsFirst(t: seq<Event>)
    requires t != []
    ensures Syncs(t) == (if t[0] == Sync then 1 else 0) + Syncs(t[1..])
  {
    SyncsConcat([t[0]], t[1..]);
    assert t == [t[0]] + t[1..];
    assert Syncs([t[0]]) == if t[0] == Sync then 1 else 0;
  }

  lemma WorkKeeps(s: State, t: nat, due: seq<nat>)
    requires Inv(s, due) && Enabled(s, Work(t))
    ensures Inv(Apply(s, Work(t)), due)
  {
    var s', todo := Apply(s, Work(t)), s.threads[t].todo;
    assert ThreadInv(s, t) && Program(s.threads[t]) == due[t];
    SyncsFirst(todo);
    LocalStep(s, t, s'.threads[t], s'.owner, due);
  }

  lemma CallKeeps(s: State, t: nat, due: seq<nat>)
    requires Inv(s, due) && Enabled(s, Call(t))
    ensures Inv(Apply(s, Call(t)), due)
  {
    var s', todo := Apply(s, Call(t)), s.threads[t].todo;
    assert ThreadInv(s, t) && Program(s.threads[t]) == due[t];
    SyncsFirst(todo);
    LocalStep(s, t, s'.threads[t], s'.owner, due);
  }

  lemma AcquireKeeps(s: State, t: nat, due: seq<nat>)
    requires Inv(s, due) && Enabled(s, Acquire(t))
    ensures Inv(Apply(s, Acquire(t)), due)
  {
    var s' := Apply(s, Acquire(t));
    assert ThreadInv(s, t) && Program(s.threads[t]) == due[t];
    LocalStep(s, t, s'.threads[t], s'.owner, due);
  }

  lemma SpuriousKeeps(s: State, t: nat, due: seq<nat>)
    requires Inv(s, due) && Enabled(s, Spurious(t))
    ensures Inv(Apply(s, Spurious(t)), due)
  {
    var s' := Apply(s, Spurious(t));
    assert ThreadInv(s, t) && Program(s.threads[t]) == due[t];
    LocalStep(s, t, s'.threads[t], s'.owner, due);
  }

  lemma ReleaseKeeps(s: State, t: nat, due: seq<nat>)
    requires Inv(s, due) && Enabled(s, Release(t))
    ensures Inv(Apply(s, Release(t)), due)
  {
    var s' := Apply(s, Release(t));
    assert ThreadInv(s, t) && Program(s.threads[t]) == due[t];
    LocalStep(s, t, s'.threads[t], s'.owner, due);
  }

  lemma TestKeeps(s: State, t: nat, due: seq<nat>)
    requires Inv(s, due) && Enabled(s, Test(t))
    ensures Inv(Apply(s, Test(t)), due)
  {
    var s', th := Apply(s, Test(t)), s.threads[t];
    assert ThreadInv(s, t) && Program(th) == due[t];
    GenerationDecides(|s.opener|, th.entered);
    LocalStep(s, t, s'.threads[t], s'.owner, due);
  }


  /** A thread that has not moved keeps its place while the rounds, the mutex and the
      thread about to broadcast stay what they were. */
  lemma ThreadFrame(s: State, s': State, u: nat)
    requires u < |s.threads| == |s'.threads| && ThreadInv(s, u)
    requires s'.threads[u] == s.threads[u] && s'.opener == s.opener && s'.owner == s.owner
    requires !s.threads[u].pc.Opening?
    requires s.owner.Some? && s.owner.value < |s.threads| && s.threads[s.owner.value].pc.Opening? ==>
               s'.threads[s.owner.value].pc.Opening?
    ensures ThreadInv(s', u)
  {
  }

  lemma ArriveShutThread(s: State, t: nat, u: nat, due: seq<nat>)
    requires Inv(s, due) && Enabled(s, Arrive(t)) && !Opens(s.barrier) && u < |s.threads|
    ensures ThreadInv(Apply(s, Arrive(t)), u)
    ensures Program(Apply(s, Arrive(t)).threads[u]) == due[u]
  {
    assert ThreadInv(s, t) && ThreadInv(s, u) && Program(s.threads[u]) == due[u];
    if u != t {
      ThreadFrame(s, Apply(s, Arrive(t)), u);
    }
  }

  lemma InvShared(s: State, due: seq<nat>)
    requires Inv(s, due)
    ensures SharedInv(s)
  {
  }

  lemma ArriveShutShared(s: State, t: nat, due: seq<nat>)
    requires Inv(s, due) && Enabled(s, Arrive(t)) && !Opens(s.barrier)
    ensures SharedInv(Apply(s, Arrive(t)))
  {
    ArrivalCounts(s, t, due);
    InvShared(s, due);
    hide Entered, Inv;
    EnteredUpdate(s.threads, t, Apply(s, Arrive(t)).threads[t], |s.opener| + 1);
  }

  lemma ArriveShutKeeps(s: State, t: nat, due: seq<nat>)
    requires Inv(s, due) && Enabled(s, Arrive(t)) && !Opens(s.barrier)
    ensures Inv(Apply(s, Arrive(t)), due)
  {
    var s' := Apply(s, Arrive(t));
    ArriveShutShared(s, t, due);
    forall u | 0 <= u < |s.threads|
      ensures ThreadInv(s', u) && Program(s'.threads[u]) == due[u]
    {
      ArriveShutThread(s, t, u, due);
    }
  }

  lemma AllEntered(ts: seq<Thread>, round: nat)
    requires Entered(ts, round) == |ts|
    ensures forall i :: 0 <= i < |ts| ==> ts[i].entered == round
    ensures Entered(ts, round + 1) == 0
  {
    EnteredBound(ts, round);
    EnteredBound(ts, round + 1);
  }

  lemma LastArrivalCounts(s: State, t: nat, due: seq<nat>)
    requires Inv(s, due) && Enabled(s, Arrive(t)) && Opens(s.barrier)
    ensures Entered(Apply(s, Arrive(t)).threads, |s.opener| + 1) == |s.threads|
  {
    hide *;
    var s' := Apply(s, Arrive(t));
    ArrivalCounts(s, t, due);
    OneMissing(s, due);
    EnteredUpdate(s.threads, t, s'.threads[t], |s.opener| + 1);
  }

  lemma ArrivalCounts(s: State, t: nat, due: seq<nat>)
    requires Inv(s, due) && Enabled(s, Arrive(t))
    ensures t < |s.threads| && Apply(s, Arrive(t)).threads == s.threads[t := Apply(s, Arrive(t)).threads[t]]
    ensures s.threads[t].entered == |s.opener| && Apply(s, Arrive(t)).threads[t].entered == |s.opener| + 1
  {
    assert ThreadInv(s, t);
  }

  lemma OneMissing(s: State, due: seq<nat>)
    requires Inv(s, due) && Opens(s.barrier)
    ensures Entered(s.threads, |s.opener| + 1) + 1 == |s.threads|
  {
  }

  /** The last arrival finds everyone else counted in the same round and still waiting in it. */
  lemma LastArrival(s: State, t: nat, due: seq<nat>)
    requires Inv(s, due) && Enabled(s, Arrive(t)) && Opens(s.barrier)
    ensures forall u :: 0 <= u < |s.threads| && u != t ==>
              s.threads[u].entered == |s.opener| + 1 && s.threads[u].pc.Waits()
    ensures Entered(Apply(s, Arrive(t)).threads, |s.opener| + 2) == 0
  {
    var s' := Apply(s, Arrive(t));
    LastArrivalCounts(s, t, due);
    AllEntered(s'.threads, |s.opener| + 1);
    forall u | 0 <= u < |s.threads| && u != t
      ensures s.threads[u].entered == |s.opener| + 1 && s.threads[u].pc.Waits()
    {
      assert ThreadInv(s, t) && ThreadInv(s, u) && s'.threads[u] == s.threads[u];
    }
  }

  lemma ArriveOpensThread(s: State, t: nat, u: nat, due: seq<nat>)
    requires Inv(s, due) && Enabled(s, Arrive(t)) && Opens(s.barrier) && u < |s.threads|
    requires u != t ==> s.threads[u].entered == |s.opener| + 1 && s.threads[u].pc.Waits()
    ensures ThreadInv(Apply(s, Arrive(t)), u)
    ensures Program(Apply(s, Arrive(t)).threads[u]) == due[u]
  {
    assert ThreadInv(s, t) && ThreadInv(s, u) && Program(s.threads[u]) == due[u];
  }

  lemma ArriveOpensShared(s: State, t: nat, due: seq<nat>)
    requires Inv(s, due) && Enabled(s, Arrive(t)) && Opens(s.barrier)
    ensures SharedInv(Apply(s, Arrive(t)))
  {
    LastArrival(s, t, due);
  }

  lemma ArriveOpensKeeps(s: State, t: nat, due: seq<nat>)
    requires Inv(s, due) && Enabled(s, Arrive(t)) && Opens(s.barrier)
    ensures Inv(Apply(s, Arrive(t)), due)
  {
    var s' := Apply(s, Arrive(t));
    ArriveOpensShared(s, t, due);
    LastArrival(s, t, due);
    forall u | 0 <= u < |s.threads|
      ensures ThreadInv(s', u) && Program(s'.threads[u]) == due[u]
    {
      ArriveOpensThread(s, t, u, due);
    }
  }

  lemma BroadcastKeeps(s: State, t: nat, due: seq<nat>)
    requires Inv(s, due) && Enabled(s, Broadcast(t))
    ensures Inv(Apply(s, Broadcast(t)), due)
  {
    var s' := Apply(s, Broadcast(t));
    EnteredSame(s.threads, s'.threads, |s.opener| + 1);
    forall u | 0 <= u < |s.threads|
      ensures ThreadInv(s', u) && Program(s'.threads[u]) == due[u]
    {
      BroadcastThread(s, t, u, due);
    }
  }

  lemma BroadcastThread(s: State, t: nat, u: nat, due: seq<nat>)
    requires Inv(s, due) && Enabled(s, Broadcast(t)) && u < |s.threads|
    ensures ThreadInv(Apply(s, Broadcast(t)), u)
    ensures Program(Apply(s, Broadcast(t)).threads[u]) == due[u]
  {
    assert ThreadInv(s, t) && ThreadInv(s, u) && Program(s.threads[u]) == due[u];
    var th := Apply(s, Broadcast(t)).threads[u];
    assert !th.pc.Sleeping? && th.entered == s.threads[u].entered && th.results == s.threads[u].results;
  }

  lemma JoinKeeps(s: State, due: seq<nat>)
    requires Inv(s, due) && Enabled(s, Join)
    ensures Inv(Apply(s, Join), due)
  {
    var s' := Apply(s, Join);
    forall u | 0 <= u < |s.threads| ensures ThreadInv(s', u) {
      assert ThreadInv(s, u);
    }
  }

  /** Every step keeps the invariant. */
  lemma StepKeeps(s: State, a: Action, due: seq<nat>)
    requires Inv(s, due) && Enabled(s, a)
    ensures Inv(Apply(s, a), due)
  {
    match a
    case Work(t) => WorkKeeps(s, t, due);
    case Call(t) => CallKeeps(s, t, due);
    case Acquire(t) => AcquireKeeps(s, t, due);
    case Arrive(t) =>
      if Opens(s.barrier) {
        ArriveOpensKeeps(s, t, due);
      } else {
        ArriveShutKeeps(s, t, due);
      }
    case Broadcast(t) => BroadcastKeeps(s, t, due);
    case Test(t) => TestKeeps(s, t, due);
    case Spurious(t) => SpuriousKeeps(s, t, due);
    case Release(t) => ReleaseKeeps(s, t, due);
    case Join => JoinKeeps(s, due);
  }

  /** Programs a run can start: at least one, and fewer than `unsigned` counts. */
  predicate Programs(ps: seq<seq<Event>>) {
    0 < |ps| < UINT_RANGE
  }

  /** How often each program crosses the barrier. */
  function Due(ps: seq<seq<Event>>): (d: seq<nat>)
    ensures |d| == |ps|
  {
    seq(|ps|, t requires 0 <= t < |ps| => Syncs(ps[t]))
  }

  predicate Even(due: seq<nat>) {
    forall t, u :: 0 <= t < |due| && 0 <= u < |due| ==> due[t] == due[u]
  }

  lemma StartInv(ps: seq<seq<Event>>)
    requires Programs(ps)
    ensures Inv(Start(ps), Due(ps))
  {
    EnteredBound(Start(ps).threads, 1);
  }

  lemma {:induction false} RunKeeps(s: State, run: seq<Action>, due: seq<nat>)
    requires Inv(s, due) && ValidRun(s, run)
    ensures Inv(Final(s, run), due)
    decreases |run|
  {
    if run != [] {
      StepKeeps(s, run[0], due);
      RunKeeps(Apply(s, run[0]), run[1..], due);
    }
  }

  // ----- safety, over every interleaving -----

  /** Every thread has returned from its wait in round k. */
  predicate AllOut(s: State, k: nat) {
    forall t :: 0 <= t < |s.threads| ==> k < |s.threads[t].results|
  }

  /** No thread has returned from its k-th wait before every thread was counted into its
      k-th; completed waits differ by at most one; a round names at most one serial
      thread, and exactly one once everybody is out of it. */
  ghost predicate Safe(s: State) {
    && (forall t, u :: 0 <= t < |s.threads| && 0 <= u < |s.threads| ==>
          |s.threads[t].results| <= s.threads[u].entered &&
          |s.threads[t].results| <= |s.threads[u].results| + 1)
    && (forall t, u, k ::
          (0 <= t < |s.threads| && 0 <= u < |s.threads| && 0 <= k < |s.threads[t].results| && k < |s.threads[u].results|)
          ==> (s.threads[t].results[k] && s.threads[u].results[k] ==> t == u))
    && (forall k: nat :: AllOut(s, k) ==> exists t :: 0 <= t < |s.threads| && s.threads[t].results[k])
  }

  lemma InvSafe(s: State, due: seq<nat>)
    requires Inv(s, due)
    ensures Safe(s)
  {
    forall t | 0 <= t < |s.threads|
      ensures |s.opener| - 1 <= |s.threads[t].results| <= |s.opener| <= s.threads[t].entered
      ensures forall k :: 0 <= k < |s.threads[t].results| ==> s.threads[t].results[k] == (s.opener[k] == t)
    {
      assert ThreadInv(s, t);
    }
    forall k: nat | AllOut(s, k)
      ensures exists t :: 0 <= t < |s.threads| && s.threads[t].results[k]
    {
      assert k < |s.threads[0].results| <= |s.opener|;
      var t := s.opener[k];
      assert s.threads[t].results[k];
    }
  }

  lemma BarrierSafety(ps: seq<seq<Event>>, run: seq<Action>)
    requires Programs(ps) && ValidRun(Start(ps), run)
    ensures Safe(Final(Start(ps), run))
  {
    StartInv(ps);
    RunKeeps(Start(ps), run, Due(ps));
    InvSafe(Final(Start(ps), run), Due(ps));
  }

  /** The generation a waiting thread read is the current one or the one before, they
      differ exactly when its round has opened, and if it then still sleeps, the broadcast
      that wakes it is the next thing the mutex's owner does. */
  predicate NearGeneration(s: State, t: nat)
    requires t < |s.threads| && s.threads[t].pc.Waits()
  {
    var th, now := s.threads[t], s.barrier.generation;
    && (th.pc.mine == now || (th.pc.mine + 1) % UINT_RANGE == now)
    && (th.pc.mine != now <==> th.entered <= |s.opener|)
    && (th.pc.Sleeping? && th.pc.mine != now ==> s.owner.Some? && Enabled(s, Broadcast(s.owner.value)))
  }

  lemma WaitingPlace(s: State, due: seq<nat>, t: nat)
    requires Inv(s, due) && t < |s.threads| && s.threads[t].pc.Waits()
    ensures var th, o := s.threads[t], |s.opener|;
            && th.entered > 0 && (th.entered == o || th.entered == o + 1)
            && th.pc.mine == (th.entered - 1) % UINT_RANGE && s.barrier.generation == o % UINT_RANGE
            && (th.pc.Sleeping? && th.entered == o ==> s.owner.Some? && Enabled(s, Broadcast(s.owner.value)))
  {
    hide Program, Entered, Syncs;
    assert ThreadInv(s, t);
  }

  lemma InvNear(s: State, due: seq<nat>, t: nat)
    requires Inv(s, due) && t < |s.threads| && s.threads[t].pc.Waits()
    ensures NearGeneration(s, t)
  {
    WaitingPlace(s, due, t);
    hide Inv, Apply;
    GenerationDecides(|s.opener|, s.threads[t].entered);
  }

  /** However often the generation has wrapped, no thread is stranded or let go early. */
  lemma GenerationLag(ps: seq<seq<Event>>, run: seq<Action>, t: nat)
    requires Programs(ps) && ValidRun(Start(ps), run)
    requires t < |ps| && Final(Start(ps), run).threads[t].pc.Waits()
    ensures NearGeneration(Final(Start(ps), run), t)
  {
    StartInv(ps);
    RunKeeps(Start(ps), run, Due(ps));
    InvNear(Final(Start(ps), run), Due(ps), t);
  }

  // ----- progress and termination -----

  predicate Done(s: State) {
    s.joined == |s.threads|
  }

  /** A run that is not over has a step to take, and it need not be a spurious wake-up. */
  lemma NeverStuck(s: State, due: seq<nat>) returns (a: Action)
    requires Inv(s, due) && Even(due) && !Done(s)
    ensures !a.Spurious? && Enabled(s, a)
  {
    if s.owner.Some? {
      var t := s.owner.value;
      assert ThreadInv(s, t);
      a := match s.threads[t].pc
        case Arriving => Arrive(t)
        case Opening => Broadcast(t)
        case Checking(_) => Test(t)
        case _ => Release(t);
    } else if t :| 0 <= t < |s.threads| && (s.threads[t].pc.Locking? || s.threads[t].pc.Waking?) {
      a := Acquire(t);
    } else if t :| 0 <= t < |s.threads| && s.threads[t].pc.Running? && s.threads[t].todo != [] {
      a := if s.threads[t].todo[0] == Sync then Call(t) else Work(t);
    } else {
      QuietIsFinished(s, due);
      a := Join;
    }
  }

  /** With the mutex free, nobody wanting it and nobody with work left, nobody sleeps: a
      sleeper would be waiting for a thread that still owes a crossing. */
  lemma QuietIsFinished(s: State, due: seq<nat>)
    requires Inv(s, due) && Even(due) && s.owner.None?
    requires forall t :: 0 <= t < |s.threads| ==> !s.threads[t].pc.Locking? && !s.threads[t].pc.Waking?
    requires forall t :: 0 <= t < |s.threads| && s.threads[t].pc.Running? ==> s.threads[t].todo == []
    ensures forall t :: 0 <= t < |s.threads| ==> s.threads[t].pc.Running? && s.threads[t].todo == []
  {
    forall t | 0 <= t < |s.threads|
      ensures s.threads[t].pc.Running? || (s.threads[t].pc.Sleeping? && s.threads[t].entered == |s.opener| + 1)
      ensures s.threads[t].pc.Running? ==> s.threads[t].entered == |s.opener| == due[t]
      ensures s.threads[t].entered <= due[t]
    {
      assert ThreadInv(s, t) && Program(s.threads[t]) == due[t];
    }
    if forall t :: 0 <= t < |s.threads| ==> s.threads[t].pc.Sleeping? {
      EnteredBound(s.threads, |s.opener| + 1);
      assert false;
    }
  }

  /** How much a thread still has to do: every crossing ahead of it costs eleven, and the
      stages inside a crossing count down, more slowly while its round is closed. */
  function Rank(th: Thread, rounds: nat): nat {
    var closed := th.entered > rounds;
    match th.pc
    case Running => 0
    case Locking => 10
    case Arriving => 9
    case Waking(_) => if closed then 8 else 4
    case Checking(_) => if closed then 7 else 3
    case Sleeping(_) => if closed then 6 else 5
    case Opening => 4
    case Opened => 3
    case Leaving => 2
  }

  function Cost(th: Thread, rounds: nat): nat {
    10 * Syncs(th.todo) + |th.todo| + Rank(th, rounds)
  }

  function Costs(ts: seq<Thread>, rounds: nat): nat {
    if ts == [] then 0 else Costs(ts[..|ts| - 1], rounds) + Cost(ts[|ts| - 1], rounds)
  }

  function Potential(s: State, n: nat): int {
    Costs(s.threads, |s.opener|) + (n - s.joined)
  }

  lemma {:induction false} CostsUpdate(ts: seq<Thread>, t: nat, th: Thread, rounds: nat)
    requires t < |ts|
    ensures Costs(ts[t := th], rounds) == Costs(ts, rounds) - Cost(ts[t], rounds) + Cost(th, rounds)
  {
    var n := |ts| - 1;
    if t < n {
      CostsUpdate(ts[..n], t, th, rounds);
      assert ts[t := th][..n] == ts[..n][t := th];
    } else {
      assert ts[t := th][..n] == ts[..n];
    }
  }

  lemma {:induction false} CostsDrop(ts: seq<Thread>, us: seq<Thread>, r: nat, r': nat, t: nat)
    requires |ts| == |us| && forall i :: 0 <= i < |ts| ==> Cost(us[i], r') <= Cost(ts[i], r)
    ensures Costs(us, r') <= Costs(ts, r)
    ensures t < |ts| && Cost(us[t], r') < Cost(ts[t], r) ==> Costs(us, r') < Costs(ts, r)
  {
    if ts != [] {
      CostsDrop(ts[..|ts| - 1], us[..|us| - 1], r, r', t);
    }
  }

  /** What an action may add: only a spurious wake-up adds anything, and only two. */
  function Allowance(a: Action): int {
    if a.Spurious? then 2 else -1
  }

  lemma OneThreadPays(s: State, a: Action, due: seq<nat>)
    requires Inv(s, due) && Enabled(s, a)
    requires !a.Join? && !a.Broadcast? && !(a.Arrive? && Opens(s.barrier))
    ensures Cost(Apply(s, a).threads[a.t], |s.opener|) <= Cost(s.threads[a.t], |s.opener|) + Allowance(a)
  {
    var th := s.threads[a.t];
    assert ThreadInv(s, a.t);
    hide Inv, Entered, Program, Syncs;
    if a.Work? || a.Call? { SyncsFirst(th.todo); }
    if a.Test? { GenerationDecides(|s.opener|, th.entered); }
  }

  lemma StepPays(s: State, a: Action, due: seq<nat>)
    requires Inv(s, due) && Enabled(s, a)
    ensures Potential(Apply(s, a), |s.threads|) <= Potential(s, |s.threads|) + Allowance(a)
  {
    var s' := Apply(s, a);
    if a.Join? {
    } else if a.Broadcast? {
      BroadcastPays(s, a.t, due);
    } else if a.Arrive? && Opens(s.barrier) {
      OpeningPays(s, a.t, due);
    } else {
      OneThreadPays(s, a, due);
      assert s'.threads == s.threads[a.t := s'.threads[a.t]];
      CostsUpdate(s.threads, a.t, s'.threads[a.t], |s.opener|);
    }
  }

  lemma OpeningThreadPays(s: State, t: nat, u: nat, due: seq<nat>)
    requires Inv(s, due) && Enabled(s, Arrive(t)) && Opens(s.barrier) && u < |s.threads|
    ensures Cost(Apply(s, Arrive(t)).threads[u], |s.opener| + 1) <= Cost(s.threads[u], |s.opener|)
    ensures u == t ==> Cost(Apply(s, Arrive(t)).threads[u], |s.opener| + 1) < Cost(s.threads[u], |s.opener|)
  {
    assert ThreadInv(s, t);
    LastArrival(s, t, due);
  }

  lemma OpeningPays(s: State, t: nat, due: seq<nat>)
    requires Inv(s, due) && Enabled(s, Arrive(t)) && Opens(s.barrier)
    ensures Costs(Apply(s, Arrive(t)).threads, |s.opener| + 1) < Costs(s.threads, |s.opener|)
  {
    forall u | 0 <= u < |s.threads|
      ensures Cost(Apply(s, Arrive(t)).threads[u], |s.opener| + 1) <= Cost(s.threads[u], |s.opener|)
    {
      OpeningThreadPays(s, t, u, due);
    }
    OpeningThreadPays(s, t, t, due);
    CostsDrop(s.threads, Apply(s, Arrive(t)).threads, |s.opener|, |s.opener| + 1, t);
  }

  lemma BroadcastPays(s: State, t: nat, due: seq<nat>)
    requires Inv(s, due) && Enabled(s, Broadcast(t))
    ensures Costs(Apply(s, Broadcast(t)).threads, |s.opener|) < Costs(s.threads, |s.opener|)
  {
    var s' := Apply(s, Broadcast(t));
    forall u | 0 <= u < |s.threads|
      ensures Cost(s'.threads[u], |s.opener|) <= Cost(s.threads[u], |s.opener|)
      ensures u == t ==> Cost(s'.threads[u], |s.opener|) < Cost(s.threads[u], |s.opener|)
    {
      assert ThreadInv(s, t) && ThreadInv(s, u);
      EnteredBound(s.threads, |s.opener| + 1);
    }
    CostsDrop(s.threads, s'.threads, |s.opener|, |s.opener|, t);
  }

  function Wakeups(run: seq<Action>): nat {
    if run == [] then 0 else (if run[0].Spurious? then 1 else 0) + Wakeups(run[1..])
  }

  /** Every run is finite: its length is bounded by the work there was at the start and the
      spurious wake-ups it suffered. */
  lemma {:induction false} RunIsBounded(s: State, run: seq<Action>, due: seq<nat>)
    requires Inv(s, due) && ValidRun(s, run)
    ensures |run| + Potential(Final(s, run), |s.threads|) <= Potential(s, |s.threads|) + 3 * Wakeups(run)
    decreases |run|
  {
    if run != [] {
      StepPays(s, run[0], due);
      StepKeeps(s, run[0], due);
      RunIsBounded(Apply(s, run[0]), run[1..], due);
    }
  }

  /** From wherever a run has got to, every join in run_workers can complete. */
  lemma CanFinish(s: State, due: seq<nat>) returns (rest: seq<Action>)
    requires Inv(s, due) && Even(due)
    ensures ValidRun(s, rest) && Done(Final(s, rest))
    ensures Wakeups(rest) == 0
    decreases Potential(s, |s.threads|)
  {
    if Done(s) {
      rest := [];
    } else {
      var a := NeverStuck(s, due);
      StepPays(s, a, due);
      StepKeeps(s, a, due);
      var more := CanFinish(Apply(s, a), due);
      rest := [a] + more;
      assert rest[1..] == more;
    }
  }

  lemma DoneMeansAllCrossed(s: State, due: seq<nat>)
    requires Inv(s, due) && Done(s)
    ensures forall t :: 0 <= t < |s.threads| ==> |s.threads[t].results| == |s.opener| == due[t] && s.threads[t].todo == []
  {
    forall t | 0 <= t < |s.threads|
      ensures |s.threads[t].results| == |s.opener| == due[t] && s.threads[t].todo == []
    {
      assert ThreadInv(s, t) && Program(s.threads[t]) == due[t];
    }
  }

  predicate Completes(ps: seq<seq<Event>>, run: seq<Action>) {
    ValidRun(Start(ps), run) && Done(Final(Start(ps), run))
  }

  /** The comment beside phase_begin, both ways: a run can complete exactly when every
      thread calls the barrier the same number of times. */
  lemma CompletesIffEven(ps: seq<seq<Event>>)
    requires Programs(ps)
    ensures Even(Due(ps)) <==> exists run :: Completes(ps, run)
  {
    StartInv(ps);
    if Even(Due(ps)) {
      var run := CanFinish(Start(ps), Due(ps));
      assert Completes(ps, run);
    }
    if run :| Completes(ps, run) {
      RunKeeps(Start(ps), run, Due(ps));
      var s := Final(Start(ps), run);
      DoneMeansAllCrossed(s, Due(ps));
      forall t | 0 <= t < |ps| ensures Due(ps)[t] == |s.opener| {
        assert |s.threads[t].results| == Due(ps)[t];
      }
    }
  }

  // ----- whole runs of the benchmark -----

  /** run_workers starts every worker with the same number of repetitions; everything else
      about a worker may differ. */
  predicate SameReps(cs: seq<Config>, reps: nat) {
    0 < |cs| < UINT_RANGE && forall t :: 0 <= t < |cs| ==> cs[t].Reps() == reps
  }

  function Suite(cs: seq<Config>): (ps: seq<seq<Event>>)
    ensures |ps| == |cs|
  {
    seq(|cs|, t requires 0 <= t < |cs| => Trace(cs[t], PHASES))
  }

  lemma SuiteIsEven(cs: seq<Config>, reps: nat)
    requires SameReps(cs, reps)
    ensures Due(Suite(cs)) == seq(|cs|, _ => Crossings(reps))
  {
    forall t | 0 <= t < |cs| ensures Syncs(Suite(cs)[t]) == Crossings(reps) {
      EveryWorkerCrossesEqually(cs[t]);
    }
  }

  /** Every one of n threads has been joined after k crossings. */
  predicate Completed(s: State, n: nat, k: nat) {
    Done(s) && |s.threads| == n && forall t :: 0 <= t < n ==> |s.threads[t].results| == k
  }

  /** Whichever allocations failed in which worker, and whatever the interleaving so far: the
      run is bounded but for spurious wake-ups, a run with no other step left has joined
      every worker, each after exactly Crossings(reps) crossings of the barrier, and every run
      has a continuation that gets there. */
  lemma MeasuredRunCompletes(cs: seq<Config>, reps: nat, run: seq<Action>)
    requires SameReps(cs, reps) && ValidRun(Start(Suite(cs)), run)
    ensures |run| <= Potential(Start(Suite(cs)), |cs|) + 3 * Wakeups(run)
    ensures var s := Final(Start(Suite(cs)), run);
            (forall a :: Enabled(s, a) ==> a.Spurious?) ==> Completed(s, |cs|, Crossings(reps))
    ensures var s := Final(Start(Suite(cs)), run);
            exists rest :: ValidRun(s, rest) && Wakeups(rest) == 0 && Completed(Final(s, rest), |cs|, Crossings(reps))
  {
    var s := Final(Start(Suite(cs)), run);
    var due := Due(Suite(cs));
    SuiteIsEven(cs, reps);
    StartInv(Suite(cs));
    RunKeeps(Start(Suite(cs)), run, due);
    RunIsBounded(Start(Suite(cs)), run, due);
    var rest := CanFinish(s, due);
    RunKeeps(s, rest, due);
    DoneMeansAllCrossed(Final(s, rest), due);
    assert Completed(Final(s, rest), |cs|, Crossings(reps));
    if !Done(s) {
      var a := NeverStuck(s, due);
    } else {
      DoneMeansAllCrossed(s, due);
    }
  }

  // ----- what the barrier is for -----

  /** Every thread has worked through a prefix of its program. */
  predicate Following(s: State, ps: seq<seq<Event>>) {
    && |s.threads| == |ps|
    && forall t :: 0 <= t < |ps| ==>
         |s.threads[t].todo| <= |ps[t]| && s.threads[t].todo == ps[t][|ps[t]| - |s.threads[t].todo|..]
  }

  lemma StepTodo(s: State, a: Action, t: nat)
    requires Enabled(s, a) && t < |s.threads|
    ensures var todo := s.threads[t].todo;
            Apply(s, a).threads[t].todo == todo || (todo != [] && Apply(s, a).threads[t].todo == todo[1..])
  {
  }

  lemma StepFollows(s: State, a: Action, ps: seq<seq<Event>>)
    requires Following(s, ps) && Enabled(s, a)
    ensures Following(Apply(s, a), ps)
  {
    hide Apply, Enabled;
    forall t | 0 <= t < |ps|
      ensures var todo := Apply(s, a).threads[t].todo;
              |todo| <= |ps[t]| && todo == ps[t][|ps[t]| - |todo|..]
    {
      StepTodo(s, a, t);
    }
  }

  lemma {:induction false} RunFollows(s: State, run: seq<Action>, ps: seq<seq<Event>>)
    requires Following(s, ps) && ValidRun(s, run)
    ensures Following(Final(s, run), ps)
    decreases |run|
  {
    if run != [] {
      StepFollows(s, run[0], ps);
      hide Following, Apply, Enabled;
      RunFollows(Apply(s, run[0]), run[1..], ps);
    }
  }

  /** Inside a warm-up or a measurement. */
  predicate Busy(s: State, t: nat) {
    t < |s.threads| && s.threads[t].pc.Running? && s.threads[t].todo != [] && Timed(s.threads[t].todo[0])
  }

  /** What lining up is for. Threads that are at work at the same moment are at the same
      work: the same repetition of the same measurement, or all in the warm-up of the same
      phase. So nobody measures while another still warms up, and a throughput is that of
      N threads running together, never of stragglers. */
  lemma NoMixedPhases(cs: seq<Config>, reps: nat, run: seq<Action>, t: nat, u: nat)
    requires SameReps(cs, reps) && ValidRun(Start(Suite(cs)), run)
    requires Busy(Final(Start(Suite(cs)), run), t) && Busy(Final(Start(Suite(cs)), run), u)
    ensures Final(Start(Suite(cs)), run).threads[t].todo[0] == Final(Start(Suite(cs)), run).threads[u].todo[0]
  {
    var s := Final(Start(Suite(cs)), run);
    SuiteIsEven(cs, reps);
    StartInv(Suite(cs));
    RunKeeps(Start(Suite(cs)), run, Due(Suite(cs)));
    RunFollows(Start(Suite(cs)), run, Suite(cs));
    BusyPlace(cs, reps, s, t);
    BusyPlace(cs, reps, s, u);
    PlacesDiffer(cs[t], cs[u], reps, s.threads[t].todo[0], s.threads[u].todo[0]);
  }

  lemma BusyPlace(cs: seq<Config>, reps: nat, s: State, t: nat)
    requires SameReps(cs, reps) && Inv(s, Due(Suite(cs))) && Following(s, Suite(cs)) && Busy(s, t)
    ensures WorkOf(cs[t], reps, s.threads[t].todo[0])
    ensures |s.opener| == CrossingsBefore(reps, s.threads[t].todo[0])
  {
    var p, th := Suite(cs)[t], s.threads[t];
    var i := |p| - |th.todo|;
    SuiteIsEven(cs, reps);
    assert ThreadInv(s, t) && Program(th) == Due(Suite(cs))[t] == Crossings(reps);
    assert p == p[..i] + p[i..];
    SyncsConcat(p[..i], p[i..]);
    EveryWorkerCrossesEqually(cs[t]);
    WorkIsAligned(cs[t], PHASES, i);
  }

  lemma PhasesApart(m: nat, p: nat, q: nat)
    requires p < q
    ensures m * p + m <= m * q
  {
    assert m * q >= m * (p + 1) == m * p + m;
  }

  lemma LaterPhase(c: Config, d: Config, reps: nat, e: Event, f: Event)
    requires reps > 0 && WorkOf(c, reps, e) && WorkOf(d, reps, f) && e.phase < f.phase
    ensures CrossingsBefore(reps, e) < CrossingsBefore(reps, f)
  {
    hide Warm, c.Runs, d.Runs;
    PhasesApart(2 * reps, e.phase, f.phase);
  }

  lemma PlacesDiffer(c: Config, d: Config, reps: nat, e: Event, f: Event)
    requires reps > 0 && WorkOf(c, reps, e) && WorkOf(d, reps, f)
    requires CrossingsBefore(reps, e) == CrossingsBefore(reps, f)
    ensures e == f
  {
    if e.phase < f.phase {
      LaterPhase(c, d, reps, e, f);
    } else if f.phase < e.phase {
      LaterPhase(d, c, reps, f, e);
    }
  }
}
