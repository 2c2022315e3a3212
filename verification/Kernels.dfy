/**
 The measured kernels of bench/src/kernels.c that touch memory, and the driver run_timed()
 of bench/src/bench.c that runs any kernel in batches.
 */
module Kernels {
  import opened Powers

  const U64: nat := 0x1_0000_0000_0000_0000

  // ----- a kernel is n repetitions of one unit -----

  function Iterate<C>(unit: C -> C, c: C, n: nat): C {
    if n == 0 then c else unit(Iterate(unit, c, n - 1))
  }

  lemma {:induction false} IterateAdd<C>(unit: C -> C, c: C, a: nat, b: nat)
    ensures Iterate(unit, Iterate(unit, c, a), b) == Iterate(unit, c, a + b)
  {
    if b > 0 { IterateAdd(unit, c, a, b - 1); }
  }

  // ----- run_timed() -----

  /** What the driver asks of a kernel: no units do nothing, and a batch after a batch is
      one batch of both. */
  ghost predicate Batchable<C(!new)>(kernel: (C, nat) -> C) {
    forall c, a: nat, b: nat :: Composes(kernel, c, a, b)
  }

  ghost predicate Composes<C(!new)>(kernel: (C, nat) -> C, c: C, a: nat, b: nat) {
    kernel(c, 0) == c && kernel(kernel(c, a), b) == kernel(c, a + b)
  }

  lemma IterationIsBatchable<C(!new)>(unit: C -> C)
    ensures Batchable((c: C, n: nat) => Iterate(unit, c, n))
  {
    var kernel := (c: C, n: nat) => Iterate(unit, c, n);
    forall c: C, a: nat, b: nat ensures Composes(kernel, c, a, b) {
      IterateAdd(unit, c, a, b);
    }
  }

  function SumOf(batches: seq<nat>): nat {
    if batches == [] then 0 else SumOf(batches[..|batches| - 1]) + batches[|batches| - 1]
  }

  const MAX_BATCH_LOG: nat := 30
  const MAX_BATCH: nat := 0x4000_0000
  const TARGET_BATCH_SEC: real := 0.004
  const MAX_BATCH_SEC: real := 0.020

  /** A batch size the driver can arrive at from a power of two. */
  predicate Sized(batch: nat, e: nat) {
    e <= MAX_BATCH_LOG && batch == Pow2(e)
  }

  lemma Doubled(batch: nat, e: nat)
    requires Sized(batch, e) && batch < MAX_BATCH
    ensures Sized(batch * 2, e + 1)
  {
    Pow2Values();
  }

  lemma Halved(batch: nat, e: nat)
    requires Sized(batch, e) && batch > 1
    ensures e > 0 && Sized(batch / 2, e - 1)
  {
  }

  ghost predicate PowerOfTwo(batch: nat) {
    exists e :: Sized(batch, e)
  }

  ghost predicate AllPowers(batches: seq<nat>) {
    forall i :: 0 <= i < |batches| ==> PowerOfTwo(batches[i])
  }

  /** The batch after one that took dt. */
  function Resized(batch: nat, dt: real): nat {
    if dt < TARGET_BATCH_SEC && batch < MAX_BATCH then batch * 2
    else if dt > MAX_BATCH_SEC && batch > 1 then batch / 2 else batch
  }

  ghost predicate Monotone(clock: nat -> real) {
    forall i: nat, j: nat :: Ordered(clock, i, j)
  }

  ghost predicate Ordered(clock: nat -> real, i: nat, j: nat) {
    i <= j ==> clock(i) <= clock(j)
  }

  lemma NextBatch(batch: nat, dt: real, powers: bool)
    requires powers ==> PowerOfTwo(batch)
    ensures powers ==> PowerOfTwo(Resized(batch, dt))
  {
    if powers {
      var e :| Sized(batch, e);
      if Resized(batch, dt) == batch * 2 && batch < MAX_BATCH {
        Doubled(batch, e);
      } else if Resized(batch, dt) != batch {
        Halved(batch, e);
      }
    }
  }

  /** The size of batch i: the first as given, every other resized by how long the one before
      took. */
  function BatchSize(batches: seq<nat>, first: nat, clock: nat -> real, i: nat): nat
    requires i <= |batches|
  {
    if i == 0 then first else Resized(batches[i - 1], clock(i) - clock(i - 1))
  }

  predicate SizedAt(batches: seq<nat>, first: nat, clock: nat -> real, i: nat) {
    i < |batches| && batches[i] == BatchSize(batches, first, clock, i)
  }

  ghost predicate Adapted(batches: seq<nat>, first: nat, clock: nat -> real) {
    forall i: nat :: i < |batches| ==> SizedAt(batches, first, clock, i)
  }

  lemma AdaptedPush(batches: seq<nat>, first: nat, clock: nat -> real, batch: nat)
    requires Adapted(batches, first, clock) && batch == BatchSize(batches, first, clock, |batches|)
    ensures Adapted(batches + [batch], first, clock)
    ensures BatchSize(batches + [batch], first, clock, |batches| + 1) == Resized(batch, clock(|batches| + 1) - clock(|batches|))
  {
    var all := batches + [batch];
    forall i: nat | i < |all| ensures SizedAt(all, first, clock, i) {
      if i < |batches| { assert SizedAt(batches, first, clock, i); }
    }
  }

  lemma PushBatch(batches: seq<nat>, batch: nat, powers: bool)
    requires powers ==> PowerOfTwo(batch) && AllPowers(batches)
    ensures SumOf(batches + [batch]) == SumOf(batches) + batch
    ensures powers ==> AllPowers(batches + [batch])
  {
    var all := batches + [batch];
    assert all[..|all| - 1] == batches;
  }

  /** The sizing step of run_timed(). */
  method Resize(batch: nat, dt: real) returns (next: nat)
    ensures next == Resized(batch, dt)
  {
    next := batch;
    if dt < TARGET_BATCH_SEC && batch < MAX_BATCH {
      next := batch * 2;
    } else if dt > MAX_BATCH_SEC && batch > 1 {
      next := batch / 2;
    }
  }

  /** Where the loop stands after these batches, with `batch` next. */
  ghost predicate Underway<C(!new)>(kernel: (C, nat) -> C, ctx: C, clock: nat -> real, first: nat, batches: seq<nat>, batch: nat, done: C) {
    && done == kernel(ctx, SumOf(batches))
    && Adapted(batches, first, clock) && batch == BatchSize(batches, first, clock, |batches|)
    && (PowerOfTwo(first) ==> PowerOfTwo(batch) && AllPowers(batches))
  }

  lemma UnderwayStart<C(!new)>(kernel: (C, nat) -> C, ctx: C, clock: nat -> real, first: nat)
    requires Batchable(kernel)
    ensures Underway(kernel, ctx, clock, first, [], first, ctx)
  {
    assert Composes(kernel, ctx, 0, 0);
  }

  lemma BatchOnBatch<C(!new)>(kernel: (C, nat) -> C, ctx: C, a: nat, b: nat, done: C)
    requires Batchable(kernel) && done == kernel(ctx, a)
    ensures kernel(done, b) == kernel(ctx, a + b)
  {
    assert Composes(kernel, ctx, a, b);
  }

  lemma UnderwayStep<C(!new)>(kernel: (C, nat) -> C, ctx: C, clock: nat -> real, first: nat, batches: seq<nat>, batch: nat, done: C)
    requires Batchable(kernel) && Underway(kernel, ctx, clock, first, batches, batch, done)
    ensures var dt := clock(|batches| + 1) - clock(|batches|);
            Underway(kernel, ctx, clock, first, batches + [batch], Resized(batch, dt), kernel(done, batch))
    ensures SumOf(batches + [batch]) == SumOf(batches) + batch
  {
    hide Adapted, AllPowers, SumOf, PowerOfTwo, BatchSize, Resized, Batchable;
    BatchOnBatch(kernel, ctx, SumOf(batches), batch, done);
    AdaptedPush(batches, first, clock, batch);
    PushBatch(batches, batch, PowerOfTwo(first));
    NextBatch(batch, clock(|batches| + 1) - clock(|batches|), PowerOfTwo(first));
  }

  lemma InOrder(clock: nat -> real, i: nat, j: nat)
    requires Monotone(clock)
    ensures i <= j ==> clock(i) <= clock(j)
  {
    assert Ordered(clock, i, j);
  }

  /** run_timed(): clock(i) is what the i-th reading of the clock returns, and `last` some
      reading by which the time is up. `batches` lists the units of each call. */
  method RunTimed<C(!new)>(kernel: (C, nat) -> C, ctx: C, seconds: real, batchInit: nat, clock: nat -> real, ghost last: nat)
    returns (done: C, iters: nat, elapsed: real, batches: seq<nat>)
    requires Batchable(kernel) && Monotone(clock) && clock(last) >= clock(0) + seconds
    ensures done == kernel(ctx, SumOf(batches))
    ensures iters == SumOf(batches) % 0x1_0000_0000_0000_0000
    ensures elapsed == if clock(|batches|) > clock(0) then clock(|batches|) - clock(0) else seconds
    ensures clock(|batches|) >= clock(0) + seconds
    ensures forall i :: 0 <= i < |batches| ==> clock(i) < clock(0) + seconds
    ensures Adapted(batches, if batchInit == 0 then 1 else batchInit, clock)
    ensures PowerOfTwo(if batchInit == 0 then 1 else batchInit) ==> AllPowers(batches)
  {
    hide Underway, SumOf, Monotone, Batchable, Resized;
    var t0 := clock(0);
    var tEnd := t0 + seconds;
    var batch: nat := if batchInit != 0 then batchInit else 1;
    var t := t0;
    done, iters, batches := ctx, 0, [];
    ghost var first := batch;
    UnderwayStart(kernel, ctx, clock, first);
    assert SumOf([]) == 0 by { SumOfNone(); }
    while t < tEnd
      invariant t == clock(|batches|) && iters == SumOf(batches) % 0x1_0000_0000_0000_0000
      invariant forall i :: 0 <= i < |batches| ==> clock(i) < tEnd
      invariant Underway(kernel, ctx, clock, first, batches, batch, done)
      decreases last - |batches|
    {
      InOrder(clock, last, |batches|);
      UnderwayStep(kernel, ctx, clock, first, batches, batch, done);
      done := kernel(done, batch);
      iters := (iters + batch) % 0x1_0000_0000_0000_0000;
      batches := batches + [batch];
      var t2 := clock(|batches|);
      batch := Resize(batch, t2 - t);
      t := t2;
    }
    UnderwayEnd(kernel, ctx, clock, first, batches, batch, done);
    elapsed := t - t0;
    if elapsed <= 0.0 { elapsed := seconds; }
  }

  lemma SumOfNone()
    ensures SumOf([]) == 0
  {
  }

  lemma UnderwayEnd<C(!new)>(kernel: (C, nat) -> C, ctx: C, clock: nat -> real, first: nat, batches: seq<nat>, batch: nat, done: C)
    requires Underway(kernel, ctx, clock, first, batches, batch, done)
    ensures done == kernel(ctx, SumOf(batches)) && Adapted(batches, first, clock)
    ensures PowerOfTwo(first) ==> AllPowers(batches)
  {
  }

  // ----- what the resizing is for -----

  predicate TooShort(batch: nat, dt: real) {
    dt < 0.004 && batch < 0x4000_0000
  }

  predicate TooLong(batch: nat, dt: real) {
    dt > 0.020 && batch > 1
  }

  /** How far batch i, of 2^e units, may still be from a size that lasts. */
  predicate Settling(batch: nat, e: nat, dt: real, i: nat) {
    && Sized(batch, e)
    && (TooShort(batch, dt) ==> i <= e)
    && (TooLong(batch, dt) ==> i + e <= 30)
  }

  lemma PowersOrdered(e: nat)
    requires e <= 30
    ensures e == 30 <==> Pow2(e) >= 0x4000_0000
    ensures e == 0 <==> Pow2(e) <= 1
  {
    assert Pow2(30) == 0x4000_0000 by { Pow2Values(); }
    if e < 30 { Pow2Mono(e, 30); }
  }

  /** How long a batch takes at u seconds a unit. */
  function Time(batch: nat, u: real): real { batch as real * u }

  lemma TwiceTakes(batch: nat, u: real)
    ensures Time(2 * batch, u) == 2.0 * Time(batch, u)
  {
  }

  /** A batch of twice the size takes twice as long, so the two directions never alternate. */
  lemma SettlingStep(batch: nat, e: nat, u: real, i: nat, next: nat) returns (e': nat)
    requires Settling(batch, e, Time(batch, u), i)
    requires next == Resized(batch, Time(batch, u))
    ensures Settling(next, e', Time(next, u), i + 1)
    ensures !TooShort(batch, Time(batch, u)) && !TooLong(batch, Time(batch, u)) ==> next == batch
  {
    hide Time, Pow2;
    e' := e;
    if TooShort(batch, Time(batch, u)) {
      e' := e + 1;
      Doubled(batch, e);
      TwiceTakes(batch, u);
    } else if TooLong(batch, Time(batch, u)) {
      Halved(batch, e);
      e' := e - 1;
      TwiceTakes(next, u);
      assert batch == 2 * next by { HalfOf(batch, e); }
    }
  }

  lemma HalfOf(batch: nat, e: nat)
    requires Sized(batch, e) && e > 0
    ensures batch == 2 * (batch / 2)
  {
  }

  /** The clock of a kernel whose every unit takes u seconds. */
  ghost predicate SteadyCost(batches: seq<nat>, clock: nat -> real, u: real) {
    forall i: nat :: i < |batches| ==> Takes(batches, clock, u, i)
  }

  predicate Takes(batches: seq<nat>, clock: nat -> real, u: real, i: nat)
    requires i < |batches|
  {
    clock(i + 1) - clock(i) == Time(batches[i], u)
  }

  lemma NextSize(batches: seq<nat>, first: nat, clock: nat -> real, u: real, i: nat)
    requires Adapted(batches, first, clock) && SteadyCost(batches, clock, u) && i < |batches|
    ensures batches[i] == if i == 0 then first else Resized(batches[i - 1], Time(batches[i - 1], u))
  {
    hide Time, Resized;
    assert SizedAt(batches, first, clock, i);
    if i > 0 { assert Takes(batches, clock, u, i - 1); }
  }

  lemma FirstSettling(first: nat, u: real) returns (e: nat)
    requires PowerOfTwo(first)
    ensures Settling(first, e, Time(first, u), 0)
  {
    hide Time, Pow2;
    e :| Sized(first, e);
  }

  lemma {:induction false} SettlingAt(batches: seq<nat>, first: nat, clock: nat -> real, u: real, i: nat) returns (e: nat)
    requires Adapted(batches, first, clock) && SteadyCost(batches, clock, u) && i < |batches|
    requires PowerOfTwo(first)
    ensures Settling(batches[i], e, Time(batches[i], u), i)
  {
    hide *;
    NextSize(batches, first, clock, u, i);
    if i == 0 {
      e := FirstSettling(first, u);
    } else {
      e := SettlingAt(batches, first, clock, u, i - 1);
      e := SettlingStep(batches[i - 1], e, u, i - 1, batches[i]);
    }
  }

  /** A kernel of steady cost settles within thirty batches: from then on a batch lasts 4 to
      20 ms, unless no size between 1 and 2^30 does, and its size no longer changes. */
  lemma SteadyCostSettles(batches: seq<nat>, first: nat, clock: nat -> real, u: real, i: nat)
    requires Adapted(batches, first, clock) && SteadyCost(batches, clock, u)
    requires PowerOfTwo(first) && 30 <= i < |batches|
    ensures 0.004 <= batches[i] as real * u || batches[i] == 0x4000_0000
    ensures batches[i] as real * u <= 0.020 || batches[i] == 1
    ensures i + 1 < |batches| ==> batches[i + 1] == batches[i]
  {
    var e := SettlingAt(batches, first, clock, u, i);
    Settled(batches[i], e, Time(batches[i], u), i);
    assert Time(batches[i], u) == batches[i] as real * u;
    hide Adapted, SteadyCost, PowerOfTwo, Time, Settling;
    if i + 1 < |batches| {
      NextSize(batches, first, clock, u, i + 1);
    }
  }

  lemma Settled(batch: nat, e: nat, dt: real, i: nat)
    requires Settling(batch, e, dt, i) && i >= 30
    ensures 0.004 <= dt || batch == 0x4000_0000
    ensures dt <= 0.020 || batch == 1
    ensures Resized(batch, dt) == batch
  {
    PowersOrdered(e);
    if e < 30 { Pow2Mono(e, 30); }
    Pow2Values();
  }

  /** One decision, in numbers. */
  lemma ResizedIs(batch: nat, dt: real)
    ensures Resized(batch, dt) ==
            if 1000.0 * dt < 4.0 && batch < 1073741824 then 2 * batch
            else if 1000.0 * dt > 20.0 && batch > 1 then batch / 2 else batch
  {
  }
}
