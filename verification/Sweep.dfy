/**
 The bandwidth kernel of bench/src/kernels.c, which reads and increments a buffer, and the
 memory warm-up of bench/src/bench.c that runs before every memory phase.
 */
module Sweeps {
  import opened Kernels

  const ACCS: nat := 4

  /** The words a sweep touches: whole groups of four. */
  function Groups(n: nat): nat { n / ACCS }

  predicate Words(mem: seq<nat>) {
    forall i :: 0 <= i < |mem| ==> mem[i] < U64
  }

  /** The buffer after p sweeps. */
  function Raised(mem: seq<nat>, p: nat): (r: seq<nat>)
    ensures |r| == |mem|
  {
    seq(|mem|, i requires 0 <= i < |mem| => if i < Groups(|mem|) * ACCS then (mem[i] + p) % U64 else mem[i])
  }

  /** What accumulator j reads in the first g groups, added up. */
  function Column(mem: seq<nat>, j: nat, g: nat): nat
    requires j < ACCS && g * ACCS <= |mem|
  {
    if g == 0 then 0 else Column(mem, j, g - 1) + mem[(g - 1) * ACCS + j]
  }

  /** 0 + 1 + ... + (p - 1). */
  function Triangle(p: nat): (t: nat)
    ensures 2 * t == p * (p - 1)
  {
    if p == 0 then 0 else Triangle(p - 1) + (p - 1)
  }

  /** Accumulator j after p sweeps that started from `mem` and a. */
  function Accumulated(mem: seq<nat>, j: nat, a: nat, p: nat): (x: nat)
    requires j < ACCS
    ensures x < U64
  {
    Swelled(a, Column(mem, j, Groups(|mem|)), Groups(|mem|), p) % U64
  }

  /** The same without the modulus, for a column of g words with sum s. */
  function Swelled(a: nat, s: nat, g: nat, p: nat): nat {
    a + p * s + g * Triangle(p)
  }

  /** What the next sweep reads after p sweeps. */
  function NextColumn(s: nat, g: nat, p: nat): nat {
    s + g * p
  }

  // ----- arithmetic modulo 2^64 -----

  lemma ModAdd(x: nat, y: nat)
    ensures (x % U64 + y) % U64 == (x + y) % U64
  {
    assert x == x / U64 * U64 + x % U64;
  }

  /** The sum of raised words is the sum of the words plus p for each, modulo 2^64. */
  lemma {:induction false} RaisedColumn(mem: seq<nat>, j: nat, g: nat, p: nat, gp: nat)
    requires j < ACCS && g <= Groups(|mem|) && gp == g * p
    ensures Column(Raised(mem, p), j, g) % U64 == (Column(mem, j, g) + gp) % U64
  {
    if g > 0 {
      OneLess(g, p, gp);
      RaisedColumn(mem, j, g - 1, p, gp - p);
      var term := mem[(g - 1) * ACCS + j] + p;
      assert Raised(mem, p)[(g - 1) * ACCS + j] == term % U64;
      OneMoreTerm(Column(Raised(mem, p), j, g - 1), Column(mem, j, g - 1), gp - p, term);
    }
  }

  lemma OneLess(g: nat, p: nat, gp: nat)
    requires g > 0 && gp == g * p
    ensures gp >= p && gp - p == (g - 1) * p
  {
  }

  lemma OneMoreTerm(now: nat, was: nat, gp: nat, term: nat)
    requires now % U64 == (was + gp) % U64
    ensures (now + term % U64) % U64 == (was + gp + term) % U64
  {
    ModAdd(now, term % U64);
    ModAdd(was + gp, term % U64);
    ModAdd(term, was + gp);
  }

  lemma RaisedTwice(mem: seq<nat>, p: nat, q: nat)
    ensures Raised(Raised(mem, p), q) == Raised(mem, p + q)
  {
    forall i | 0 <= i < Groups(|mem|) * ACCS ensures ((mem[i] + p) % U64 + q) % U64 == (mem[i] + (p + q)) % U64 {
      ModAdd(mem[i] + p, q);
    }
  }

  lemma RaisedByNone(mem: seq<nat>)
    requires Words(mem)
    ensures Raised(mem, 0) == mem
  {
  }

  lemma RaisedWords(mem: seq<nat>, p: nat)
    requires Words(mem)
    ensures Words(Raised(mem, p))
  {
  }

  // ----- the sweep -----

  /** The first i words have been read and incremented, the others not yet. */
  ghost predicate PartlyRaised(was: seq<nat>, now: seq<nat>, i: nat) {
    && |now| == |was|
    && forall k :: 0 <= k < |was| ==> now[k] == if k < i then (was[k] + 1) % U64 else was[k]
  }

  /** What the accumulators hold after g groups. */
  ghost predicate Summed(was: seq<nat>, a: seq<nat>, b: seq<nat>, g: nat)
    requires g <= Groups(|was|)
  {
    && |a| == |b| == ACCS
    && forall j :: 0 <= j < ACCS ==> b[j] == (a[j] + Column(was, j, g)) % U64
  }

  /** Four words read and written back one higher. */
  method Group(buf: array<nat>, i: nat, a: seq<nat>) returns (b: seq<nat>)
    requires i + 3 < buf.Length && |a| == ACCS
    modifies buf
    ensures forall k :: 0 <= k < buf.Length ==> buf[k] == if i <= k < i + ACCS then (old(buf[k]) + 1) % U64 else old(buf[k])
    ensures |b| == ACCS
    ensures forall j :: 0 <= j < ACCS ==> b[j] == (a[j] + old(buf[i + j])) % U64
  {
    var v0, v1, v2, v3 := buf[i], buf[i + 1], buf[i + 2], buf[i + 3];
    b := [(a[0] + v0) % U64, (a[1] + v1) % U64, (a[2] + v2) % U64, (a[3] + v3) % U64];
    buf[i], buf[i + 1] := (v0 + 1) % U64, (v1 + 1) % U64;
    buf[i + 2], buf[i + 3] := (v2 + 1) % U64, (v3 + 1) % U64;
  }

  lemma SummedOneMore(was: seq<nat>, a: seq<nat>, b: seq<nat>, g: nat, c: seq<nat>)
    requires g < Groups(|was|) && Summed(was, a, b, g) && |c| == ACCS
    requires forall j :: 0 <= j < ACCS ==> c[j] == (b[j] + was[g * ACCS + j]) % U64
    ensures Summed(was, a, c, g + 1)
  {
    forall j | 0 <= j < ACCS ensures c[j] == (a[j] + Column(was, j, g + 1)) % U64 {
      ModAdd(a[j] + Column(was, j, g), was[g * ACCS + j]);
    }
  }

  /** One turn of the outer loop of mem_kernel_bw. */
  method Sweep(buf: array<nat>, a: seq<nat>) returns (b: seq<nat>)
    requires Words(a) && |a| == ACCS
    modifies buf
    ensures buf[..] == Raised(old(buf[..]), 1)
    ensures Summed(old(buf[..]), a, b, Groups(buf.Length))
  {
    ghost var was := buf[..];
    b := a;
    ghost var g := 0;
    var i := 0;
    NoneRaised(was, a);
    hide PartlyRaised, Summed, Raised, Column, Words;
    while i + 3 < buf.Length
      invariant i == g * ACCS && g <= Groups(buf.Length)
      invariant PartlyRaised(was, buf[..], i)
      invariant Summed(was, a, b, g)
    {
      ghost var before, mem := b, buf[..];
      NotYetRaised(was, mem, i);
      assert |b| == ACCS by { SummedLength(was, a, b, g); }
      b := Group(buf, i, b);
      GroupRaised(was, mem, buf[..], i);
      SummedOneMore(was, a, before, g, b);
      i, g := i + 4, g + 1;
    }
    AllRaised(was, buf[..], i);
  }

  lemma NoneRaised(mem: seq<nat>, a: seq<nat>)
    requires Words(a) && |a| == ACCS
    ensures PartlyRaised(mem, mem, 0) && Summed(mem, a, a, 0)
  {
  }

  lemma NotYetRaised(was: seq<nat>, now: seq<nat>, i: nat)
    requires PartlyRaised(was, now, i) && i + 3 < |was|
    ensures |now| == |was| && forall k :: i <= k < i + ACCS ==> now[k] == was[k]
  {
  }

  lemma SummedLength(was: seq<nat>, a: seq<nat>, b: seq<nat>, g: nat)
    requires g <= Groups(|was|) && Summed(was, a, b, g)
    ensures |b| == ACCS
  {
  }

  lemma GroupRaised(was: seq<nat>, mid: seq<nat>, now: seq<nat>, i: nat)
    requires PartlyRaised(was, mid, i) && |now| == |mid|
    requires forall k :: 0 <= k < |now| ==> now[k] == if i <= k < i + ACCS then (mid[k] + 1) % U64 else mid[k]
    ensures PartlyRaised(was, now, i + ACCS)
  {
  }

  lemma AllRaised(was: seq<nat>, now: seq<nat>, i: nat)
    requires PartlyRaised(was, now, i) && i == Groups(|was|) * ACCS
    ensures now == Raised(was, 1)
  {
  }

  lemma AccumulatedNone(mem: seq<nat>, j: nat, a: nat)
    requires j < ACCS && a < U64
    ensures Accumulated(mem, j, a, 0) == a
  {
  }

  /** An addition in uint64_t. */
  function AddWords(x: nat, y: nat): nat {
    (x + y) % U64
  }

  /** What a sweep over these words makes of accumulator j. */
  function SweepOver(mem: seq<nat>, j: nat, x: nat): nat
    requires j < ACCS
  {
    AddWords(x, Column(mem, j, Groups(|mem|)))
  }

  /** One more sweep on top of p. */
  lemma AccumulatedOneMore(mem: seq<nat>, j: nat, a: nat, p: nat)
    requires j < ACCS
    ensures SweepOver(Raised(mem, p), j, Accumulated(mem, j, a, p)) == Accumulated(mem, j, a, p + 1)
  {
    hide Column, Raised, Swelled, NextColumn, AddWords;
    var g := Groups(|mem|);
    var s := Column(mem, j, g);
    NextColumnIs(mem, j, p);
    NextSwelled(a, s, g, p);
    OneMoreSweep(Swelled(a, s, g, p), NextColumn(s, g, p), Column(Raised(mem, p), j, g));
  }

  lemma NextColumnIs(mem: seq<nat>, j: nat, p: nat)
    requires j < ACCS
    ensures Column(Raised(mem, p), j, Groups(|mem|)) % U64 == NextColumn(Column(mem, j, Groups(|mem|)), Groups(|mem|), p) % U64
  {
    hide Column, Raised;
    RaisedColumn(mem, j, Groups(|mem|), p, Groups(|mem|) * p);
  }

  lemma NextSwelled(a: nat, s: nat, g: nat, p: nat)
    ensures Swelled(a, s, g, p + 1) == Swelled(a, s, g, p) + NextColumn(s, g, p)
  {
    var t, t' := Triangle(p), Triangle(p + 1);
    assert t' == t + p;
    NextProducts(s, g, p, t, t');
  }

  lemma NextProducts(s: nat, g: nat, p: nat, t: nat, t': nat)
    requires t' == t + p
    ensures (p + 1) * s + g * t' == (p * s + g * t) + (s + g * p)
  {
    assert (p + 1) * s == p * s + s;
    assert g * t' == g * t + g * p;
  }

  lemma OneMoreSweep(x: nat, y: nat, now: nat)
    requires now % U64 == y % U64
    ensures AddWords(x % U64, now) == (x + y) % U64
  {
    ModAdd(x, now);
    ModAdd(now, x);
    ModAdd(y, x);
  }

  /** The accumulators after p sweeps. */
  ghost predicate After(mem: seq<nat>, a: seq<nat>, b: seq<nat>, p: nat) {
    && |a| == |b| == ACCS && Words(b)
    && forall j :: 0 <= j < ACCS ==> b[j] == Accumulated(mem, j, a[j], p)
  }

  lemma AfterNone(mem: seq<nat>, a: seq<nat>)
    requires Words(a) && |a| == ACCS
    ensures After(mem, a, a, 0)
  {
    forall j | 0 <= j < ACCS ensures a[j] == Accumulated(mem, j, a[j], 0) {
      AccumulatedNone(mem, j, a[j]);
    }
  }

  lemma AllOneMore(mem: seq<nat>, a: seq<nat>, b: seq<nat>, p: nat, c: seq<nat>)
    requires After(mem, a, b, p) && Summed(Raised(mem, p), b, c, Groups(|mem|))
    ensures After(mem, a, c, p + 1)
  {
    hide Column, Raised, Accumulated;
    forall j | 0 <= j < ACCS ensures c[j] == Accumulated(mem, j, a[j], p + 1) < U64 {
      AccumulatedOneMore(mem, j, a[j], p);
    }
  }

  /** mem_kernel_bw(): p sweeps raise every covered word by p and accumulator j by p times
      its first column plus p(p - 1)/2 for each word of it, modulo 2^64. */
  method MemBw(buf: array<nat>, acc: array<nat>, n: nat)
    requires buf != acc && acc.Length == ACCS && Words(acc[..]) && Words(buf[..])
    modifies buf, acc
    ensures buf[..] == Raised(old(buf[..]), n)
    ensures forall j :: 0 <= j < ACCS ==> acc[j] == Accumulated(old(buf[..]), j, old(acc[j]), n)
  {
    ghost var mem, a := buf[..], acc[..];
    var b := acc[..];
    RaisedByNone(mem);
    assert After(mem, a, b, 0) by { AfterNone(mem, a); }
    hide Raised, Accumulated, Words, Summed, Column;
    for pass := 0 to n
      invariant acc[..] == a
      invariant buf[..] == Raised(mem, pass)
      invariant After(mem, a, b, pass)
    {
      ghost var before := b;
      b := Sweep(buf, b);
      RaisedTwice(mem, pass, 1);
      AllOneMore(mem, a, before, pass, b);
    }
    acc[0], acc[1], acc[2], acc[3] := b[0], b[1], b[2], b[3];
  }

  // ----- batches of sweeps -----

  /** What mem_kernel_bw changes. */
  datatype SweepState = SweepState(mem: seq<nat>, acc: seq<nat>) {
    predicate Valid() { Words(mem) && Words(acc) && |acc| == ACCS }
  }

  type Sweepable = c: SweepState | c.Valid() witness SweepState([], [0, 0, 0, 0])

  /** The whole of MemBw as a function. */
  function Swept(c: Sweepable, n: nat): (r: SweepState)
    ensures r.mem == Raised(c.mem, n) && |r.acc| == ACCS
    ensures forall j :: 0 <= j < ACCS ==> r.acc[j] == Accumulated(c.mem, j, c.acc[j], n)
  {
    SweepState(Raised(c.mem, n), seq(ACCS, j requires 0 <= j < ACCS => Accumulated(c.mem, j, c.acc[j], n)))
  }

  lemma {:induction false} AccumulatedAdds(mem: seq<nat>, j: nat, a: nat, p: nat, q: nat)
    requires j < ACCS
    ensures Accumulated(Raised(mem, p), j, Accumulated(mem, j, a, p), q) == Accumulated(mem, j, a, p + q)
  {
    hide *;
    if q == 0 {
      AccumulatedNone(Raised(mem, p), j, Accumulated(mem, j, a, p));
    } else {
      var mid, k := Raised(mem, p), q - 1;
      AccumulatedAdds(mem, j, a, p, k);
      RaisedTwice(mem, p, k);
      AccumulatedOneMore(mem, j, a, p + k);
      AccumulatedOneMore(mid, j, Accumulated(mem, j, a, p), k);
    }
  }

  lemma SweptValid(c: Sweepable, n: nat)
    ensures Swept(c, n).Valid()
  {
    RaisedWords(c.mem, n);
  }

  function SweepKernel(): (Sweepable, nat) -> Sweepable {
    (c: Sweepable, n: nat) => (SweptValid(c, n); Swept(c, n))
  }

  /** However run_timed() cuts the sweeps into batches, the buffer and the accumulators end
      as after one call. */
  lemma SweepsAreBatchable()
    ensures Batchable(SweepKernel())
  {
    forall c: Sweepable, a: nat, b: nat ensures Composes(SweepKernel(), c, a, b) {
      SweepsCompose(c, a, b);
    }
  }

  lemma SweepsCompose(c: Sweepable, a: nat, b: nat)
    ensures Swept(c, 0) == c
    ensures Swept(c, a).Valid() && Swept(Swept(c, a), b) == Swept(c, a + b)
  {
    SweptValid(c, a);
    RaisedByNone(c.mem);
    RaisedTwice(c.mem, a, b);
    forall j | 0 <= j < ACCS
      ensures Swept(c, 0).acc[j] == c.acc[j]
      ensures Swept(Swept(c, a), b).acc[j] == Swept(c, a + b).acc[j]
    {
      AccumulatedNone(c.mem, j, c.acc[j]);
      AccumulatedAdds(c.mem, j, c.acc[j], a, b);
    }
  }

  // ----- mem_warmup() -----

  /** One read-only sweep: nothing is written. */
  method ReadSweep(buf: array<nat>, a: seq<nat>) returns (b: seq<nat>)
    requires Words(a) && |a| == ACCS
    ensures Summed(buf[..], a, b, Groups(buf.Length))
  {
    b := a;
    ghost var g := 0;
    var i := 0;
    NoneRaised(buf[..], a);
    hide Summed, Column, Words;
    while i + 3 < buf.Length
      invariant i == g * ACCS && g <= Groups(buf.Length)
      invariant Summed(buf[..], a, b, g)
    {
      ghost var before := b;
      SummedLength(buf[..], a, b, g);
      b := [(b[0] + buf[i]) % U64, (b[1] + buf[i + 1]) % U64, (b[2] + buf[i + 2]) % U64, (b[3] + buf[i + 3]) % U64];
      SummedOneMore(buf[..], a, before, g, b);
      i, g := i + 4, g + 1;
    }
  }

  const PAGE_BYTES: nat := 4096
  const WORD_BYTES: nat := 8

  /** mem_warmup(). Reading leaves the buffer alone; writing raises it once per sweep, and
      the sweeps are as many as clock readings found time left. */
  method MemWarmup(buf: array?<nat>, nbytes: nat, sec: real, readonly: bool, clock: nat -> real, ghost last: nat)
    returns (ghost sweeps: nat)
    requires buf != null ==> buf.Length == nbytes / WORD_BYTES
    requires Monotone(clock) && clock(last) >= clock(0) + sec
    modifies buf
    ensures buf != null ==> buf[..] == old(if readonly || sweeps == 0 then buf[..] else Raised(buf[..], sweeps))
    ensures sweeps == 0 <== buf == null || nbytes < 4096 || sec <= 0.0
    ensures buf != null && nbytes >= 4096 && sec > 0.0 ==> clock(sweeps + 1) >= clock(0) + sec
    ensures forall i :: 0 < i <= sweeps ==> clock(i) < clock(0) + sec
  {
    sweeps := 0;
    if buf == null || nbytes < PAGE_BYTES || sec <= 0.0 { return; }
    var tEnd := clock(0) + sec;
    ghost var mem := buf[..];
    var a := [0, 0, 0, 0];
    var ticks: nat := 1;
    while clock(ticks) < tEnd
      invariant ticks == sweeps + 1
      invariant |a| == ACCS && Words(a)
      invariant buf[..] == if readonly || sweeps == 0 then mem else Raised(mem, sweeps)
      invariant forall i :: 0 < i <= sweeps ==> clock(i) < tEnd
      decreases last - ticks
    {
      assert Ordered(clock, last, ticks);
      if readonly {
        a := ReadSweep(buf, a);
      } else {
        a := Sweep(buf, a);
        RaisedTwice(mem, sweeps, 1);
      }
      sweeps, ticks := sweeps + 1, ticks + 1;
    }
  }

  /** Why the flag matters: any number of writing sweeps short of 2^64 changes every link
      that lies in a covered word. */
  lemma WritingChangesEveryCoveredWord(mem: seq<nat>, sweeps: nat, i: nat)
    requires Words(mem) && i < Groups(|mem|) * ACCS && 0 < sweeps < U64
    ensures Raised(mem, sweeps)[i] != mem[i]
  {
    var x := mem[i] + sweeps;
    assert x % U64 == if x < U64 then x else x - U64;
  }

  /** The covered words are all but the last |mem| mod 4. */
  lemma RaisedIs(mem: seq<nat>, p: nat, i: nat)
    requires i < |mem|
    ensures Raised(mem, p)[i] == if i < |mem| - |mem| % 4 then (mem[i] + p) % 0x1_0000_0000_0000_0000 else mem[i]
  {
    assert Groups(|mem|) * ACCS == |mem| - |mem| % 4;
  }

  /** Two groups of four: accumulator j reads words j and j + 4, and one more of each in the
      second sweep. */
  lemma SweepsOfEight(mem: seq<nat>, j: nat, a: nat)
    requires |mem| == 8 && j < 4
    ensures Accumulated(mem, j, a, 1) == (a + mem[j] + mem[j + 4]) % 0x1_0000_0000_0000_0000
    ensures Accumulated(mem, j, a, 2) == (a + 2 * mem[j] + 2 * mem[j + 4] + 2) % 0x1_0000_0000_0000_0000
  {
    assert Column(mem, j, 1) == mem[j];
    assert Column(mem, j, 2) == mem[j] + mem[j + 4];
    assert Triangle(1) == 0 && Triangle(2) == 1;
  }
}
