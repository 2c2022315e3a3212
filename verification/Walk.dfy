/**
 The kernels of bench/src/kernels.c that walk built chases, the dispatch kernel and the
 lane kernels; and what n units of each do.
 */
module Walks {
  import opened Chases
  import opened Shuffles
  import opened Kernels
  import Geomean
  import opened Sizes

  const LANES: nat := 8

  // ----- the chase kernels -----

  /** The first n loads from p are all inside the buffer. */
  ghost predicate Loads(mem: seq<nat>, p: nat, n: nat) {
    forall k :: 0 <= k < n ==> Hops(mem, p, k) < |mem|
  }

  lemma OneLoad(mem: seq<nat>, p: nat, i: nat, n: nat)
    requires Loads(mem, p, n) && i < n
    ensures Hops(mem, p, i) < |mem| && mem[Hops(mem, p, i)] == Hops(mem, p, i + 1)
  {
    HopsOneMore(mem, p, i);
  }

  /** mem_kernel_lat(). */
  method MemLat(mem: array<nat>, cur: array<nat>, n: nat)
    requires mem != cur && cur.Length == CHASE_WAYS && Loads(mem[..], cur[0], n)
    modifies cur
    ensures cur[..] == old(cur[..])[0 := Hops(mem[..], old(cur[0]), n)]
  {
    ghost var m, start, was := mem[..], cur[0], cur[..];
    var p := cur[0];
    for i := 0 to n
      invariant mem[..] == m && cur[..] == was
      invariant p == Hops(m, start, i)
    {
      OneLoad(m, start, i, n);
      p := mem[p];
    }
    cur[0] := p;
    assert cur[..] == was[0 := p];
  }

  function AllHops(mem: seq<nat>, cur: seq<nat>, n: nat): (r: seq<nat>)
    ensures |r| == |cur|
  {
    seq(|cur|, j requires 0 <= j < |cur| => Hops(mem, cur[j], n))
  }

  /** mem_kernel_mlp(). */
  method MemMlp(mem: array<nat>, cur: array<nat>, n: nat)
    requires mem != cur && cur.Length == CHASE_WAYS
    requires forall j :: 0 <= j < CHASE_WAYS ==> Loads(mem[..], cur[j], n)
    modifies cur
    ensures cur[..] == AllHops(mem[..], old(cur[..]), n)
  {
    ghost var m, start := mem[..], cur[..];
    for i := 0 to n
      invariant cur[..] == AllHops(m, start, i)
    {
      for j := 0 to CHASE_WAYS
        invariant forall k :: 0 <= k < CHASE_WAYS ==> cur[k] == Hops(m, start[k], if k < j then i + 1 else i)
      {
        OneLoad(m, start[j], i, n);
        cur[j] := mem[cur[j]];
      }
    }
  }

  // ----- walking a built buffer -----

  lemma {:induction false} LapsReturn(mem: seq<nat>, head: nat, n: nat, laps: nat)
    requires Hops(mem, head, n) == head
    ensures Hops(mem, head, laps * n) == head
  {
    if laps > 0 {
      LapsReturn(mem, head, n, laps - 1);
      HopsAdd(mem, head, (laps - 1) * n, n);
      assert (laps - 1) * n + n == laps * n;
    }
  }

  /** A cursor's place depends only on how far into the lap it is. */
  lemma HopsPeriodic(mem: seq<nat>, head: nat, n: nat, k: nat)
    requires n > 0 && Hops(mem, head, n) == head
    ensures Hops(mem, head, k) == Hops(mem, head, k % n)
  {
    LapsReturn(mem, head, n, k / n);
    HopsAdd(mem, head, (k / n) * n, k % n);
    assert (k / n) * n + k % n == k;
  }

  lemma SpotBelow(l: Layout, w: nat, mem: seq<nat>, a: nat)
    requires l.Valid() && w < l.ways && l.Fits(mem) && OnWay(l, w, a)
    ensures a < |mem|
  {
    var i: nat :| i < l.perWay && a == Spot(l, w, i);
    NodeBelow(l, w, i);
    AddressBelow(l, l.Node(w, i), l.perWay * l.ways);
  }

  /** A walk from a head: always on its own way and inside the buffer. */
  lemma WalkStaysOnWay(mem: seq<nat>, l: Layout, w: nat, head: nat, k: nat)
    requires l.Valid() && w < l.ways && l.Fits(mem) && FullCycle(mem, l, w, head)
    ensures Hops(mem, head, k) == Hops(mem, head, k % l.perWay)
    ensures OnWay(l, w, Hops(mem, head, k)) && Hops(mem, head, k) < |mem|
  {
    HopsPeriodic(mem, head, l.perWay, k);
    SpotBelow(l, w, mem, Hops(mem, head, k % l.perWay));
  }

  lemma OffOtherWays(l: Layout, w: nat, v: nat, a: nat, b: nat)
    requires l.Valid() && w < l.ways && v < l.ways && w != v && OnWay(l, w, a) && OnWay(l, v, b)
    ensures a != b
  {
    var i: nat :| i < l.perWay && a == Spot(l, w, i);
    var j: nat :| j < l.perWay && b == Spot(l, v, j);
    WaysAreDisjoint(l, w, i, v, j);
  }

  ghost predicate OnOwnWay(mem: seq<nat>, l: Layout, cur: seq<nat>) {
    forall w :: 0 <= w < |cur| ==> OnWay(l, w, cur[w]) && cur[w] < |mem|
  }

  ghost predicate MayLoad(mem: seq<nat>, cur: seq<nat>, n: nat) {
    forall w :: 0 <= w < |cur| ==> Loads(mem, cur[w], n)
  }

  /** The chase phases: after any number of hops from the heads the cursors are inside the
      buffer, each on its own way and no two on one node, and after every whole number of
      laps they are back at the heads. */
  lemma CursorsAfterAnyHops(mem: seq<nat>, l: Layout, heads: seq<nat>, k: nat)
    requires l.Valid() && |heads| == l.ways && l.Fits(mem) && AllCycles(mem, l, heads)
    ensures OnOwnWay(mem, l, AllHops(mem, heads, k)) && Distinct(AllHops(mem, heads, k))
    ensures k % l.perWay == 0 ==> AllHops(mem, heads, k) == heads
    ensures MayLoad(mem, heads, k)
  {
    var cur := AllHops(mem, heads, k);
    forall w, m: nat | 0 <= w < l.ways
      ensures OnWay(l, w, Hops(mem, heads[w], m)) && Hops(mem, heads[w], m) < |mem|
      ensures Hops(mem, heads[w], m) == Hops(mem, heads[w], m % l.perWay)
    {
      WalkStaysOnWay(mem, l, w, heads[w], m);
    }
    forall w, v | 0 <= w < v < l.ways ensures cur[w] != cur[v] {
      OffOtherWays(l, w, v, cur[w], cur[v]);
    }
  }

  /** Any lap, wherever it starts, loads each node of the way at exactly one of its hops. */
  lemma LapLoadsEveryNodeOnce(mem: seq<nat>, l: Layout, w: nat, head: nat, start: nat, i: nat) returns (at: nat)
    requires l.Valid() && w < l.ways && l.Fits(mem) && FullCycle(mem, l, w, head) && i < l.perWay
    ensures start <= at < start + l.perWay
    ensures forall k: nat :: start <= k < start + l.perWay ==> (Hops(mem, head, k) == Spot(l, w, i) <==> k == at)
  {
    assert Visited(mem, head, l.perWay, Spot(l, w, i));
    var j: nat :| j < l.perWay && Hops(mem, head, j) == Spot(l, w, i);
    at := InLap(start, l.perWay, j);
    forall k: nat | start <= k < start + l.perWay ensures Hops(mem, head, k) == Spot(l, w, i) <==> k == at {
      HopsPeriodic(mem, head, l.perWay, k);
      if k % l.perWay == j { OnceInLap(start, l.perWay, k, at); }
    }
  }

  lemma WholeLaps(x: nat, n: nat) returns (q: nat, qn: nat)
    requires n > 0
    ensures qn == q * n && x == qn + x % n
  {
    q := x / n;
    qn := q * n;
  }

  /** Two hop counts of one lap that are equally far into it are the same. */
  lemma OnceInLap(start: nat, n: nat, j: nat, k: nat)
    requires start <= j < start + n && start <= k < start + n && j % n == k % n
    ensures j == k
  {
    var p, pn := WholeLaps(j, n);
    var q, qn := WholeLaps(k, n);
    if p < q {
      RowBelow(p, q, n, pn, qn);
    } else if q < p {
      RowBelow(q, p, n, qn, pn);
    }
  }

  /** Any n consecutive hop counts contain one that is k into its lap. */
  lemma InLap(start: nat, n: nat, k: nat) returns (at: nat)
    requires k < n
    ensures start <= at < start + n && at % n == k
  {
    var q, r := start / n, start % n;
    if k >= r {
      at := start + (k - r);
      ModUnique(q, n, k, at, q * n);
    } else {
      at := start + n - r + k;
      assert (q + 1) * n == q * n + n;
      ModUnique(q + 1, n, k, at, q * n + n);
    }
  }

  lemma ModUnique(q: nat, n: nat, k: nat, x: nat, qn: nat)
    requires k < n && qn == q * n && x == qn + k
    ensures x % n == k
  {
    var p := x / n;
    assert x == p * n + x % n;
    if p < q {
      MulLe(p + 1, q, n, p * n + n, qn);
    } else if q < p {
      MulLe(q + 1, p, n, qn + n, p * n);
    }
  }

  // ----- the lane kernels -----

  function Lane<T>(step: (nat, T) -> T, j: nat): T -> T {
    x => step(j, x)
  }

  /** int_kernel_thr, mul_kernel_thr and fp_kernel_thr: the same counted loop around
      different steps, one step per lane and iteration. */
  method ThrKernel<T>(step: (nat, T) -> T, lanes: array<T>, n: nat)
    requires lanes.Length == LANES
    modifies lanes
    ensures forall j :: 0 <= j < LANES ==> lanes[j] == Iterate(Lane(step, j), old(lanes[j]), n)
  {
    for i := 0 to n
      invariant forall j :: 0 <= j < LANES ==> lanes[j] == Iterate(Lane(step, j), old(lanes[j]), i)
    {
      for j := 0 to LANES
        invariant forall k :: 0 <= k < LANES ==> lanes[k] == Iterate(Lane(step, k), old(lanes[k]), if k < j then i + 1 else i)
      {
        lanes[j] := step(j, lanes[j]);
      }
    }
  }

  /** int_kernel_lat and fp_kernel_lat: one chain on the first lane, of LANES steps a unit in
      the one and a single step in the other. The integer kernels so count the same number of
      steps a unit. */
  method LatKernel<T>(step: T -> T, lanes: array<T>, steps: nat, n: nat)
    requires lanes.Length == LANES
    modifies lanes
    ensures lanes[..] == old(lanes[..])[0 := Iterate(step, old(lanes[0]), n * steps)]
  {
    ghost var was := lanes[..];
    var x := lanes[0];
    for i := 0 to n
      invariant lanes[..] == was && x == Iterate(step, was[0], i * steps)
    {
      for j := 0 to steps
        invariant lanes[..] == was && x == Iterate(step, was[0], i * steps + j)
      {
        x := step(x);
      }
      assert i * steps + steps == (i + 1) * steps;
    }
    lanes[0] := x;
  }

  /** MUL_STEP, the same for every lane. */
  function MulStep(m: nat): nat -> nat {
    (a: nat) => (a * m) % U64
  }

  lemma OddTimesOdd(a: nat, m: nat, am: nat)
    requires a % 2 == 1 && m % 2 == 1 && am == a * m
    ensures am % 2 == 1
  {
    Spread(a / 2, m, (a / 2) * m, a, am);
  }

  lemma EvenModulus(x: nat)
    ensures (x % U64) % 2 == x % 2
  {
    assert x == x / U64 * U64 + x % U64;
  }

  lemma Spread(h: nat, m: nat, hm: nat, a: nat, am: nat)
    requires hm == h * m && a == 2 * h + 1 && am == a * m
    ensures am == 2 * hm + m
  {
  }

  /** With an odd factor an odd lane stays odd, so it never collapses to zero. */
  lemma {:induction false} MulLaneStaysOdd(m: nat, a: nat, n: nat)
    requires m % 2 == 1 && a % 2 == 1
    ensures Iterate(MulStep(m), a, n) % 2 == 1
  {
    if n > 0 {
      MulLaneStaysOdd(m, a, n - 1);
      var b := Iterate(MulStep(m), a, n - 1);
      OddTimesOdd(b, m, b * m);
      EvenModulus(b * m);
      assert Iterate(MulStep(m), a, n) == MulStep(m)(b);
    }
  }

  function NatPow(m: nat, n: nat): nat {
    if n == 0 then 1 else NatPow(m, n - 1) * m
  }

  lemma RestTimes(x: nat, m: nat, q: nat, r: nat)
    requires q == x / U64 && r == x % U64
    ensures (r * m) % U64 == (x * m) % U64
  {
    Spreads(q, r, m, q * m, r * m, x * m);
    MoreTurns(q * m, r * m, x * m);
  }

  lemma Spreads(q: nat, r: nat, m: nat, qm: nat, rm: nat, xm: nat)
    requires qm == q * m && rm == r * m && xm == (q * U64 + r) * m
    ensures xm == qm * U64 + rm
  {
  }

  lemma MoreTurns(turns: nat, r: nat, x: nat)
    requires x == turns * U64 + r
    ensures r % U64 == x % U64
  {
  }

  /** n units multiply a lane by m^n, modulo 2^64. */
  lemma {:induction false} MulLaneIs(m: nat, a: nat, n: nat)
    requires a < U64
    ensures Iterate(MulStep(m), a, n) == (a * NatPow(m, n)) % 0x1_0000_0000_0000_0000
  {
    if n > 0 {
      MulLaneIs(m, a, n - 1);
      var x := a * NatPow(m, n - 1);
      assert Iterate(MulStep(m), a, n) == MulStep(m)(x % U64) == (x % U64 * m) % U64;
      RestTimes(x, m, x / U64, x % U64);
      Associative(a, NatPow(m, n - 1), m);
    }
  }

  lemma Associative(a: nat, b: nat, c: nat)
    ensures (a * b) * c == a * (b * c)
  {
  }

  /** FP_STEP with a lane's own addend. */
  function FpStep(c: real, b: real): real -> real {
    (x: real) => x * c + b
  }

  function Abs(x: real): real {
    if x < 0.0 then -x else x
  }

  lemma AbsSign(x: real)
    ensures Abs(x) >= 0.0
  {
  }

  lemma AbsTimes(c: real, d: real, cd: real)
    requires cd == c * d
    ensures Abs(cd) == Abs(c) * Abs(d)
  {
  }

  /** One unit brings a lane closer to its fixed point by exactly the factor. */
  lemma StepNear(c: real, b: real, y: real, fixed: real)
    requires fixed == FpStep(c, b)(fixed)
    ensures Abs(FpStep(c, b)(y) - fixed) == Abs(c) * Abs(y - fixed)
  {
    var yc, fc := y * c, fixed * c;
    assert FpStep(c, b)(y) - fixed == yc - fc == c * (y - fixed);
    AbsTimes(c, y - fixed, yc - fc);
  }

  /** f brings y closer to the fixed point by the factor k. */
  predicate Closer(f: real -> real, k: real, fixed: real, y: real) {
    Abs(f(y) - fixed) == k * Abs(y - fixed)
  }

  lemma {:induction false} Closing(f: real -> real, k: real, x: real, fixed: real, n: nat)
    requires forall y :: Closer(f, k, fixed, y)
    ensures Abs(Iterate(f, x, n) - fixed) == Geomean.Pow(k, n) * Abs(x - fixed)
  {
    hide Abs;
    if n > 0 {
      Closing(f, k, x, fixed, n - 1);
      var y := Iterate(f, x, n - 1);
      assert Iterate(f, x, n) == f(y) && Closer(f, k, fixed, y);
      Geomean.Associate(k, Geomean.Pow(k, n - 1), Abs(x - fixed));
    }
  }

  /** After n units a lane is |c|^n times as far from its fixed point as it started. */
  lemma FpLaneCloses(c: real, b: real, x: real, fixed: real, n: nat)
    requires fixed == FpStep(c, b)(fixed)
    ensures Abs(Iterate(FpStep(c, b), x, n) - fixed) == Geomean.Pow(Abs(c), n) * Abs(x - fixed)
  {
    hide Abs, FpStep;
    forall y ensures Closer(FpStep(c, b), Abs(c), fixed, y) {
      StepNear(c, b, y, fixed);
    }
    Closing(FpStep(c, b), Abs(c), x, fixed, n);
  }

  /** Bernoulli's inequality, for a factor of 1 / (1 + d) or less. */
  lemma {:induction false} PowFalls(c: real, d: real, n: nat, nd: real)
    requires 0.0 <= c && d > 0.0 && c * (1.0 + d) <= 1.0 && nd == n as real * d
    ensures 0.0 <= Geomean.Pow(c, n) && Geomean.Pow(c, n) * (1.0 + nd) <= 1.0
  {
    if n > 0 {
      var md := (n - 1) as real * d;
      PowFalls(c, d, n - 1, md);
      BernoulliStep(c, d, Geomean.Pow(c, n - 1), md, Geomean.Pow(c, n), nd);
    }
  }

  lemma BernoulliStep(c: real, d: real, p: real, md: real, cp: real, nd: real)
    requires 0.0 <= c && d > 0.0 && c * (1.0 + d) <= 1.0 && md >= 0.0 && nd == md + d
    requires 0.0 <= p && p * (1.0 + md) <= 1.0 && cp == c * p
    ensures 0.0 <= cp && cp * (1.0 + nd) <= 1.0
  {
    var u, v := c * (1.0 + d), p * (1.0 + md);
    Geomean.TimesMono(0.0, c, 0.0, p);
    Geomean.TimesMono(u, 1.0, v, 1.0);
    Geomean.Swap(c, 1.0 + d, p, 1.0 + md);
    assert (1.0 + d) * (1.0 + md) == 1.0 + nd + d * md;
    Geomean.TimesMono(0.0, d, 0.0, md);
    Geomean.ScaleMono(cp, 1.0 + nd, (1.0 + d) * (1.0 + md));
  }

  lemma CloseEnough(p: real, nd: real, dist: real, eps: real, pd: real)
    requires 0.0 <= p && p * (1.0 + nd) <= 1.0 && dist <= nd * eps && eps > 0.0 && pd == p * dist
    ensures pd < eps || p == 0.0 == pd
  {
    if p > 0.0 {
      var pn := p * nd;
      assert p * (1.0 + nd) == p + pn;
      Geomean.ScaleMono(p, dist, nd * eps);
      Geomean.Associate(p, nd, eps);
      assert pn * eps < 1.0 * eps;
    }
  }

  /** n units are enough to come within eps from dist away, with 1 - d the factor. */
  predicate Enough(dist: real, d: real, eps: real, n: nat) {
    dist <= (n as real * d) * eps
  }

  lemma EnoughIs(dist: real, d: real, eps: real) returns (from: nat)
    requires dist >= 0.0 && d > 0.0 && eps > 0.0
    ensures forall n: nat :: n >= from ==> Enough(dist, d, eps, n)
  {
    var de := d * eps;
    assert de > 0.0;
    var q := dist / de;
    assert dist == q * de && q >= 0.0;
    from := q.Floor + 1;
    forall n: nat | n >= from ensures Enough(dist, d, eps, n) {
      Geomean.MulMono(de, q, n as real, dist, de * n as real);
      Geomean.Associate(n as real, d, eps);
    }
  }

  lemma Arrives(a: real, d: real, dist: real, eps: real, n: nat)
    requires 0.0 <= a < 1.0 && d == 1.0 - a && dist >= 0.0 && eps > 0.0 && Enough(dist, d, eps, n)
    ensures Geomean.Pow(a, n) * dist < eps
  {
    hide Geomean.Pow;
    var nd, p := n as real * d, Geomean.Pow(a, n);
    ShrinkByRest(a, d);
    PowFalls(a, d, n, nd);
    CloseEnough(p, nd, dist, eps, p * dist);
  }

  lemma FpLaneNear(c: real, b: real, x: real, fixed: real, eps: real, n: nat)
    requires Abs(c) < 1.0 && fixed == FpStep(c, b)(fixed) && eps > 0.0
    requires Enough(Abs(x - fixed), 1.0 - Abs(c), eps, n)
    ensures Abs(Iterate(FpStep(c, b), x, n) - fixed) < eps
  {
    hide *;
    AbsSign(c);
    AbsSign(x - fixed);
    FpLaneCloses(c, b, x, fixed, n);
    Arrives(Abs(c), 1.0 - Abs(c), Abs(x - fixed), eps, n);
  }

  lemma ShrinkByRest(a: real, d: real)
    requires d == 1.0 - a
    ensures a * (1.0 + d) <= 1.0
  {
    assert 1.0 - a * (1.0 + d) == d * d;
  }

  lemma FixedPoint(c: real, b: real, fixed: real)
    requires c != 1.0 && fixed == b / (1.0 - c)
    ensures fixed == FpStep(c, b)(fixed)
  {
    assert fixed * (1.0 - c) == b;
  }

  /** With a factor below one a lane converges: from some count of units on it is within any
      given distance of b / (1 - c), wherever it started, and that is where it would stay. */
  lemma FpLaneConverges(c: real, b: real, x: real, fixed: real, eps: real) returns (from: nat)
    requires Abs(c) < 1.0 && fixed == b / (1.0 - c) && eps > 0.0
    ensures fixed == FpStep(c, b)(fixed)
    ensures forall n: nat :: n >= from ==> Abs(Iterate(FpStep(c, b), x, n) - fixed) < eps
  {
    FixedPoint(c, b, fixed);
    from := EnoughIs(Abs(x - fixed), 1.0 - Abs(c), eps);
    forall n: nat | n >= from ensures Abs(Iterate(FpStep(c, b), x, n) - fixed) < eps {
      FpLaneNear(c, b, x, fixed, eps, n);
    }
  }

  // ----- the dispatch kernel -----

  /** What disp_kernel() keeps in its context; the period is the selector mask plus one. */
  datatype Dispatch<V> = Dispatch(pos: nat, acc: V)

  /** One indirect call: op is the table of leaf operations. The selector mask is one less
      than a power of two, so masking pos + 1 wraps it to zero at the end of idx. */
  function DispUnit<V>(op: (nat, V) -> V, idx: seq<nat>): Dispatch<V> -> Dispatch<V> {
    (d: Dispatch) => if d.pos >= |idx| then d else Dispatch(Next(d.pos, |idx|), op(idx[d.pos] % 4, d.acc))
  }

  /** disp_kernel(): idx holds one period of the selector stream. */
  method DispKernel<V>(op: (nat, V) -> V, idx: seq<nat>, d: Dispatch<V>, n: nat) returns (r: Dispatch<V>)
    requires d.pos < |idx|
    ensures r == Iterate(DispUnit(op, idx), d, n)
  {
    var pos: nat, acc := d.pos, d.acc;
    for i := 0 to n
      invariant pos < |idx| && Dispatch(pos, acc) == Iterate(DispUnit(op, idx), d, i)
    {
      ghost var was := Dispatch(pos, acc);
      acc := op(idx[pos] % 4, acc);
      pos := Next(pos, |idx|);
      assert Dispatch(pos, acc) == DispUnit(op, idx)(was);
    }
    r := Dispatch(pos, acc);
  }

  /** The accumulator after applying a list of selectors in turn. */
  function Applied<V>(op: (nat, V) -> V, selectors: seq<nat>, acc: V): V {
    if selectors == [] then acc
    else op(selectors[|selectors| - 1] % 4, Applied(op, selectors[..|selectors| - 1], acc))
  }

  /** Each selector picks one of four targets, for what the ones before it left. */
  lemma AppliedIs<V>(op: (nat, V) -> V, selectors: seq<nat>, x: nat, acc: V)
    ensures Applied(op, [], acc) == acc
    ensures Applied(op, selectors + [x], acc) == op(x % 4, Applied(op, selectors, acc))
  {
    var all := selectors + [x];
    assert all[..|all| - 1] == selectors;
  }

  /** Position pos + k of a stream that repeats idx for ever. */
  function Wrapped(idx: seq<nat>, pos: nat, k: nat): (p: nat)
    requires |idx| > 0
    ensures p < |idx|
  {
    (pos + k) % |idx|
  }

  lemma WrapNext(idx: seq<nat>, pos: nat, k: nat)
    requires |idx| > 0
    ensures Wrapped(idx, pos, k + 1) == Next(Wrapped(idx, pos, k), |idx|)
  {
    StepModulo(pos + k, |idx|);
  }

  lemma StepModulo(x: nat, n: nat)
    requires n > 0
    ensures (x + 1) % n == Next(x % n, n)
  {
    var q, qn := x / n, x / n * n;
    assert x == qn + x % n;
    if x % n + 1 < n {
      ModUnique(q, n, x % n + 1, x + 1, qn);
    } else {
      assert (q + 1) * n == qn + n;
      ModUnique(q + 1, n, 0, x + 1, qn + n);
    }
  }

  /** Those selectors were read cyclically from pos on. */
  ghost predicate ReadCyclically(idx: seq<nat>, pos: nat, selectors: seq<nat>)
    requires |idx| > 0
  {
    forall k :: 0 <= k < |selectors| ==> selectors[k] == idx[Wrapped(idx, pos, k)]
  }

  lemma ReadOne(idx: seq<nat>, pos: nat, selectors: seq<nat>, at: nat) returns (all: seq<nat>)
    requires |idx| > 0 && ReadCyclically(idx, pos, selectors) && at == Wrapped(idx, pos, |selectors|)
    ensures all == selectors + [idx[at]] && ReadCyclically(idx, pos, all)
  {
    all := selectors + [idx[at]];
  }

  /** n units call the targets the selector stream names, read cyclically from pos: the
      target sequence repeats with the period and does not depend on the accumulator. */
  lemma {:induction false} DispatchFollowsTheStream<V>(op: (nat, V) -> V, idx: seq<nat>, d: Dispatch<V>, n: nat)
    returns (selectors: seq<nat>)
    requires d.pos < |idx|
    ensures |selectors| == n && ReadCyclically(idx, d.pos, selectors)
    ensures Iterate(DispUnit(op, idx), d, n) == Dispatch(Wrapped(idx, d.pos, n), Applied(op, selectors, d.acc))
  {
    if n == 0 {
      selectors := [];
    } else {
      var before := DispatchFollowsTheStream(op, idx, d, n - 1);
      var was := Iterate(DispUnit(op, idx), d, n - 1);
      WrapNext(idx, d.pos, n - 1);
      selectors := ReadOne(idx, d.pos, before, was.pos);
      assert Iterate(DispUnit(op, idx), d, n) == DispUnit(op, idx)(was);
    }
  }
}
