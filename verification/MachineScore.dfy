/**
 How the whole-machine score of bench.c grows with the number of threads. The comments
 beside machine_score() say about n times a single core's score. That is so exactly when
 there is no dispatch ladder: a ladder's term does not add up across cores, so with k other
 terms n identical cores score n^(k/(k+1)) times one of them, n^(5/6) with everything measured.
 */
module MachineScores {
  import opened Geomean
  import opened Dispatch
  import opened Results
  import opened Honest
  import opened Sizes

  function Copies(r: Result, n: nat): (rows: seq<Result>)
    ensures |rows| == n
  {
    seq(n, _ => r)
  }

  lemma {:induction false} TotalOfCopies(r: Result, n: nat, f: Field)
    ensures Total(Copies(r, n), f) == n as real * Get(r, f)
  {
    if n > 0 {
      TotalOfCopies(r, n - 1, f);
      assert Copies(r, n)[..n - 1] == Copies(r, n - 1);
    }
  }

  lemma {:induction false} PositiveCopies(r: Result, n: nat, f: Field)
    ensures Positive(Copies(r, n), f) == if Get(r, f) > 0.0 then Copies(r, n) else []
  {
    hide Get;
    if n > 0 {
      PositiveCopies(r, n - 1, f);
      assert Copies(r, n)[..n - 1] == Copies(r, n - 1);
      assert Copies(r, n - 1) + [r] == Copies(r, n);
    }
  }

  lemma AverageOfCopies(r: Result, n: nat, f: Field)
    requires n > 0
    ensures Average(Copies(r, n), f) == if Get(r, f) > 0.0 then Get(r, f) else 0.0
  {
    hide Total, Positive, Get;
    PositiveCopies(r, n, f);
    if Get(r, f) > 0.0 {
      TotalOfCopies(r, n, f);
      Quotient(Get(r, f), n as real, Total(Copies(r, n), f));
    }
  }

  function Grown(v: seq<real>, k: real): seq<real>
    requires |v| == 6
  {
    [k * v[0], k * v[1], k * v[2], k * v[3], k * v[4], v[5]]
  }

  lemma MissRateGrows(k: real, x: real)
    ensures MissRate(k, x) == k * MissRate(1.0, x)
  {
    if x > 0.0 {
      Associate(k, 1000.0 / x, 100.0);
    }
  }

  lemma SpanOfCopies(r: Result, n: nat)
    requires n > 0
    ensures Total(Copies(r, n), DispSpan) / Spread(Copies(r, n)) == r.disp.span
  {
    TotalOfCopies(r, n, DispSpan);
    Quotient(r.disp.span, n as real, Total(Copies(r, n), DispSpan));
  }

  lemma TotalScaled(r: Result, n: nat, f: Field, c: real)
    ensures Total(Copies(r, n), f) * c == n as real * (Get(r, f) * c)
  {
    TotalOfCopies(r, n, f);
    Associate(n as real, Get(r, f), c);
  }

  /** The four summed columns the score reads. */
  predicate Rates(t: Result, rows: seq<Result>) {
    && t.intThr == Total(rows, IntThr) && t.fpThr == Total(rows, FpThr)
    && t.mulThr == Total(rows, MulThr) && t.disp.thr == Total(rows, DispThr)
  }

  /** The averaged ones. */
  predicate Averages(t: Result, rows: seq<Result>) {
    && t.memLat8 == Average(rows, MemLat8)
    && t.disp.span == Total(rows, DispSpan) / Spread(rows)
    && t.disp.status == (if Positive(rows, DispCap) != [] then DispOk else if AnyNone(rows) then DispNone else DispNa)
  }

  lemma CopiesRates(r: Result, n: nat, t: Result)
    requires Rates(t, Copies(r, n))
    ensures t.intThr == n as real * r.intThr && t.fpThr == n as real * r.fpThr
    ensures t.mulThr * 4.0 == n as real * (r.mulThr * 4.0)
    ensures t.disp.thr * 20.0 == n as real * (r.disp.thr * 20.0)
  {
    assert t.intThr == n as real * r.intThr by { TotalOfCopies(r, n, IntThr); }
    assert t.fpThr == n as real * r.fpThr by { TotalOfCopies(r, n, FpThr); }
    assert t.mulThr * 4.0 == n as real * (r.mulThr * 4.0) by { TotalScaled(r, n, MulThr, 4.0); }
    assert t.disp.thr * 20.0 == n as real * (r.disp.thr * 20.0) by { TotalScaled(r, n, DispThr, 20.0); }
  }

  /** What every row of summarize() says of its predictor: a measured capacity is positive. */
  predicate CapIsThere(r: Result) {
    r.disp.status == DispOk ==> r.disp.cap > 0.0
  }

  lemma StatusOfCopies(r: Result, n: nat, t: Result)
    requires n > 0 && CapIsThere(r) && Averages(t, Copies(r, n))
    ensures t.disp.status == r.disp.status
  {
    hide Positive;
    PositiveCopies(r, n, DispCap);
    assert AnyNone(Copies(r, n)) <==> r.disp.status == DispNone by { assert Copies(r, n)[0] == r; }
  }

  lemma CopiesAverages(r: Result, n: nat, t: Result)
    requires n > 0 && CapIsThere(r) && Averages(t, Copies(r, n))
    ensures MissRate(n as real, t.memLat8) == MissRate(n as real, r.memLat8) && SpanTerm(t.disp) == SpanTerm(r.disp)
  {
    assert t.disp.status == r.disp.status by { StatusOfCopies(r, n, t); }
    assert t.disp.span == r.disp.span by { SpanOfCopies(r, n); }
    AverageOfCopies(r, n, MemLat8);
  }

  lemma MachineTermsGrow(r: Result, n: nat, t: Result)
    requires t.intThr == n as real * r.intThr && t.fpThr == n as real * r.fpThr
    requires t.mulThr * 4.0 == n as real * (r.mulThr * 4.0)
    requires t.disp.thr * 20.0 == n as real * (r.disp.thr * 20.0)
    requires MissRate(n as real, t.memLat8) == MissRate(n as real, r.memLat8) && SpanTerm(t.disp) == SpanTerm(r.disp)
    ensures MachineTerms(t, n) == Grown(Terms(r, 1.0), n as real)
  {
    MissRateGrows(n as real, r.memLat8);
    var m, g := MachineTerms(t, n), Grown(Terms(r, 1.0), n as real);
    assert m[0] == g[0] && m[1] == g[1] && m[2] == g[2];
    assert m[3] == g[3] && m[4] == g[4] && m[5] == g[5];
  }

  /** n identical cores: five of the six terms grow n-fold, the predictor's does not. */
  lemma CopiesTerms(r: Result, n: nat, t: Result)
    requires n > 0 && CapIsThere(r)
    requires Rates(t, Copies(r, n)) && Averages(t, Copies(r, n))
    ensures MachineTerms(t, n) == Grown(Terms(r, 1.0), n as real)
  {
    CopiesRates(r, n, t);
    CopiesAverages(r, n, t);
    MachineTermsGrow(r, n, t);
  }

  lemma ScaledStep(k: real, kn: real, kn1: real, p: real, q: real, x: real, y: real, px: real)
    requires q == kn * p && y == k * x && kn1 == k * kn && px == p * x
    ensures q * y == kn1 * px
  {
    Regroup(kn, p, k, x);
  }

  lemma SignScales(k: real, x: real, y: real)
    requires k > 0.0 && y == k * x
    ensures y > 0.0 <==> x > 0.0
  {
  }

  /** q and m are the product and the number of the positive terms of w, p and m those of v,
      and w is v with every term multiplied by k. */
  predicate Brings(k: real, m: nat, p: real, q: real) {
    q == Pow(k, m) * p
  }

  predicate Multiplied(k: real, x: real, y: real) {
    y == k * x
  }

  lemma OneMoreBrings(k: real, m: nat, p: real, q: real, x: real, y: real)
    requires k > 0.0 && Brings(k, m, p, q) && Multiplied(k, x, y)
    ensures y > 0.0 <==> x > 0.0
    ensures Brings(k, m + if x > 0.0 then 1 else 0, With(p, x), With(q, y))
  {
    SignScales(k, x, y);
    if x > 0.0 { ScaledStep(k, Pow(k, m), Pow(k, m + 1), p, q, x, y, p * x); }
  }

  /** Scaling every term: the same ones are positive, and each brings its factor. */
  lemma {:induction false} ScaledProduct(v: seq<real>, w: seq<real>, k: real)
    requires k > 0.0 && |v| == |w|
    requires forall i :: 0 <= i < |v| ==> Multiplied(k, v[i], w[i])
    ensures PosCount(w) == PosCount(v) && Brings(k, PosCount(v), PosProduct(v), PosProduct(w))
  {
    if v != [] {
      hide *;
      var n := |v| - 1;
      LastFactor(v);
      LastFactor(w);
      ScaledProduct(v[..n], w[..n], k);
      OneMoreBrings(k, PosCount(v[..n]), PosProduct(v[..n]), PosProduct(w[..n]), v[n], w[n]);
    }
  }

  /** How many of the terms grow with the number of threads. */
  function Growing(r: Result): nat {
    PosCount(Terms(r, 1.0)[..5])
  }

  lemma SameBrings(k: real, m: nat, p: real, q: real, x: real)
    requires Brings(k, m, p, q)
    ensures Brings(k, m, With(p, x), With(q, x))
  {
    Associate(Pow(k, m), p, x);
  }

  lemma GrownParts(v: seq<real>, k: real)
    requires |v| == 6
    ensures |Grown(v, k)| == 6 && Grown(v, k)[5] == v[5]
    ensures forall i :: 0 <= i < 5 ==> Multiplied(k, v[i], Grown(v, k)[i])
  {
    forall i | 0 <= i < 5 ensures Grown(v, k)[i] == k * v[i] {
      assert i == 0 || i == 1 || i == 2 || i == 3 || i == 4;
    }
  }

  lemma GrownProduct(v: seq<real>, k: real)
    requires |v| == 6 && k > 0.0
    ensures PosCount(Grown(v, k)) == PosCount(v) == PosCount(v[..5]) + (if v[5] > 0.0 then 1 else 0)
    ensures Brings(k, PosCount(v[..5]), PosProduct(v), PosProduct(Grown(v, k)))
  {
    hide *;
    var g := Grown(v, k);
    GrownParts(v, k);
    LastFactor(v);
    LastFactor(g);
    ScaledProduct(v[..5], g[..5], k);
    SameBrings(k, PosCount(v[..5]), PosProduct(v[..5]), PosProduct(g[..5]), v[5]);
  }

  lemma WhatTheScoreReads(t: Result, rows: seq<Result>)
    requires IsAggregate(t, rows)
    ensures Rates(t, rows) && Averages(t, rows)
  {
  }

  lemma MeanOfGrown(v: seq<real>, k: real, g: real, h: real)
    requires |v| == 6 && k > 0.0 && IsGeomean(g, v) && IsGeomean(h, Grown(v, k))
    ensures var m := PosCount(v[..5]) + if v[5] > 0.0 then 1 else 0;
            Pow(h, m) == Pow(k, PosCount(v[..5])) * Pow(g, m)
            && (if m == 0 then h == 0.0 == g else h > 0.0 && g > 0.0)
  {
    GrownProduct(v, k);
  }

  ghost predicate PositivePowers(pow2: real -> real) {
    forall x: real :: pow2(x) > 0.0
  }

  lemma SummaryHasItsCap(r: Result, w: Worker, pow2: real -> real)
    requires IsSummary(r, w, pow2) && PositivePowers(pow2)
    ensures CapIsThere(r) && (SpanTerm(r.disp) > 0.0 <==> r.disp.status != DispNa)
  {
    SummaryIsDerived(r, w, pow2);
  }

  lemma BothMeans(r: Result, w: Worker, pow2: real -> real, n: nat, t: Result)
    requires IsSummary(r, w, pow2) && PositivePowers(pow2) && n > 0
    requires IsAggregate(t, Copies(r, n))
    ensures |Terms(r, 1.0)| == 6 && IsGeomean(r.score, Terms(r, 1.0))
    ensures IsGeomean(t.score, Grown(Terms(r, 1.0), n as real))
    ensures Terms(r, 1.0)[5] > 0.0 <==> r.disp.status != DispNa
  {
    hide IsGeomean, Pow, PosCount;
    SummaryIsDerived(r, w, pow2);
    SummaryHasItsCap(r, w, pow2);
    WhatTheScoreReads(t, Copies(r, n));
    assert MachineTerms(t, n) == Grown(Terms(r, 1.0), n as real) by { CopiesTerms(r, n, t); }
    assert IsGeomean(t.score, MachineTerms(t, n));
  }

  /** The whole law, for whatever was measured. With k growing terms, the score of n identical
      cores is n^(k/m) times that of one, where m is k without a ladder and k + 1 with one. */
  lemma MachineScoreOfIdenticalCores(r: Result, w: Worker, pow2: real -> real, n: nat, t: Result)
    requires IsSummary(r, w, pow2) && PositivePowers(pow2) && n > 0
    requires IsAggregate(t, Copies(r, n))
    ensures var m := Growing(r) + if r.disp.status == DispNa then 0 else 1;
            Pow(t.score, m) == Pow(n as real, Growing(r)) * Pow(r.score, m)
            && (if m == 0 then t.score == 0.0 == r.score else t.score > 0.0 && r.score > 0.0)
  {
    hide IsSummary, IsAggregate, PositivePowers, IsGeomean, PosCount, Terms, Grown, Copies, Pow;
    BothMeans(r, w, pow2, n, t);
    MeanOfGrown(Terms(r, 1.0), n as real, r.score, t.score);
  }

  lemma SamePower(x: real, y: real, m: nat)
    requires x > 0.0 && y > 0.0 && m > 0 && Pow(x, m) == Pow(y, m)
    ensures x == y
  {
    PowCompare(x, y, m);
    PowCompare(y, x, m);
  }

  lemma {:induction false} PowOne(m: nat)
    ensures Pow(1.0, m) == 1.0
  {
    if m > 0 { PowOne(m - 1); }
  }

  /** x^m is n^k s^m with m one more than k: x is n s only for n = 1. */
  lemma OneTermShort(x: real, n: real, s: real, k: nat, ns: real)
    requires n >= 1.0 && s > 0.0 && x > 0.0 && ns == n * s
    requires Pow(x, k + 1) == Pow(n, k) * Pow(s, k + 1)
    ensures x == ns <==> n == 1.0
  {
    if n == 1.0 {
      PowOne(k);
      SamePower(x, s, k + 1);
    } else if x == ns {
      PowProduct(n, s, x, k + 1);
      PowPositive(n, k);
      PowPositive(s, k + 1);
      Cancel(Pow(n, k + 1), Pow(n, k), Pow(s, k + 1), Pow(x, k + 1), Pow(x, k + 1));
      Cancel(n, 1.0, Pow(n, k), Pow(n, k + 1), Pow(n, k));
    }
  }

  lemma TimesIff(x: real, n: real, s: real, k: nat, ladder: bool, ns: real)
    requires n >= 1.0 && ns == n * s
    requires var m := k + if ladder then 1 else 0;
             Pow(x, m) == Pow(n, k) * Pow(s, m) && (if m == 0 then x == 0.0 == s else x > 0.0 && s > 0.0)
    ensures x == ns <==> n == 1.0 || !ladder
  {
    if ladder {
      OneTermShort(x, n, s, k, ns);
    } else if k > 0 {
      PowProduct(n, s, ns, k);
      SamePower(x, ns, k);
    }
  }

  /** When the comment is right: n identical cores, n > 1, score n times one of them exactly
      when none of them has a dispatch ladder. */
  lemma TimesCoresIffNoLadder(r: Result, w: Worker, pow2: real -> real, n: nat, t: Result)
    requires IsSummary(r, w, pow2) && PositivePowers(pow2) && n > 0
    requires IsAggregate(t, Copies(r, n))
    ensures t.score == n as real * r.score <==> n == 1 || r.disp.status == DispNa
  {
    hide *;
    MachineScoreOfIdenticalCores(r, w, pow2, n, t);
    TimesIff(t.score, n as real, r.score, Growing(r), r.disp.status != DispNa, n as real * r.score);
  }

  /** A core whose ladder is flat: it predicts nothing. */
  const FLAT_CORE: Worker :=
    Worker(1000.0, 4000.0, 4000.0, 2000.0, 8000.0, 10.0, 1.5625, 0.1953125, seq(DISP_LADDER_N, _ => 1600.0))

  /** Its row in full: the terms of the score are 4000, 8000, 20 * 1600, 512000, 4 * 4000 and
      2000, whose product is 16000^6. */
  lemma FlatCore(r: Result, pow2: real -> real)
    requires IsSummary(r, FLAT_CORE, pow2)
    ensures r == Result(1000.0, 4000.0, 4000.0, 2000.0, 8000.0, 10.0, 1.5625, 0.1953125,
                        4.0, 4.0, 8.0, Summary(DispNone, 1600.0, 0.0, 1.0, 0.0), 16000.0)
    ensures Growing(r) == 5
  {
    var l := FLAT_CORE.ladder;
    BestOfThree(l[DISP_SPAN_FIRST..DISP_SPAN_FIRST + DISP_PLATEAU_PTS]);
    assert Plateau(l) == 1600.0 && Measured(l);
    SelfQuotient(1600.0);
    assert r.disp == Summary(DispNone, 1600.0, 0.0, 1.0, 0.0);
    assert CoreTerms(FLAT_CORE, r.disp) == [4000.0, 8000.0, 32000.0, 512000.0, 16000.0, 2000.0];
    assert Terms(r, 1.0) == CoreTerms(FLAT_CORE, r.disp);
    hide IsGeomean, CoreTerms;
    SixteenThousand(r.score);
    SixFactors(4000.0, 8000.0, 32000.0, 512000.0, 16000.0, 2000.0);
  }

  lemma SixteenThousand(g: real)
    requires IsGeomean(g, [4000.0, 8000.0, 32000.0, 512000.0, 16000.0, 2000.0])
    ensures g == 16000.0
  {
    hide IsGeomean;
    MeanOfSix(16000.0, 4000.0, 8000.0, 32000.0, 512000.0, 16000.0, 2000.0);
    GeomeanUnique(g, 16000.0, [4000.0, 8000.0, 32000.0, 512000.0, 16000.0, 2000.0]);
  }

  /** Where the comment fails: sixty-four cores that each score 16000 score 512000 together,
      not 1024000. */
  lemma SixtyFourCores(r: Result, pow2: real -> real, t: Result)
    requires IsSummary(r, FLAT_CORE, pow2) && PositivePowers(pow2)
    requires IsAggregate(t, Copies(r, 64))
    ensures r.score == 16000.0 && t.score == 512000.0
  {
    FlatCore(r, pow2);
    MachineScoreOfIdenticalCores(r, FLAT_CORE, pow2, 64, t);
    var s := 32.0 * r.score;
    PowProduct(32.0, r.score, s, 6);
    FifthPower(64.0);
    SixthPower(32.0);
    assert Pow(64.0, 5) == Pow(32.0, 6);
    SamePower(t.score, s, 6);
  }
}
