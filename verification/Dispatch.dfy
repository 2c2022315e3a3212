/**
 disp_summary() of bench/src/bench.c: the dispatch ladder reduced to a plateau, a gain
 and the integral of the normalised curve.
 */
module Dispatch {
  import opened Geomean
  import opened Sizes

  const DISP_LADDER: seq<nat> :=
    [1, 8, 16, 32, 64, 128, 256, 512, 1024, 2048, 4096, 8192, 16384, 65536]
  const DISP_REF_IDX: nat := 0
  const DISP_SPAN_FIRST: nat := 1
  const DISP_SPAN_LAST: nat := DISP_LADDER_N - 2
  const DISP_PLATEAU_PTS: nat := 3
  const DISP_MIN_GAIN: real := 1.15

  datatype Status = DispNa | DispOk | DispNone

  datatype Summary = Summary(status: Status, thr: real, cap: real, gain: real, span: real)

  type Ladder = l: seq<real> | |l| == DISP_LADDER_N witness seq(DISP_LADDER_N, _ => 0.0)

  function Max(x: real, y: real): real {
    if y > x then y else x
  }

  /** The best of some rates, 0 for none. */
  function Best(s: seq<real>): real {
    if s == [] then 0.0 else Max(Best(s[..|s| - 1]), s[|s| - 1])
  }

  function Plateau(l: Ladder): real {
    Best(l[DISP_SPAN_FIRST..DISP_SPAN_FIRST + DISP_PLATEAU_PTS])
  }

  function Floor(l: Ladder): real {
    l[DISP_LADDER_N - 1]
  }

  /** Every point the read-out needs was measured. */
  predicate Measured(l: Ladder) {
    && (forall i :: DISP_SPAN_FIRST <= i < DISP_SPAN_FIRST + DISP_PLATEAU_PTS ==> l[i] > 0.0)
    && Floor(l) > 0.0 && l[DISP_REF_IDX] > 0.0
  }

  function Clip(q: real): real {
    if q > 1.0 then 1.0 else if q < 0.0 then 0.0 else q
  }

  /** How much of the prediction win the core still gets at rung i. */
  function Share(l: Ladder, i: nat): real
    requires i < DISP_LADDER_N && Plateau(l) != Floor(l)
  {
    Clip((l[i] - Floor(l)) / (Plateau(l) - Floor(l)))
  }

  /** The shares of the span rungs below `n`. */
  function SpanTo(l: Ladder, n: nat): real
    requires n <= DISP_LADDER_N && Plateau(l) != Floor(l)
  {
    if n <= DISP_SPAN_FIRST then 0.0 else SpanTo(l, n - 1) + Share(l, n - 1)
  }

  function Span(l: Ladder): real
    requires Plateau(l) != Floor(l)
  {
    SpanTo(l, DISP_SPAN_LAST + 1)
  }

  function Gain(l: Ladder): real
    requires Floor(l) > 0.0
  {
    Plateau(l) / Floor(l)
  }

  predicate Curved(l: Ladder) {
    Measured(l) && Gain(l) >= DISP_MIN_GAIN
  }

  lemma CurvedRises(l: Ladder)
    requires Curved(l)
    ensures Plateau(l) > Floor(l) > 0.0
  {
    RatioBound(Plateau(l), Floor(l), DISP_MIN_GAIN, Gain(l), DISP_MIN_GAIN * Floor(l));
  }

  function SummaryOf(l: Ladder, pow2: real -> real): Summary {
    if !Measured(l) then Summary(DispNa, 0.0, 0.0, 0.0, 0.0)
    else if Curved(l) then
      CurvedRises(l);
      Summary(DispOk, Plateau(l), 8.0 * pow2(Span(l) - 1.0), Gain(l), Span(l))
    else if l[DISP_REF_IDX] / Floor(l) < DISP_MIN_GAIN then Summary(DispNone, Plateau(l), 0.0, Gain(l), 0.0)
    else Summary(DispOk, Plateau(l), 4.0, Gain(l), 0.0)
  }

  method DispSummary(l: Ladder, pow2: real -> real)
    returns (status: Status, thr: real, cap: real, gain: real, span: real)
    ensures Summary(status, thr, cap, gain, span) == SummaryOf(l, pow2)
  {
    thr, cap, gain, span := 0.0, 0.0, 0.0, 0.0;
    var plateau := 0.0;
    for i := 0 to DISP_PLATEAU_PTS
      invariant forall k :: DISP_SPAN_FIRST <= k < DISP_SPAN_FIRST + i ==> l[k] > 0.0
      invariant plateau == Best(l[DISP_SPAN_FIRST..DISP_SPAN_FIRST + i])
      invariant i > 0 ==> plateau > 0.0
    {
      var v := l[DISP_SPAN_FIRST + i];
      ghost var seen := l[DISP_SPAN_FIRST..DISP_SPAN_FIRST + i + 1];
      assert seen[..|seen| - 1] == l[DISP_SPAN_FIRST..DISP_SPAN_FIRST + i];
      if v <= 0.0 { return DispNa, thr, cap, gain, span; }
      if v > plateau { plateau := v; }
    }
    var floorRate := l[DISP_LADDER_N - 1];
    var refRate := l[DISP_REF_IDX];
    if plateau <= 0.0 || floorRate <= 0.0 || refRate <= 0.0 { return DispNa, thr, cap, gain, span; }

    thr := plateau;
    gain := plateau / floorRate;
    if gain < DISP_MIN_GAIN {
      if refRate / floorRate < DISP_MIN_GAIN { return DispNone, thr, cap, gain, span; }
      cap := DISP_LADDER[DISP_SPAN_FIRST] as real / 2.0;
      return DispOk, thr, cap, gain, span;
    }
    CurvedRises(l);
    for i := DISP_SPAN_FIRST to DISP_SPAN_LAST + 1
      invariant span == SpanTo(l, i)
    {
      var q := (l[i] - floorRate) / (plateau - floorRate);
      if q > 1.0 { q := 1.0; }
      if q < 0.0 { q := 0.0; }
      span := span + q;
    }
    cap := DISP_LADDER[DISP_SPAN_FIRST] as real * pow2(span - 1.0);
    status := DispOk;
  }

  // ----- what the integral means -----

  lemma {:induction false} SpanToRange(l: Ladder, n: nat)
    requires DISP_SPAN_FIRST <= n <= DISP_LADDER_N && Plateau(l) != Floor(l)
    ensures 0.0 <= SpanTo(l, n) <= (n - 1) as real
  {
    if n > DISP_SPAN_FIRST { SpanToRange(l, n - 1); }
  }

  lemma {:induction false} SpanToCounts(l: Ladder, n: nat, i: nat)
    requires DISP_SPAN_FIRST <= i < n <= DISP_LADDER_N && Plateau(l) != Floor(l)
    ensures SpanTo(l, n) >= Share(l, i)
  {
    if i == n - 1 {
      SpanToRange(l, i);
    } else {
      SpanToCounts(l, n - 1, i);
    }
  }

  lemma {:induction false} BestIsOne(s: seq<real>) returns (i: nat)
    requires Best(s) > 0.0
    ensures i < |s| && s[i] == Best(s)
  {
    if s[|s| - 1] == Best(s) {
      i := |s| - 1;
    } else {
      i := BestIsOne(s[..|s| - 1]);
    }
  }

  lemma FullShare(l: Ladder, i: nat)
    requires i < DISP_LADDER_N && l[i] == Plateau(l) > Floor(l)
    ensures Share(l, i) == 1.0
  {
    SelfQuotient(Plateau(l) - Floor(l));
  }

  /** A curve worth integrating spans at least its own plateau and at most the ladder. */
  lemma SpanRange(l: Ladder, pow2: real -> real)
    requires Curved(l)
    ensures 1.0 <= SummaryOf(l, pow2).span <= (DISP_SPAN_LAST - DISP_SPAN_FIRST + 1) as real
  {
    CurvedRises(l);
    var points := l[DISP_SPAN_FIRST..DISP_SPAN_FIRST + DISP_PLATEAU_PTS];
    var k := BestIsOne(points);
    var i := DISP_SPAN_FIRST + k;
    assert 1.0 <= Span(l) <= (DISP_SPAN_LAST - DISP_SPAN_FIRST + 1) as real by {
      FullShare(l, i);
      SpanToCounts(l, DISP_SPAN_LAST + 1, i);
      SpanToRange(l, DISP_SPAN_LAST + 1);
    }
  }

  /** l' is l with every rate multiplied by c. */
  predicate ScaledBy(l: Ladder, l': Ladder, c: real) {
    c > 0.0 && forall i :: 0 <= i < DISP_LADDER_N ==> l'[i] == l[i] * c
  }

  lemma TimesOrder(x: real, y: real, c: real, xc: real, yc: real)
    requires c > 0.0 && xc == x * c && yc == y * c
    ensures x < y <==> xc < yc
  {
  }

  lemma BestStep(x: real, y: real, c: real, x': real, y': real)
    requires c > 0.0 && x' == x * c && y' == y * c
    ensures Max(x', y') == Max(x, y) * c
  {
    TimesOrder(x, y, c, x', y');
  }

  lemma BestOfThree(s: seq<real>)
    requires |s| == DISP_PLATEAU_PTS
    ensures Best(s) == Max(Max(Max(0.0, s[0]), s[1]), s[2])
  {
    assert s[..2][..1] == s[..1] && s[..1][..0] == [];
    assert Best(s[..1]) == Max(0.0, s[0]);
    assert Best(s[..2]) == Max(Best(s[..1]), s[1]);
  }

  lemma PlateauScales(l: Ladder, l': Ladder, c: real)
    requires ScaledBy(l, l', c)
    ensures Plateau(l') == Plateau(l) * c && Floor(l') == Floor(l) * c
  {
    hide Best, Max;
    BestOfThree(l[DISP_SPAN_FIRST..DISP_SPAN_FIRST + DISP_PLATEAU_PTS]);
    BestOfThree(l'[DISP_SPAN_FIRST..DISP_SPAN_FIRST + DISP_PLATEAU_PTS]);
    BestStep(0.0, l[1], c, 0.0, l'[1]);
    BestStep(Max(0.0, l[1]), l[2], c, Max(0.0, l'[1]), l'[2]);
    BestStep(Max(Max(0.0, l[1]), l[2]), l[3], c, Max(Max(0.0, l'[1]), l'[2]), l'[3]);
  }

  lemma PositiveScales(l: Ladder, l': Ladder, c: real, i: nat)
    requires ScaledBy(l, l', c) && i < DISP_LADDER_N
    ensures l[i] > 0.0 <==> l'[i] > 0.0
  {
    TimesOrder(0.0, l[i], c, 0.0, l'[i]);
  }

  lemma MeasuredScales(l: Ladder, l': Ladder, c: real)
    requires ScaledBy(l, l', c)
    ensures Measured(l') <==> Measured(l)
  {
    assert l[0] > 0.0 <==> l'[0] > 0.0 by { PositiveScales(l, l', c, 0); }
    assert l[1] > 0.0 <==> l'[1] > 0.0 by { PositiveScales(l, l', c, 1); }
    assert l[2] > 0.0 <==> l'[2] > 0.0 by { PositiveScales(l, l', c, 2); }
    assert l[3] > 0.0 <==> l'[3] > 0.0 by { PositiveScales(l, l', c, 3); }
    assert l[13] > 0.0 <==> l'[13] > 0.0 by { PositiveScales(l, l', c, 13); }
  }

  lemma GainScales(l: Ladder, l': Ladder, c: real)
    requires c > 0.0 && Floor(l) > 0.0
    requires Plateau(l') == Plateau(l) * c && Floor(l') == Floor(l) * c
    requires l'[DISP_REF_IDX] == l[DISP_REF_IDX] * c
    ensures Floor(l') > 0.0 && Gain(l') == Gain(l)
    ensures l'[DISP_REF_IDX] / Floor(l') == l[DISP_REF_IDX] / Floor(l)
  {
  }

  lemma QuotientScales(x: real, f: real, p: real, x': real, f': real, p': real, c: real)
    requires c > 0.0 && p > f && x' == x * c && f' == f * c && p' == p * c
    ensures p' > f' && (x' - f') / (p' - f') == (x - f) / (p - f)
  {
    TimesOrder(f, p, c, f', p');
  }

  predicate LevelsScale(l: Ladder, l': Ladder, c: real) {
    Plateau(l') == Plateau(l) * c && Floor(l') == Floor(l) * c
  }

  lemma ShareScales(l: Ladder, l': Ladder, c: real, i: nat)
    requires ScaledBy(l, l', c) && i < DISP_LADDER_N
    requires Plateau(l) > Floor(l) && LevelsScale(l, l', c)
    ensures Plateau(l') > Floor(l')
    ensures Share(l', i) == Share(l, i)
  {
    hide Plateau, Floor;
    QuotientScales(l[i], Floor(l), Plateau(l), l'[i], Floor(l'), Plateau(l'), c);
  }

  lemma {:induction false} SpanScales(l: Ladder, l': Ladder, c: real, n: nat)
    requires ScaledBy(l, l', c) && n <= DISP_LADDER_N
    requires Plateau(l) > Floor(l) && LevelsScale(l, l', c)
    ensures Plateau(l') > Floor(l')
    ensures SpanTo(l', n) == SpanTo(l, n)
  {
    hide Plateau, Floor, Share, ScaledBy, LevelsScale;
    if n > DISP_SPAN_FIRST {
      SpanScales(l, l', c, n - 1);
      ShareScales(l, l', c, n - 1);
    } else {
      ShareScales(l, l', c, 0);
    }
  }

  /** What the read-out branches on does not see the clock. */
  lemma BranchesScale(l: Ladder, l': Ladder, c: real)
    requires ScaledBy(l, l', c) && Measured(l)
    ensures Measured(l') && (Curved(l') <==> Curved(l))
    ensures Gain(l') == Gain(l) && Plateau(l') == Plateau(l) * c && Floor(l') == Floor(l) * c
    ensures l'[DISP_REF_IDX] / Floor(l') == l[DISP_REF_IDX] / Floor(l)
  {
    assert Measured(l') by { MeasuredScales(l, l', c); }
    assert Plateau(l') == Plateau(l) * c && Floor(l') == Floor(l) * c by { PlateauScales(l, l', c); }
    GainScales(l, l', c);
  }

  /** A faster clock is not a better predictor: scaling every rate scales the plateau and
      leaves the rest of the read-out alone. */
  lemma ScalingIsInvisible(l: Ladder, l': Ladder, c: real, pow2: real -> real)
    requires ScaledBy(l, l', c)
    ensures SummaryOf(l', pow2) == SummaryOf(l, pow2).(thr := SummaryOf(l, pow2).thr * c)
  {
    hide Plateau, Floor, Gain, ScaledBy;
    if Measured(l) {
      BranchesScale(l, l', c);
      hide Measured;
      if Curved(l) { SpanIsScaleFree(l, l', c); }
    } else {
      MeasuredScales(l, l', c);
    }
  }

  lemma SpanIsScaleFree(l: Ladder, l': Ladder, c: real)
    requires ScaledBy(l, l', c) && Curved(l)
    ensures Plateau(l) != Floor(l) && Plateau(l') != Floor(l') && Span(l') == Span(l)
  {
    hide Plateau, Floor, ScaledBy;
    CurvedRises(l);
    PlateauScales(l, l', c);
    SpanScales(l, l', c, DISP_SPAN_LAST + 1);
  }

  lemma DivideMono(a: real, b: real, d: real)
    requires a <= b && d > 0.0
    ensures a / d <= b / d
  {
  }

  lemma {:induction false} SpanRises(l: Ladder, i: nat, v: real, n: nat)
    requires DISP_PLATEAU_PTS < i <= DISP_SPAN_LAST && v >= l[i] && n <= DISP_LADDER_N
    requires Plateau(l) > Floor(l) && Plateau(l[i := v]) == Plateau(l) && Floor(l[i := v]) == Floor(l)
    ensures SpanTo(l[i := v], n) >= SpanTo(l, n)
  {
    if n > DISP_SPAN_FIRST {
      SpanRises(l, i, v, n - 1);
      DivideMono(l[n - 1] - Floor(l), l[i := v][n - 1] - Floor(l), Plateau(l) - Floor(l));
    }
  }

  ghost predicate Rising(pow2: real -> real) {
    forall x: real, y: real :: x <= y ==> pow2(x) <= pow2(y)
  }

  /** Predicting longer patterns never reads as predicting shorter ones. */
  lemma SpanIsMonotone(l: Ladder, i: nat, v: real, pow2: real -> real)
    requires Curved(l) && DISP_PLATEAU_PTS < i <= DISP_SPAN_LAST && v >= l[i]
    ensures SummaryOf(l[i := v], pow2).span >= SummaryOf(l, pow2).span
    ensures Rising(pow2) ==> SummaryOf(l[i := v], pow2).cap >= SummaryOf(l, pow2).cap
  {
    CurvedRises(l);
    SpanRises(l, i, v, DISP_SPAN_LAST + 1);
  }

  /** A core at the plateau rate up to span rung m, and at the floor after it. */
  predicate Ideal(l: Ladder, m: nat, rate: real) {
    && 1 <= m <= DISP_SPAN_LAST
    && (forall i :: 1 <= i <= m ==> l[i] == rate)
    && (forall i :: m < i < DISP_LADDER_N ==> l[i] == Floor(l))
  }

  lemma IdealPlateau(l: Ladder, m: nat, rate: real)
    requires Ideal(l, m, rate) && rate > Floor(l) > 0.0
    ensures Plateau(l) == rate
  {
    var s := l[DISP_SPAN_FIRST..DISP_SPAN_FIRST + DISP_PLATEAU_PTS];
    BestOfThree(s);
  }

  lemma NoShare(l: Ladder, i: nat)
    requires i < DISP_LADDER_N && l[i] == Floor(l) < Plateau(l)
    ensures Share(l, i) == 0.0
  {
    ZeroQuotient(Plateau(l) - Floor(l));
  }

  lemma ZeroQuotient(d: real)
    requires d != 0.0
    ensures 0.0 / d == 0.0
  {
  }

  lemma {:induction false} IdealSpan(l: Ladder, m: nat, rate: real, n: nat)
    requires Ideal(l, m, rate) && Plateau(l) == rate > Floor(l) && n <= DISP_LADDER_N
    ensures SpanTo(l, n) == (if n <= 1 then 0 else if n <= m + 1 then n - 1 else m) as real
  {
    if n > DISP_SPAN_FIRST {
      IdealSpan(l, m, rate, n - 1);
      hide Plateau, Floor, Share;
      if n - 1 <= m {
        FullShare(l, n - 1);
      } else {
        NoShare(l, n - 1);
      }
    }
  }

  ghost predicate PowersOfTwo(pow2: real -> real) {
    forall k: nat :: pow2(k as real) == Pow(2.0, k)
  }

  lemma {:induction false} PeriodOf(m: nat)
    requires 1 <= m <= DISP_SPAN_LAST
    ensures 8.0 * Pow(2.0, m - 1) == DISP_LADDER[m] as real
  {
    if m > 1 {
      PeriodOf(m - 1);
      assert Pow(2.0, m - 1) == 2.0 * Pow(2.0, m - 2);
      assert DISP_LADDER[m] == 2 * DISP_LADDER[m - 1];
    }
  }

  /** "Returns exactly L for an ideal core that predicts everything up to L": the floor
      drops out, whatever it is. */
  lemma IdealCoreReadsExactly(l: Ladder, m: nat, rate: real, pow2: real -> real)
    requires Measured(l) && Ideal(l, m, rate) && rate >= DISP_MIN_GAIN * Floor(l)
    requires PowersOfTwo(pow2)
    ensures var s := SummaryOf(l, pow2);
            s.status == DispOk && s.span == m as real && s.cap == DISP_LADDER[m] as real
  {
    assert rate > Floor(l);
    IdealPlateau(l, m, rate);
    IdealSpan(l, m, rate, DISP_SPAN_LAST + 1);
    RatioBound(Plateau(l), Floor(l), DISP_MIN_GAIN, Gain(l), DISP_MIN_GAIN * Floor(l));
    PeriodOf(m);
    assert Span(l) - 1.0 == (m - 1) as real;
    assert pow2((m - 1) as real) == Pow(2.0, m - 1);
  }

  // ----- the read-out in numbers -----

  function Larger(x: real, y: real): real {
    if x >= y then x else y
  }

  lemma PlateauIs(l: Ladder)
    requires l[1] > 0.0
    ensures Plateau(l) == Larger(Larger(l[1], l[2]), l[3])
  {
    BestOfThree(l[DISP_SPAN_FIRST..DISP_SPAN_FIRST + DISP_PLATEAU_PTS]);
  }

  lemma MeasuredIs(l: Ladder)
    ensures Measured(l) <==> l[0] > 0.0 && l[1] > 0.0 && l[2] > 0.0 && l[3] > 0.0 && l[13] > 0.0
  {
  }

  lemma BelowGain(p: real, f: real)
    requires f > 0.0
    ensures p / f < 1.15 <==> 100.0 * p < 115.0 * f
    ensures p / f * f == p
  {
    RatioBound(p, f, 1.15, p / f, 1.15 * f);
  }

  /** What disp_summary() says of a ladder, rung by rung. */
  lemma ReadOut(l: Ladder, pow2: real -> real)
    ensures var s, top := SummaryOf(l, pow2), Larger(Larger(l[1], l[2]), l[3]);
            if l[0] <= 0.0 || l[1] <= 0.0 || l[2] <= 0.0 || l[3] <= 0.0 || l[13] <= 0.0 then
              s == Summary(DispNa, 0.0, 0.0, 0.0, 0.0)
            else if 100.0 * top >= 115.0 * l[13] then
              s.status == DispOk && s.thr == top && s.gain * l[13] == top && s.cap == 8.0 * pow2(s.span - 1.0)
            else if 100.0 * l[0] >= 115.0 * l[13] then
              s.status == DispOk && s.thr == top && s.gain * l[13] == top && s.cap == 4.0 && s.span == 0.0
            else
              s.status == DispNone && s.thr == top && s.gain * l[13] == top && s.cap == 0.0 && s.span == 0.0
  {
    hide Plateau, Measured, Span, Larger;
    MeasuredIs(l);
    if Measured(l) {
      PlateauIs(l);
      BelowGain(Plateau(l), l[13]);
      BelowGain(l[0], l[13]);
    }
  }

  /** How far x stands above the floor, up to the plateau. */
  function Above(x: real, floor: real, top: real): real {
    if x < floor then 0.0 else if x > top then top - floor else x - floor
  }

  lemma ShareIsAbove(l: Ladder, i: nat)
    requires i < DISP_LADDER_N && Plateau(l) > Floor(l)
    ensures Share(l, i) * (Plateau(l) - Floor(l)) == Above(l[i], Floor(l), Plateau(l))
  {
    hide Plateau, Floor;
    var d := Plateau(l) - Floor(l);
    RatioBound(l[i] - Floor(l), d, 1.0, (l[i] - Floor(l)) / d, d);
    RatioBound(l[i] - Floor(l), d, 0.0, (l[i] - Floor(l)) / d, 0.0);
  }

  function AboveTo(l: Ladder, n: nat, floor: real, top: real): real
    requires n <= 13
  {
    if n <= 1 then 0.0 else AboveTo(l, n - 1, floor, top) + Above(l[n - 1], floor, top)
  }

  lemma {:induction false} SpanToIsAbove(l: Ladder, n: nat)
    requires n <= 13 && Plateau(l) > Floor(l)
    ensures SpanTo(l, n) * (Plateau(l) - Floor(l)) == AboveTo(l, n, Floor(l), Plateau(l))
  {
    hide Plateau, Floor, Share;
    if n > 1 {
      SpanToIsAbove(l, n - 1);
      ShareIsAbove(l, n - 1);
    }
  }

  lemma TwelveRungs(l: Ladder, floor: real, top: real)
    ensures AboveTo(l, 13, floor, top) ==
            Above(l[1], floor, top) + Above(l[2], floor, top) + Above(l[3], floor, top) + Above(l[4], floor, top)
            + Above(l[5], floor, top) + Above(l[6], floor, top) + Above(l[7], floor, top) + Above(l[8], floor, top)
            + Above(l[9], floor, top) + Above(l[10], floor, top) + Above(l[11], floor, top) + Above(l[12], floor, top)
  {
    hide *;
    NoRungs(l, floor, top);
    OneRung(l, 1, floor, top);
    OneRung(l, 2, floor, top);
    OneRung(l, 3, floor, top);
    OneRung(l, 4, floor, top);
    OneRung(l, 5, floor, top);
    OneRung(l, 6, floor, top);
    OneRung(l, 7, floor, top);
    OneRung(l, 8, floor, top);
    OneRung(l, 9, floor, top);
    OneRung(l, 10, floor, top);
    OneRung(l, 11, floor, top);
    OneRung(l, 12, floor, top);
  }

  lemma NoRungs(l: Ladder, floor: real, top: real)
    ensures AboveTo(l, 1, floor, top) == 0.0
  {
  }

  lemma OneRung(l: Ladder, n: nat, floor: real, top: real)
    requires 1 <= n <= 12
    ensures AboveTo(l, n + 1, floor, top) == AboveTo(l, n, floor, top) + Above(l[n], floor, top)
  {
  }

  lemma CurvedIs(l: Ladder)
    requires l[0] > 0.0 && l[1] > 0.0 && l[2] > 0.0 && l[3] > 0.0 && l[13] > 0.0
    ensures Curved(l) <==> 100.0 * Larger(Larger(l[1], l[2]), l[3]) >= 115.0 * l[13]
  {
    hide Plateau, Measured, Larger;
    MeasuredIs(l);
    PlateauIs(l);
    BelowGain(Plateau(l), l[13]);
  }

  lemma AreaOfSpan(l: Ladder, pow2: real -> real)
    requires l[13] > 0.0 && Curved(l)
    ensures SummaryOf(l, pow2).span * (Plateau(l) - l[13]) == AboveTo(l, 13, l[13], Plateau(l))
  {
    assert Floor(l) == l[13];
    hide Plateau, Curved, AboveTo, Floor, SpanTo, Gain;
    CurvedRises(l);
    SpanToIsAbove(l, 13);
  }

  /** The span is the area between the curve and its floor, over the twelve rungs, in units of
      the plateau's height: linear in every rung between the two. */
  lemma SpanIsArea(l: Ladder, pow2: real -> real)
    requires l[0] > 0.0 && l[1] > 0.0 && l[2] > 0.0 && l[3] > 0.0 && l[13] > 0.0
    requires 100.0 * Larger(Larger(l[1], l[2]), l[3]) >= 115.0 * l[13]
    ensures var f, p := l[13], Larger(Larger(l[1], l[2]), l[3]);
            SummaryOf(l, pow2).span * (p - f)
            == Above(l[1], f, p) + Above(l[2], f, p) + Above(l[3], f, p) + Above(l[4], f, p)
               + Above(l[5], f, p) + Above(l[6], f, p) + Above(l[7], f, p) + Above(l[8], f, p)
               + Above(l[9], f, p) + Above(l[10], f, p) + Above(l[11], f, p) + Above(l[12], f, p)
  {
    hide Plateau, Curved, AboveTo, Above, SummaryOf, Larger;
    CurvedIs(l);
    PlateauIs(l);
    AreaOfSpan(l, pow2);
    TwelveRungs(l, l[13], Plateau(l));
  }
}
