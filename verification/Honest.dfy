/**
 The two implementations against each other: what the benchmark prints, the hub accepts;
 what somebody then edits, it refuses.
 */
module Honest {
  import opened Geomean
  import opened Dispatch
  import opened Results
  import opened Wrappers
  import opened Consistency

  /** How far a term recomputed from printed numbers can be from the one the benchmark used. */
  const TERM_ERROR: real := 0.000006

  predicate Near(u: real, v: real) {
    (u <= 0.0 && v <= 0.0) || (u > 0.0 && v > 0.0 && Close(u, v, TERM_ERROR))
  }

  predicate AllNear(us: seq<real>, vs: seq<real>) {
    |us| == |vs| && forall i :: 0 <= i < |us| ==> Near(us[i], vs[i])
  }

  lemma OneMoreFactor(c: real, power: real, p: real, q: real, v: real, u: real)
    requires c > 0.0 && power > 0.0 && p > 0.0 && q > 0.0 && v > 0.0 && u > 0.0
    ensures power * p <= q && c * v <= u ==> (c * power) * (p * v) <= q * u
    ensures q <= power * p && u <= c * v ==> q * u <= (c * power) * (p * v)
  {
    Regroup(power, p, c, v);
    var x, y := power * p, c * v;
    if x <= q && y <= u { TimesMono(x, q, y, u); }
    if q <= x && u <= y { TimesMono(q, x, u, y); }
  }

  predicate Within(q: real, p: real, m: nat) {
    Pow(1.0 - TERM_ERROR, m) * p <= q <= Pow(1.0 + TERM_ERROR, m) * p
  }

  lemma WithinNext(q: real, p: real, m: nat, u: real, v: real)
    requires Within(q, p, m) && p > 0.0 && q > 0.0 && u > 0.0 && v > 0.0 && Close(u, v, TERM_ERROR)
    ensures Within(q * u, p * v, m + 1)
  {
    PowPositive(1.0 - TERM_ERROR, m);
    PowPositive(1.0 + TERM_ERROR, m);
    assert Pow(1.0 - TERM_ERROR, m + 1) == (1.0 - TERM_ERROR) * Pow(1.0 - TERM_ERROR, m);
    assert Pow(1.0 + TERM_ERROR, m + 1) == (1.0 + TERM_ERROR) * Pow(1.0 + TERM_ERROR, m);
    hide Pow;
    OneMoreFactor(1.0 - TERM_ERROR, Pow(1.0 - TERM_ERROR, m), p, q, v, u);
    OneMoreFactor(1.0 + TERM_ERROR, Pow(1.0 + TERM_ERROR, m), p, q, v, u);
  }

  lemma {:induction false} NearProducts(us: seq<real>, vs: seq<real>)
    requires AllNear(us, vs)
    ensures PosCount(us) == PosCount(vs)
    ensures Within(PosProduct(us), PosProduct(vs), PosCount(vs))
  {
    if us != [] {
      var n := |us| - 1;
      NearProducts(us[..n], vs[..n]);
      LastFactor(us);
      LastFactor(vs);
      assert Near(us[n], vs[n]);
      hide PosProduct, PosCount, Pow, Within;
      if vs[n] > 0.0 {
        WithinNext(PosProduct(us[..n]), PosProduct(vs[..n]), PosCount(vs[..n]), us[n], vs[n]);
      }
    }
  }

  /** A tolerance wide enough for the printing of a mean and of its terms. */
  predicate Tolerates(t: real) {
    0.0 < t < 1.0 && (1.0 - t) * (1.0 + TERM_ERROR) <= 1.0 - PRINT_ERROR && 1.0 + PRINT_ERROR <= (1.0 + t) * (1.0 - TERM_ERROR)
  }

  /** A printed mean is near the mean of nearby terms, however many of them there are. */
  lemma PrintedMeanAgrees(s: real, got: real, us: seq<real>, vs: seq<real>, t: real)
    requires IsGeomean(s, vs) && AllNear(us, vs) && Tolerates(t)
    requires if s > 0.0 then Close(got, s, PRINT_ERROR) else got <= 0.0
    ensures NearMean(got, us, t)
  {
    NearProducts(us, vs);
    if PosCount(vs) > 0 {
      MeanWithin(s, got, PosCount(vs), PosProduct(vs), PosProduct(us), t);
    }
  }

  lemma Shrinks(c: real, s: real, k: real, got: real, cs: real)
    requires 0.0 < c && 0.0 < s && cs == c * s
    ensures c <= k && k * s <= got ==> 0.0 < cs <= got
    ensures k <= c && got <= k * s ==> got <= cs
  {
    if c <= k { ScaleMono(s, c, k); }
    if k <= c { ScaleMono(s, k, c); }
  }

  lemma MeanLow(s: real, got: real, m: nat, q: real, a: real, b: real, c: real)
    requires a > 0.0 && s > 0.0 && b > 0.0 && c == a * b && 0.0 < c <= 1.0 - PRINT_ERROR
    requires (1.0 - PRINT_ERROR) * s <= got && q <= Pow(b, m) * Pow(s, m)
    ensures Pow(a, m) * q <= Pow(got, m)
  {
    var cs := c * s;
    Shrinks(c, s, 1.0 - PRINT_ERROR, got, cs);
    PowerBelow(a, b, s, got, m, q, c, cs);
  }

  lemma MeanHigh(s: real, got: real, m: nat, q: real, a: real, b: real, c: real)
    requires a > 0.0 && s > 0.0 && b > 0.0 && c == a * b && 1.0 + PRINT_ERROR <= c
    requires 0.0 < got <= (1.0 + PRINT_ERROR) * s && Pow(b, m) * Pow(s, m) <= q
    ensures Pow(got, m) <= Pow(a, m) * q
  {
    var cs := c * s;
    Shrinks(c, s, 1.0 + PRINT_ERROR, got, cs);
    PowerAbove(a, b, s, got, m, q, c, cs);
  }

  lemma MeanWithin(s: real, got: real, m: nat, p: real, q: real, t: real)
    requires m > 0 && s > 0.0 && Pow(s, m) == p && p > 0.0
    requires Close(got, s, PRINT_ERROR) && Within(q, p, m) && Tolerates(t)
    ensures got > 0.0
    ensures Pow(1.0 - t, m) * q <= Pow(got, m) <= Pow(1.0 + t, m) * q
  {
    hide Pow;
    MeanLow(s, got, m, q, 1.0 - t, 1.0 + TERM_ERROR, (1.0 - t) * (1.0 + TERM_ERROR));
    MeanHigh(s, got, m, q, 1.0 + t, 1.0 - TERM_ERROR, (1.0 + t) * (1.0 - TERM_ERROR));
  }

  lemma PowTriple(a: real, b: real, s: real, m: nat, c: real, cs: real)
    requires c == a * b && cs == c * s
    ensures Pow(cs, m) == (Pow(a, m) * Pow(b, m)) * Pow(s, m)
  {
    assert Pow(c, m) == Pow(a, m) * Pow(b, m) by { PowProduct(a, b, c, m); }
    assert Pow(cs, m) == Pow(c, m) * Pow(s, m) by { PowProduct(c, s, cs, m); }
  }

  lemma CombineBelow(a: real, b: real, s: real, g: real, q: real)
    requires a > 0.0 && q <= b * s && (a * b) * s <= g
    ensures a * q <= g
  {
    ScaleMono(a, q, b * s);
    Associate(a, b, s);
  }

  lemma CombineAbove(a: real, b: real, s: real, g: real, q: real)
    requires a > 0.0 && b * s <= q && g <= (a * b) * s
    ensures g <= a * q
  {
    ScaleMono(a, b * s, q);
    Associate(a, b, s);
  }

  lemma PowerBelow(a: real, b: real, s: real, got: real, m: nat, q: real, c: real, cs: real)
    requires a > 0.0 && c == a * b && cs == c * s && 0.0 < cs <= got && q <= Pow(b, m) * Pow(s, m)
    ensures Pow(a, m) * q <= Pow(got, m)
  {
    assert Pow(a, m) > 0.0 by { PowPositive(a, m); }
    assert (Pow(a, m) * Pow(b, m)) * Pow(s, m) <= Pow(got, m) by {
      PowTriple(a, b, s, m, c, cs);
      PowMono(cs, got, m);
    }
    CombineBelow(Pow(a, m), Pow(b, m), Pow(s, m), Pow(got, m), q);
  }

  lemma PowerAbove(a: real, b: real, s: real, got: real, m: nat, q: real, c: real, cs: real)
    requires a > 0.0 && c == a * b && cs == c * s && 0.0 < got <= cs && Pow(b, m) * Pow(s, m) <= q
    ensures Pow(got, m) <= Pow(a, m) * q
  {
    assert Pow(a, m) > 0.0 by { PowPositive(a, m); }
    assert Pow(got, m) <= (Pow(a, m) * Pow(b, m)) * Pow(s, m) by {
      PowTriple(a, b, s, m, c, cs);
      PowMono(got, cs, m);
    }
    CombineAbove(Pow(a, m), Pow(b, m), Pow(s, m), Pow(got, m), q);
  }

  // ----- printing -----

  lemma PrintedNear(v: real, fmt: real -> real)
    requires SixDigits(fmt)
    ensures Near(F(JNum(v, true, fmt)), v)
    ensures v > 0.0 ==> Close(F(JNum(v, true, fmt)), v, PRINT_ERROR)
  {
  }

  lemma TimesNear(u: real, v: real, k: real)
    requires Near(u, v) && k > 0.0
    ensures Near(u * k, v * k)
  {
    if v > 0.0 {
      ScaleMono(k, (1.0 - TERM_ERROR) * v, u);
      ScaleMono(k, u, (1.0 + TERM_ERROR) * v);
    }
  }

  lemma PrintedTimesNear(v: real, fmt: real -> real, k: real)
    requires SixDigits(fmt) && k > 0.0
    ensures Near(F(JNum(v, true, fmt)) * k, v * k)
  {
    PrintedNear(v, fmt);
    TimesNear(F(JNum(v, true, fmt)), v, k);
  }

  lemma SpanNear(d: Summary, fmt: real -> real)
    requires SixDigits(fmt) && d.span >= 0.0 && d.status != DispNa
    ensures Near((F(JNum(d.span, true, fmt)) + 1.0) * 2000.0, SpanTerm(d))
  {
    PrintedNear(d.span, fmt);
    TimesNear(F(JNum(d.span, true, fmt)) + 1.0, d.span + 1.0, 2000.0);
  }

  /** If y is at most e times x, then n / y is at least 1 / e of n / x; and the other way. */
  lemma ReciprocalBound(n: real, x: real, y: real, a: real, b: real, e: real, ex: real, k: real, kb: real)
    requires n > 0.0 && x > 0.0 && y > 0.0 && n == a * y && n == b * x
    requires e > 0.0 && ex == e * x && k > 0.0 && kb == k * b
    ensures y <= ex && k * e <= 1.0 ==> kb <= a
    ensures y >= ex && k * e >= 1.0 ==> kb >= a
  {
    assert b > 0.0 && kb > 0.0;
    var ke, kby, kbex := k * e, kb * y, kb * ex;
    var ken := ke * n;
    assert kbex == ken by { Swap(k, b, e, x); }
    if y <= ex && ke <= 1.0 {
      MulMono(kb, y, ex, kby, kbex);
      MulMono(n, ke, 1.0, ken, n);
      Cancel(kb, a, y, kby, n);
    }
    if y >= ex && ke >= 1.0 {
      MulMono(kb, ex, y, kbex, kby);
      MulMono(n, 1.0, ke, n, ken);
      Cancel(a, kb, y, n, kby);
    }
  }

  /** The reciprocal of a printed number is near the reciprocal of the number. */
  lemma ReciprocalNear(y: real, x: real)
    requires x > 0.0 && Close(y, x, PRINT_ERROR)
    ensures y > 0.0 && Near(1000.0 / y, 1000.0 / x)
  {
    var a, b := 1000.0 / y, 1000.0 / x;
    ReciprocalBound(1000.0, x, y, a, b, 1.0 + PRINT_ERROR, (1.0 + PRINT_ERROR) * x, 1.0 - TERM_ERROR, (1.0 - TERM_ERROR) * b);
    ReciprocalBound(1000.0, x, y, a, b, 1.0 - PRINT_ERROR, (1.0 - PRINT_ERROR) * x, 1.0 + TERM_ERROR, (1.0 + TERM_ERROR) * b);
    assert a > 0.0;
  }

  lemma MissNear(scale: real, x: real, fmt: real -> real)
    requires SixDigits(fmt) && scale >= 0.0
    ensures Near(MissRate(scale, F(JNum(x, true, fmt))), MissRate(scale, x))
  {
    PrintedNear(x, fmt);
    if x > 0.0 {
      var y := F(JNum(x, true, fmt));
      ReciprocalNear(y, x);
      if scale > 0.0 {
        TimesNear(1000.0 / y, 1000.0 / x, scale);
        TimesNear(scale * (1000.0 / y), scale * (1000.0 / x), 100.0);
      }
    }
  }

  /** A ratio of printed numbers agrees with the printed ratio. */
  lemma RatioAgrees(top: real, bottom: real, fmt: real -> real)
    requires SixDigits(fmt)
    ensures Agrees(F(JNum(Ratio(top, bottom), true, fmt)), Ratio(F(JNum(top, true, fmt)), F(JNum(bottom, true, fmt))))
  {
    PrintedNear(top, fmt);
    PrintedNear(bottom, fmt);
    PrintedNear(Ratio(top, bottom), fmt);
    if bottom > 0.0 {
      if top > 0.0 {
        assert Ratio(top, bottom) > 0.0;
        RatioWithin(top, bottom, F(JNum(top, true, fmt)), F(JNum(bottom, true, fmt)), F(JNum(Ratio(top, bottom), true, fmt)));
      } else {
        assert Ratio(top, bottom) <= 0.0;
      }
    }
  }

  /** How far, at most, an honest ratio is from the ratio of its printed parts. */
  const RATIO_ERROR: real := 0.00002

  /** r b between two multiples of t = w b puts r between the same multiples of w. */
  lemma Uncross(r: real, w: real, b: real, t: real, rb: real, k: real, kt: real, kw: real)
    requires b > 0.0 && t == w * b && rb == r * b && kt == k * t && kw == k * w
    ensures kt <= rb ==> kw <= r
    ensures rb <= kt ==> r <= kw
  {
    Associate(k, w, b);
    assert kt == kw * b;
    if kt <= rb { Cancel(kw, r, b, kt, rb); }
    if rb <= kt { Cancel(r, kw, b, rb, kt); }
  }

  lemma RatioWithin(t: real, b: real, t': real, b': real, r': real)
    requires t > 0.0 && b > 0.0
    requires Close(t', t, PRINT_ERROR) && Close(b', b, PRINT_ERROR) && Close(r', t / b, PRINT_ERROR)
    ensures t' > 0.0 && b' > 0.0 && r' > 0.0 && Close(r', t' / b', RATIO_ERROR)
  {
    var r, w := t / b, t' / b';
    assert r * b == t && w * b' == t' && r > 0.0;
    CrossMultiplied(t, r, b, t', r', b');
    Uncross(r', w, b', t', r' * b', 1.0 - RATIO_ERROR, (1.0 - RATIO_ERROR) * t', (1.0 - RATIO_ERROR) * w);
    Uncross(r', w, b', t', r' * b', 1.0 + RATIO_ERROR, (1.0 + RATIO_ERROR) * t', (1.0 + RATIO_ERROR) * w);
  }

  lemma CrossMultiplied(t: real, r: real, b: real, t': real, r': real, b': real)
    requires r > 0.0 && b > 0.0 && r * b == t
    requires Close(t', t, PRINT_ERROR) && Close(b', b, PRINT_ERROR) && Close(r', r, PRINT_ERROR)
    ensures (1.0 - RATIO_ERROR) * t' <= r' * b' <= (1.0 + RATIO_ERROR) * t'
  {
    CloseProducts(r, r', b, b', 1.0 - PRINT_ERROR, 1.0 + PRINT_ERROR);
    CloserThan(t, t', r' * b');
  }

  lemma CloseProducts(r: real, r': real, b: real, b': real, lo: real, hi: real)
    requires r > 0.0 && b > 0.0 && lo > 0.0 && hi > 0.0
    requires lo * r <= r' <= hi * r && lo * b <= b' <= hi * b
    ensures (lo * lo) * (r * b) <= r' * b' <= (hi * hi) * (r * b)
  {
    var lr, lb, hr, hb := lo * r, lo * b, hi * r, hi * b;
    assert lr > 0.0 && lb > 0.0;
    TimesMono(lr, r', lb, b');
    TimesMono(r', hr, b', hb);
    Swap(lo, r, lo, b);
    Swap(hi, r, hi, b);
  }

  lemma CloserThan(t: real, t': real, x: real)
    requires t > 0.0 && Close(t', t, PRINT_ERROR)
    requires (1.0 - PRINT_ERROR) * (1.0 - PRINT_ERROR) * t <= x <= (1.0 + PRINT_ERROR) * (1.0 + PRINT_ERROR) * t
    ensures (1.0 - RATIO_ERROR) * t' <= x <= (1.0 + RATIO_ERROR) * t'
  {
  }

  // ----- no honest refusal -----

  /** The six terms of any record's score, in the benchmark's order. */
  function Terms(r: Result, scale: real): seq<real> {
    [r.intThr, r.fpThr, r.disp.thr * 20.0, MissRate(scale, r.memLat8), r.mulThr * 4.0, SpanTerm(r.disp)]
  }

  /** What the derived columns of an honest record are, one core's or the machine's. */
  predicate Derived(r: Result, scale: real) {
    && r.ilp == Ratio(r.intThr, r.intLat) && r.filp == Ratio(r.fpThr, r.fpLat) && r.mlp == Ratio(r.memLat, r.memLat8)
    && r.disp.span >= 0.0
    && IsGeomean(r.score, Terms(r, scale))
  }

  lemma SummaryIsDerived(r: Result, w: Worker, pow2: real -> real)
    requires IsSummary(r, w, pow2)
    ensures Derived(r, 1.0)
  {
    if Curved(w.ladder) { SpanRange(w.ladder, pow2); }
    assert CoreTerms(w, r.disp) == Terms(r, 1.0);
  }

  lemma {:induction false} TotalSpan(rows: seq<Result>)
    requires forall i :: 0 <= i < |rows| ==> rows[i].disp.span >= 0.0
    ensures Total(rows, DispSpan) >= 0.0
  {
    if rows != [] { TotalSpan(rows[..|rows| - 1]); }
  }

  lemma AggregateIsDerived(t: Result, rows: seq<Result>)
    requires IsAggregate(t, rows)
    requires forall i :: 0 <= i < |rows| ==> rows[i].disp.span >= 0.0
    ensures Derived(t, |rows| as real)
  {
    TotalSpan(rows);
    assert MachineTerms(t, |rows|) == Terms(t, |rows| as real);
  }

  /** The hub lists the same terms in another order. */
  lemma OrderDoesNotMatter(a: real, b: real, c: real, d: real, e: real, f: real)
    ensures PosCount([a, b, c, d, e, f]) == PosCount([a, b, e, c, f, d])
    ensures PosProduct([a, b, c, d, e, f]) == PosProduct([a, b, e, c, f, d])
  {
    SixTerms(a, b, c, d, e, f);
    SixTerms(a, b, e, c, f, d);
    ThreeTerms(a, b, c);
    ThreeTerms(d, e, f);
    ThreeTerms(a, b, e);
    ThreeTerms(c, f, d);
    Shuffle(Factor(a) * Factor(b), Factor(c), Factor(d), Factor(e), Factor(f));
  }

  function Factor(x: real): real {
    if x > 0.0 then x else 1.0
  }

  lemma Shuffle(ab: real, c: real, d: real, e: real, f: real)
    ensures (((ab * c) * d) * e) * f == (((ab * e) * c) * f) * d
  {
  }

  lemma LastTerm(v: seq<real>, x: real)
    ensures PosCount(v + [x]) == PosCount(v) + (if x > 0.0 then 1 else 0)
    ensures PosProduct(v + [x]) == PosProduct(v) * Factor(x)
  {
    assert (v + [x])[..|v|] == v;
  }

  lemma ThreeTerms(a: real, b: real, c: real)
    ensures PosProduct([a, b, c]) == (Factor(a) * Factor(b)) * Factor(c)
    ensures PosCount([a, b, c]) == (if a > 0.0 then 1 else 0) + (if b > 0.0 then 1 else 0) + (if c > 0.0 then 1 else 0)
  {
    LastTerm([], a);
    LastTerm([a], b);
    LastTerm([a, b], c);
    assert [] + [a] == [a] && [a] + [b] == [a, b] && [a, b] + [c] == [a, b, c];
  }

  lemma ThreeMore(v: seq<real>, a: real, b: real, c: real)
    ensures PosProduct(v + [a, b, c]) == ((PosProduct(v) * Factor(a)) * Factor(b)) * Factor(c)
    ensures PosCount(v + [a, b, c]) == PosCount(v) + PosCount([a, b, c])
  {
    hide Factor, PosProduct, PosCount;
    LastTerm(v, a);
    LastTerm(v + [a], b);
    LastTerm(v + [a] + [b], c);
    assert v + [a] + [b] + [c] == v + [a, b, c];
    ThreeTerms(a, b, c);
  }

  lemma SixTerms(a: real, b: real, c: real, d: real, e: real, f: real)
    ensures PosProduct([a, b, c, d, e, f]) == ((((Factor(a) * Factor(b)) * Factor(c)) * Factor(d)) * Factor(e)) * Factor(f)
    ensures PosCount([a, b, c, d, e, f]) == PosCount([a, b, c]) + PosCount([d, e, f])
  {
    assert [a, b, c, d, e, f] == [a, b, c] + [d, e, f];
    ThreeTerms(a, b, c);
    ThreeMore([a, b, c], d, e, f);
  }

  function HubOrder(r: Result, scale: real): seq<real> {
    [r.intThr, r.fpThr, r.mulThr * 4.0, r.disp.thr * 20.0, SpanTerm(r.disp), MissRate(scale, r.memLat8)]
  }

  lemma TermsNear(r: Result, scope: Scope, scale: real, fmt: real -> real)
    requires SixDigits(fmt) && scale >= 0.0 && r.disp.span >= 0.0
    ensures AllNear(ScoreTerms(JsonResult(r, scope, fmt), scale), HubOrder(r, scale))
  {
    var us, vs := ScoreTerms(JsonResult(r, scope, fmt), scale), HubOrder(r, scale);
    assert Near(us[0], vs[0]) by { PrintedNear(r.intThr, fmt); }
    assert Near(us[1], vs[1]) by { PrintedNear(r.fpThr, fmt); }
    assert Near(us[2], vs[2]) by { PrintedTimesNear(r.mulThr, fmt, 4.0); }
    assert Near(us[3], vs[3]) by { PrintedTimesNear(r.disp.thr, fmt, 20.0); }
    assert Near(us[4], vs[4]) by { if r.disp.status != DispNa { SpanNear(r.disp, fmt); } }
    assert Near(us[5], vs[5]) by { MissNear(scale, r.memLat8, fmt); }
  }

  /** The printed score of a record is near the mean of its printed terms. */
  lemma DerivedIsNear(r: Result, scope: Scope, scale: real, fmt: real -> real, t: real)
    requires SixDigits(fmt) && Derived(r, scale) && scale >= 0.0 && Tolerates(t)
    ensures NearMean(F(JsonResult(r, scope, fmt).score), ScoreTerms(JsonResult(r, scope, fmt), scale), t)
  {
    var row := JsonResult(r, scope, fmt);
    OrderDoesNotMatter(r.intThr, r.fpThr, r.disp.thr * 20.0, MissRate(scale, r.memLat8), r.mulThr * 4.0, SpanTerm(r.disp));
    TermsNear(r, scope, scale, fmt);
    PrintedNear(r.score, fmt);
    PrintedMeanAgrees(r.score, F(row.score), ScoreTerms(row, scale), HubOrder(r, scale), t);
  }

  /** A record the benchmark derived from its own measurements passes, whatever was missing. */
  lemma DerivedIsAccepted(r: Result, scope: Scope, fmt: real -> real, threads: Option<nat>)
    requires SixDigits(fmt)
    requires Derived(r, Scale(JsonResult(r, scope, fmt), threads))
    ensures Consistent(JsonResult(r, scope, fmt), threads)
  {
    RatioAgrees(r.intThr, r.intLat, fmt);
    RatioAgrees(r.fpThr, r.fpLat, fmt);
    RatioAgrees(r.memLat, r.memLat8, fmt);
    DerivedIsNear(r, scope, Scale(JsonResult(r, scope, fmt), threads), fmt, CONSISTENCY_TOLERANCE);
  }

  predicate Summaries(rs: seq<Result>, ws: seq<Worker>, pow2: real -> real) {
    |rs| == |ws| && forall i :: 0 <= i < |rs| ==> IsSummary(rs[i], ws[i], pow2)
  }

  function Printed(rs: seq<Result>, scope: Scope, fmt: real -> real): (rows: seq<Row>)
    ensures |rows| == |rs|
  {
    seq(|rs|, i requires 0 <= i < |rs| => JsonResult(rs[i], scope, fmt))
  }

  /** The records of a document: the per-core sweep, then the threads and their total. */
  function Records(cores: seq<Result>, threads: seq<Result>, total: Result, fmt: real -> real): seq<Row> {
    Printed(cores, Cpu, fmt) + Printed(threads, Thread, fmt)
    + (if threads == [] then [] else [JsonResult(total, Whole, fmt)])
  }

  /** No honest refusal: whatever every worker measured or failed to measure, however the
      numbers were rounded to six digits, and whether or not the document says how many
      threads it ran, every record passes. */
  lemma NoHonestRefusal(coreRuns: seq<Worker>, threadRuns: seq<Worker>, cores: seq<Result>, threads: seq<Result>,
                        total: Result, n: Option<nat>, pow2: real -> real, fmt: real -> real)
    requires SixDigits(fmt)
    requires Summaries(cores, coreRuns, pow2) && Summaries(threads, threadRuns, pow2)
    requires IsAggregate(total, threads)
    requires threads != [] && n.Some? ==> n.value == |threads|
    ensures forall i :: 0 <= i < |Records(cores, threads, total, fmt)| ==> Consistent(Records(cores, threads, total, fmt)[i], n)
  {
    hide Consistent, JsonResult, SixDigits, IsSummary, IsAggregate, Derived;
    forall i | 0 <= i < |cores| ensures Consistent(JsonResult(cores[i], Cpu, fmt), n) {
      RowIsAccepted(cores[i], coreRuns[i], Cpu, pow2, fmt, n);
    }
    forall i | 0 <= i < |threads|
      ensures Consistent(JsonResult(threads[i], Thread, fmt), n) && threads[i].disp.span >= 0.0
    {
      RowIsAccepted(threads[i], threadRuns[i], Thread, pow2, fmt, n);
    }
    if threads != [] {
      AggregateIsDerived(total, threads);
      TotalIsAccepted(total, |threads|, fmt, n);
    }
  }

  lemma RowIsAccepted(r: Result, w: Worker, scope: Scope, pow2: real -> real, fmt: real -> real, n: Option<nat>)
    requires SixDigits(fmt) && IsSummary(r, w, pow2) && scope != Whole
    ensures Consistent(JsonResult(r, scope, fmt), n) && r.disp.span >= 0.0
  {
    SummaryIsDerived(r, w, pow2);
    DerivedIsAccepted(r, scope, fmt, n);
  }

  lemma TotalIsAccepted(t: Result, count: nat, fmt: real -> real, n: Option<nat>)
    requires SixDigits(fmt) && Derived(t, count as real)
    requires n.Some? ==> n.value == count
    ensures Consistent(JsonResult(t, Whole, fmt), n)
  {
    if n.Some? {
      DerivedIsAccepted(t, Whole, fmt, n);
    } else {
      DerivedIsAccepted(t, Whole, fmt, Some(count));
    }
  }
}
