/**
 What check_consistency() is for: a number changed by hand in a record the benchmark
 wrote no longer agrees with the others.
 */
module Edits {
  import opened Geomean
  import opened Dispatch
  import opened Results
  import opened Wrappers
  import opened Consistency
  import opened Honest

  /** The columns the check covers. */
  datatype Column = IntLatC | IntThrC | IlpC | MulThrC | FpLatC | FpThrC | FilpC
                  | MemLatC | MemLat8C | MlpC | DispThrC | DispSpanC | ScoreC

  function Cell(row: Row, c: Column): Option<real> {
    match c
    case IntLatC => row.intLat
    case IntThrC => row.intThr
    case IlpC => row.ilp
    case MulThrC => row.mulThr
    case FpLatC => row.fpLat
    case FpThrC => row.fpThr
    case FilpC => row.filp
    case MemLatC => row.memLat
    case MemLat8C => row.memLat8
    case MlpC => row.mlp
    case DispThrC => row.dispThr
    case DispSpanC => row.dispSpan
    case ScoreC => row.score
  }

  function Edit(row: Row, c: Column, y: real): Row {
    var v := Some(y);
    match c
    case IntLatC => row.(intLat := v)
    case IntThrC => row.(intThr := v)
    case IlpC => row.(ilp := v)
    case MulThrC => row.(mulThr := v)
    case FpLatC => row.(fpLat := v)
    case FpThrC => row.(fpThr := v)
    case FilpC => row.(filp := v)
    case MemLatC => row.(memLat := v)
    case MemLat8C => row.(memLat8 := v)
    case MlpC => row.(mlp := v)
    case DispThrC => row.(dispThr := v)
    case DispSpanC => row.(dispSpan := v)
    case ScoreC => row.(score := v)
  }

  /** An edit replaces its own column and no other. */
  lemma CellOfEdit(row: Row, c: Column, y: real, d: Column)
    ensures Cell(Edit(row, c, y), d) == if c == d then Some(y) else Cell(row, d)
    ensures Edit(row, c, y).scope == row.scope && Edit(row, c, y).prediction == row.prediction
    ensures Cell(row, IntLatC) == row.intLat && Cell(row, IntThrC) == row.intThr && Cell(row, IlpC) == row.ilp
    ensures Cell(row, MulThrC) == row.mulThr && Cell(row, FpLatC) == row.fpLat && Cell(row, FpThrC) == row.fpThr
    ensures Cell(row, FilpC) == row.filp && Cell(row, MemLatC) == row.memLat && Cell(row, MemLat8C) == row.memLat8
    ensures Cell(row, MlpC) == row.mlp && Cell(row, DispThrC) == row.dispThr && Cell(row, DispSpanC) == row.dispSpan
    ensures Cell(row, ScoreC) == row.score
  {
  }

  /** Every value there, so that none of the six terms drops out. */
  predicate Complete(row: Row) {
    row.prediction != Unknown && forall c: Column :: F(Cell(row, c)) > 0.0
  }

  /** The span enters the score as span + 1. */
  function Weight(c: Column, x: real): real {
    if c == DispSpanC then x + 1.0 else x
  }

  /** Off by more than one percent. */
  predicate Differs(x: real, y: real) {
    y > 1.01 * x || y < 0.99 * x
  }

  lemma DiffersIs(x: real, y: real)
    ensures Differs(x, y) <==> 100.0 * y > 101.0 * x || 100.0 * y < 99.0 * x
  {
  }

  // ----- how tightly an honest record agrees with itself -----

  predicate TightRatio(r: real, t: real, b: real) {
    (1.0 - RATIO_ERROR) * t <= r * b <= (1.0 + RATIO_ERROR) * t
  }

  predicate Tight(row: Row, scale: real) {
    && TightRatio(F(row.ilp), F(row.intThr), F(row.intLat))
    && TightRatio(F(row.filp), F(row.fpThr), F(row.fpLat))
    && TightRatio(F(row.mlp), F(row.memLat), F(row.memLat8))
    && NearMean(F(row.score), ScoreTerms(row, scale), RATIO_ERROR)
  }

  lemma RatioIsTight(top: real, bottom: real, fmt: real -> real)
    requires SixDigits(fmt) && top > 0.0 && bottom > 0.0 && Ratio(top, bottom) > 0.0
    ensures TightRatio(F(JNum(Ratio(top, bottom), true, fmt)), F(JNum(top, true, fmt)), F(JNum(bottom, true, fmt)))
  {
    PrintedNear(top, fmt);
    PrintedNear(bottom, fmt);
    PrintedNear(Ratio(top, bottom), fmt);
    var r := Ratio(top, bottom);
    assert r * bottom == top;
    CrossMultiplied(top, r, bottom, F(JNum(top, true, fmt)), F(JNum(r, true, fmt)), F(JNum(bottom, true, fmt)));
  }

  lemma PrintedPositive(v: real, fmt: real -> real)
    requires SixDigits(fmt)
    ensures F(JNum(v, true, fmt)) > 0.0 <==> v > 0.0
  {
    PrintedNear(v, fmt);
  }

  lemma HonestIsTight(r: Result, scope: Scope, scale: real, fmt: real -> real)
    requires SixDigits(fmt) && Derived(r, scale) && scale >= 0.0 && Complete(JsonResult(r, scope, fmt))
    ensures Tight(JsonResult(r, scope, fmt), scale)
  {
    var row := JsonResult(r, scope, fmt);
    assert F(Cell(row, IntLatC)) > 0.0 && F(Cell(row, IntThrC)) > 0.0 && F(Cell(row, IlpC)) > 0.0;
    assert F(Cell(row, FpLatC)) > 0.0 && F(Cell(row, FpThrC)) > 0.0 && F(Cell(row, FilpC)) > 0.0;
    assert F(Cell(row, MemLatC)) > 0.0 && F(Cell(row, MemLat8C)) > 0.0 && F(Cell(row, MlpC)) > 0.0;
    PrintedRatio(r.intThr, r.intLat, fmt);
    PrintedRatio(r.fpThr, r.fpLat, fmt);
    PrintedRatio(r.memLat, r.memLat8, fmt);
    DerivedIsNear(r, scope, scale, fmt, RATIO_ERROR);
  }

  lemma PrintedRatio(top: real, bottom: real, fmt: real -> real)
    requires SixDigits(fmt)
    requires F(JNum(top, true, fmt)) > 0.0 && F(JNum(bottom, true, fmt)) > 0.0 && F(JNum(Ratio(top, bottom), true, fmt)) > 0.0
    ensures TightRatio(F(JNum(Ratio(top, bottom), true, fmt)), F(JNum(top, true, fmt)), F(JNum(bottom, true, fmt)))
  {
    PrintedPositive(top, fmt);
    PrintedPositive(bottom, fmt);
    PrintedPositive(Ratio(top, bottom), fmt);
    RatioIsTight(top, bottom, fmt);
  }

  // ----- edits of a ratio or its parts -----

  lemma AgreesCross(r: real, t: real, b: real)
    requires r > 0.0 && t > 0.0 && b > 0.0 && Agrees(r, Ratio(t, b))
    ensures (1.0 - CONSISTENCY_TOLERANCE) * t <= r * b <= (1.0 + CONSISTENCY_TOLERANCE) * t
  {
    var w := Ratio(t, b);
    assert w > 0.0 && w * b == t;
    ScaleMono(b, (1.0 - CONSISTENCY_TOLERANCE) * w, r);
    ScaleMono(b, r, (1.0 + CONSISTENCY_TOLERANCE) * w);
    Associate(1.0 - CONSISTENCY_TOLERANCE, w, b);
    Associate(1.0 + CONSISTENCY_TOLERANCE, w, b);
  }

  lemma ProductDiffers(x: real, y: real, k: real)
    requires Differs(x, y) && k > 0.0
    ensures Differs(x * k, y * k)
  {
    if y > 1.01 * x {
      assert (y - 1.01 * x) * k > 0.0;
    } else {
      assert (0.99 * x - y) * k > 0.0;
    }
  }

  /** Two products more than a percent apart are not both as close to t as tolerated. */
  lemma TooFar(t: real, p: real, q: real)
    requires t > 0.0 && Differs(p, q)
    requires (1.0 - RATIO_ERROR) * t <= p <= (1.0 + RATIO_ERROR) * t
    ensures !((1.0 - CONSISTENCY_TOLERANCE) * t <= q <= (1.0 + CONSISTENCY_TOLERANCE) * t)
  {
  }

  /** Nor is one product as close as that to two numbers more than a percent apart. */
  lemma Across(t: real, y: real, p: real)
    requires t > 0.0 && y > 0.0 && Differs(t, y)
    requires (1.0 - RATIO_ERROR) * t <= p <= (1.0 + RATIO_ERROR) * t
    ensures !((1.0 - CONSISTENCY_TOLERANCE) * y <= p <= (1.0 + CONSISTENCY_TOLERANCE) * y)
  {
  }

  lemma RatioItselfEdited(r: real, t: real, b: real, y: real)
    requires r > 0.0 && t > 0.0 && b > 0.0 && y > 0.0 && TightRatio(r, t, b) && Differs(r, y)
    ensures !Agrees(y, Ratio(t, b))
  {
    if Agrees(y, Ratio(t, b)) {
      ProductDiffers(r, y, b);
      AgreesCross(y, t, b);
      hide Agrees, Ratio;
      TooFar(t, r * b, y * b);
    }
  }

  lemma TopEdited(r: real, t: real, b: real, y: real)
    requires r > 0.0 && t > 0.0 && b > 0.0 && y > 0.0 && TightRatio(r, t, b) && Differs(t, y)
    ensures !Agrees(r, Ratio(y, b))
  {
    if Agrees(r, Ratio(y, b)) {
      AgreesCross(r, y, b);
      hide Agrees, Ratio;
      Across(t, y, r * b);
    }
  }

  lemma BottomEdited(r: real, t: real, b: real, y: real)
    requires r > 0.0 && t > 0.0 && b > 0.0 && y > 0.0 && TightRatio(r, t, b) && Differs(b, y)
    ensures !Agrees(r, Ratio(t, y))
  {
    if Agrees(r, Ratio(t, y)) {
      ProductDiffers(b, y, r);
      AgreesCross(r, t, y);
      hide Agrees, Ratio;
      TooFar(t, b * r, y * r);
    }
  }

  // ----- edits of the score or its terms -----

  /** One percent of one term of six is a sixth root of it in the score, and still more
      than the tolerance and the printing together. */
  lemma SixthRootShows()
    ensures Pow(1.0 + RATIO_ERROR, 6) < 1.01 * Pow(1.0 - CONSISTENCY_TOLERANCE, 6)
    ensures 0.99 * Pow(1.0 + CONSISTENCY_TOLERANCE, 6) < Pow(1.0 - RATIO_ERROR, 6)
  {
    SixthPower(1.0 + RATIO_ERROR);
    SixthPower(1.0 - RATIO_ERROR);
    SixthPower(1.0 + CONSISTENCY_TOLERANCE);
    SixthPower(1.0 - CONSISTENCY_TOLERANCE);
  }

  /** p' is p with a factor y in the place of x. */
  predicate Exchanged(p: real, p': real, x: real, y: real) {
    p' * x == p * y
  }

  /** g is within t of the sixth power of the mean of six numbers with product p. */
  predicate SixNear(g: real, p: real, t: real) {
    Pow(1.0 - t, 6) * p <= g <= Pow(1.0 + t, 6) * p
  }

  lemma TermEdited(got: real, terms: seq<real>, terms': seq<real>, x: real, y: real)
    requires PosCount(terms) == PosCount(terms') == 6 && x > 0.0 && y > 0.0 && Differs(x, y)
    requires Exchanged(PosProduct(terms), PosProduct(terms'), x, y)
    requires NearMean(got, terms, RATIO_ERROR)
    ensures !AgreesWithMean(got, terms')
  {
    hide *;
    if AgreesWithMean(got, terms') {
      NearSix(got, terms, RATIO_ERROR);
      SixAgrees(got, terms');
      ProductMoves(PosProduct(terms), PosProduct(terms'), x, y);
      MeanMoved(Pow(got, 6), PosProduct(terms), PosProduct(terms'));
    }
  }

  lemma NearSix(got: real, terms: seq<real>, t: real)
    requires PosCount(terms) == 6 && NearMean(got, terms, t)
    ensures SixNear(Pow(got, 6), PosProduct(terms), t) && PosProduct(terms) > 0.0
  {
    hide Pow, PosProduct;
  }

  lemma SixAgrees(got: real, terms: seq<real>)
    requires PosCount(terms) == 6 && AgreesWithMean(got, terms)
    ensures SixNear(Pow(got, 6), PosProduct(terms), CONSISTENCY_TOLERANCE)
  {
    hide Pow, PosProduct, PosCount;
    NearSix(got, terms, CONSISTENCY_TOLERANCE);
  }

  lemma MeanMoved(g: real, p: real, p': real)
    requires p > 0.0 && Differs(p, p')
    requires SixNear(g, p, RATIO_ERROR)
    ensures !SixNear(g, p', CONSISTENCY_TOLERANCE)
  {
    hide Pow;
    SixthRootShows();
    PowPositive(1.0 - CONSISTENCY_TOLERANCE, 6);
    PowPositive(1.0 + CONSISTENCY_TOLERANCE, 6);
    OutOfReach(g, p, p', Pow(1.0 - CONSISTENCY_TOLERANCE, 6), Pow(1.0 + CONSISTENCY_TOLERANCE, 6),
               Pow(1.0 - RATIO_ERROR, 6), Pow(1.0 + RATIO_ERROR, 6));
  }

  lemma ProductMoves(p: real, p': real, x: real, y: real)
    requires p > 0.0 && x > 0.0 && Exchanged(p, p', x, y) && Differs(x, y)
    ensures Differs(p, p')
  {
    if y > 1.01 * x {
      ScaleMono(p, 1.01 * x, y);
      if p' <= 1.01 * p {
        ScaleMono(x, p', 1.01 * p);
        assert p * (y - 1.01 * x) > 0.0;
      }
    } else {
      if p' >= 0.99 * p {
        ScaleMono(x, 0.99 * p, p');
        assert p * (0.99 * x - y) > 0.0;
      }
    }
  }

  lemma OutOfReach(g: real, p: real, p': real, lo: real, hi: real, tlo: real, thi: real)
    requires p > 0.0 && Differs(p, p') && tlo * p <= g <= thi * p && lo > 0.0 && hi > 0.0
    requires thi < 1.01 * lo && 0.99 * hi < tlo
    ensures !(lo * p' <= g <= hi * p')
  {
    if p' > 1.01 * p {
      ScaleMono(lo, 1.01 * p, p');
      assert (1.01 * lo - thi) * p > 0.0;
    } else {
      ScaleMono(hi, p', 0.99 * p);
      assert (tlo - 0.99 * hi) * p > 0.0;
    }
  }

  lemma {:induction false} ReplaceTerm(v: seq<real>, i: nat, z: real)
    requires i < |v| && v[i] > 0.0 && z > 0.0
    ensures PosCount(v[i := z]) == PosCount(v)
    ensures Exchanged(PosProduct(v), PosProduct(v[i := z]), v[i], z)
  {
    hide *;
    var n, w := |v| - 1, v[i := z];
    LastFactor(v);
    LastFactor(w);
    if i == n {
      assert w[..n] == v[..n];
      LastExchanged(PosProduct(v[..n]), v[i], z);
    } else {
      ReplaceTerm(v[..n], i, z);
      assert w[..n] == v[..n][i := z];
      OneMoreExchanged(PosProduct(v[..n]), PosProduct(w[..n]), v[i], z, v[n]);
    }
  }

  lemma LastExchanged(p: real, x: real, z: real)
    requires x > 0.0 && z > 0.0
    ensures Exchanged(With(p, x), With(p, z), x, z)
  {
    Exchange(p, x, z);
  }

  lemma OneMoreExchanged(p: real, p': real, x: real, z: real, last: real)
    requires Exchanged(p, p', x, z)
    ensures Exchanged(With(p, last), With(p', last), x, z)
  {
    Exchange(p, last, z);
    Exchange(p', last, x);
  }

  lemma Exchange(a: real, b: real, c: real)
    ensures (a * b) * c == (a * c) * b
  {
  }

  lemma ScoreEdited(got: real, y: real, terms: seq<real>)
    requires PosCount(terms) == 6 && y > 0.0 && Differs(got, y) && NearMean(got, terms, RATIO_ERROR)
    ensures !AgreesWithMean(y, terms)
  {
    SixthPower(1.01);
    SixthPower(0.99);
    SixthPower(1.0 + RATIO_ERROR);
    SixthPower(1.0 - RATIO_ERROR);
    SixthPower(1.0 + CONSISTENCY_TOLERANCE);
    SixthPower(1.0 - CONSISTENCY_TOLERANCE);
    var p, g := PosProduct(terms), Pow(got, 6);
    if y > 1.01 * got {
      var z := 1.01 * got;
      PowProduct(1.01, got, z, 6);
      PowMono(z, y, 6);
      Apart(p, g, Pow(1.0 - RATIO_ERROR, 6), Pow(1.01, 6), Pow(1.0 + CONSISTENCY_TOLERANCE, 6));
    } else {
      var z := 0.99 * got;
      PowProduct(0.99, got, z, 6);
      PowMono(y, z, 6);
      Apart(p, g, Pow(1.0 + RATIO_ERROR, 6), Pow(0.99, 6), Pow(1.0 - CONSISTENCY_TOLERANCE, 6));
    }
  }

  lemma Apart(p: real, g: real, t: real, k: real, c: real)
    requires p > 0.0 && t > 0.0 && k > 0.0
    ensures t * p <= g && c < k * t ==> c * p < k * g
    ensures g <= t * p && k * t < c ==> k * g < c * p
  {
    Associate(k, t, p);
    if t * p <= g && c < k * t {
      ScaleMono(k, t * p, g);
      assert (k * t - c) * p > 0.0;
    }
    if g <= t * p && k * t < c {
      ScaleMono(k, g, t * p);
      assert (c - k * t) * p > 0.0;
    }
  }

  // ----- any one edit -----

  lemma CompleteTerms(row: Row, scale: real)
    requires Complete(row) && scale > 0.0
    ensures PosCount(ScoreTerms(row, scale)) == 6
    ensures forall i :: 0 <= i < 6 ==> ScoreTerms(row, scale)[i] > 0.0
  {
    var t := ScoreTerms(row, scale);
    assert F(Cell(row, IntThrC)) > 0.0 && F(Cell(row, FpThrC)) > 0.0 && F(Cell(row, MulThrC)) > 0.0;
    assert F(Cell(row, DispThrC)) > 0.0 && F(Cell(row, DispSpanC)) > 0.0 && F(Cell(row, MemLat8C)) > 0.0;
    assert 1000.0 / F(row.memLat8) > 0.0;
    assert t[5] > 0.0;
    SixTerms(t[0], t[1], t[2], t[3], t[4], t[5]);
    ThreeTerms(t[0], t[1], t[2]);
    ThreeTerms(t[3], t[4], t[5]);
    assert t == [t[0], t[1], t[2], t[3], t[4], t[5]];
  }

  /** Columns only the score depends on. */
  lemma ScoreTermEdited(row: Row, scale: real, c: Column, y: real, i: nat, z: real)
    requires Complete(row) && scale > 0.0 && Tight(row, scale) && i < 6 && z > 0.0 && c != ScoreC
    requires ScoreTerms(Edit(row, c, y), scale) == ScoreTerms(row, scale)[i := z]
    requires Differs(ScoreTerms(row, scale)[i], z)
    ensures !AgreesWithMean(F(Edit(row, c, y).score), ScoreTerms(Edit(row, c, y), scale))
  {
    assert Edit(row, c, y).score == row.score && NearMean(F(row.score), ScoreTerms(row, scale), RATIO_ERROR);
    hide *;
    CompleteTerms(row, scale);
    var t := ScoreTerms(row, scale);
    ReplaceTerm(t, i, z);
    TermEdited(F(row.score), t, t[i := z], t[i], z);
  }

  predicate InRatio(c: Column) {
    c != MulThrC && c != DispThrC && c != DispSpanC && c != ScoreC
  }

  lemma RatioEditIsRefused(row: Row, scale: real, c: Column, y: real)
    requires Complete(row) && Tight(row, scale)
    requires InRatio(c) && y > 0.0 && Differs(F(Cell(row, c)), y)
    ensures !RatiosAgree(Edit(row, c, y))
  {
    assert F(Cell(row, IntLatC)) > 0.0 && F(Cell(row, IntThrC)) > 0.0 && F(Cell(row, IlpC)) > 0.0;
    assert F(Cell(row, FpLatC)) > 0.0 && F(Cell(row, FpThrC)) > 0.0 && F(Cell(row, FilpC)) > 0.0;
    assert F(Cell(row, MemLatC)) > 0.0 && F(Cell(row, MemLat8C)) > 0.0 && F(Cell(row, MlpC)) > 0.0;
    match c
    case IlpC => RatioItselfEdited(F(row.ilp), F(row.intThr), F(row.intLat), y);
    case IntThrC => TopEdited(F(row.ilp), F(row.intThr), F(row.intLat), y);
    case IntLatC => BottomEdited(F(row.ilp), F(row.intThr), F(row.intLat), y);
    case FilpC => RatioItselfEdited(F(row.filp), F(row.fpThr), F(row.fpLat), y);
    case FpThrC => TopEdited(F(row.filp), F(row.fpThr), F(row.fpLat), y);
    case FpLatC => BottomEdited(F(row.filp), F(row.fpThr), F(row.fpLat), y);
    case MlpC => RatioItselfEdited(F(row.mlp), F(row.memLat), F(row.memLat8), y);
    case MemLatC => TopEdited(F(row.mlp), F(row.memLat), F(row.memLat8), y);
    case MemLat8C => BottomEdited(F(row.mlp), F(row.memLat), F(row.memLat8), y);
  }

  lemma ScoreEditIsRefused(row: Row, scale: real, c: Column, y: real)
    requires Complete(row) && scale > 0.0 && Tight(row, scale) && y > 0.0 && !InRatio(c)
    requires Differs(Weight(c, F(Cell(row, c))), Weight(c, y))
    ensures !AgreesWithMean(F(Edit(row, c, y).score), ScoreTerms(Edit(row, c, y), scale))
  {
    match c
    case MulThrC =>
      ProductDiffers(F(row.mulThr), y, 4.0);
      ScoreTermEdited(row, scale, c, y, 2, y * 4.0);
    case DispThrC =>
      ProductDiffers(F(row.dispThr), y, 20.0);
      ScoreTermEdited(row, scale, c, y, 3, y * 20.0);
    case DispSpanC =>
      ProductDiffers(F(row.dispSpan) + 1.0, y + 1.0, 2000.0);
      ScoreTermEdited(row, scale, c, y, 4, (y + 1.0) * 2000.0);
    case ScoreC =>
      CompleteTerms(row, scale);
      ScoreEdited(F(row.score), y, ScoreTerms(row, scale));
  }

  lemma TightEditIsRefused(row: Row, threads: Option<nat>, c: Column, y: real)
    requires Complete(row) && ScoreChecked(row, threads) && Tight(row, Scale(row, threads)) && y > 0.0
    requires Differs(Weight(c, F(Cell(row, c))), Weight(c, y))
    ensures !Consistent(Edit(row, c, y), threads)
  {
    if InRatio(c) {
      RatioEditIsRefused(row, Scale(row, threads), c, y);
    } else {
      ScoreEditIsRefused(row, Scale(row, threads), c, y);
    }
  }

  lemma UncheckedEdit(row: Row, threads: Option<nat>, scale: real, c: Column, y: real)
    requires Complete(row) && RatiosAgree(row) && !ScoreChecked(row, threads) && Tight(row, scale)
    requires y > 0.0 && Differs(Weight(c, F(Cell(row, c))), Weight(c, y))
    ensures Consistent(row, threads)
    ensures !Consistent(Edit(row, c, y), threads) <==> InRatio(c)
  {
    if InRatio(c) {
      RatioEditIsRefused(row, scale, c, y);
    } else {
      RatiosUntouched(row, threads, c, y);
    }
  }

  lemma RatiosUntouched(row: Row, threads: Option<nat>, c: Column, y: real)
    requires RatiosAgree(row) && !ScoreChecked(row, threads) && !InRatio(c)
    ensures Consistent(Edit(row, c, y), threads)
  {
  }

  lemma HonestRatios(r: Result, scope: Scope, scale: real, fmt: real -> real)
    requires SixDigits(fmt) && Derived(r, scale)
    ensures RatiosAgree(JsonResult(r, scope, fmt))
  {
    RatioAgrees(r.intThr, r.intLat, fmt);
    RatioAgrees(r.fpThr, r.fpLat, fmt);
    RatioAgrees(r.memLat, r.memLat8, fmt);
  }

  /** In a record the benchmark wrote, with every value there, changing any one covered
      column by more than one percent (the span by more than one percent of span + 1) is
      refused, even where it moves the score only by a sixth root. In a total row that comes
      without the number of threads, whose score the hub does not recompute, that holds of
      the nine columns of the ratios, and of them alone. */
  lemma SingleEditIsRefused(r: Result, scope: Scope, threads: Option<nat>, scale: real, fmt: real -> real, c: Column, y: real)
    requires SixDigits(fmt) && Derived(r, scale) && scale >= 0.0
    requires ScoreChecked(JsonResult(r, scope, fmt), threads) ==> scale == Scale(JsonResult(r, scope, fmt), threads)
    requires Complete(JsonResult(r, scope, fmt))
    requires y > 0.0 && Differs(Weight(c, F(Cell(JsonResult(r, scope, fmt), c))), Weight(c, y))
    ensures Consistent(JsonResult(r, scope, fmt), threads)
    ensures !Consistent(Edit(JsonResult(r, scope, fmt), c, y), threads)
            <==> InRatio(c) || ScoreChecked(JsonResult(r, scope, fmt), threads)
  {
    hide *;
    var row := JsonResult(r, scope, fmt);
    HonestIsTight(r, scope, scale, fmt);
    HonestRatios(r, scope, scale, fmt);
    if ScoreChecked(row, threads) {
      DerivedIsAccepted(r, scope, fmt, threads);
      TightEditIsRefused(row, threads, c, y);
    } else {
      UncheckedEdit(row, threads, scale, c, y);
    }
  }
}
