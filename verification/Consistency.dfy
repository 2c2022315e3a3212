/**
 The hub's side of the contract: web/server.py recomputes four numbers of every record
 from the others and refuses a document that disagrees with itself.
 */
module Consistency {
  import opened Geomean
  import opened Dispatch
  import opened Results
  import opened Wrappers

  const CONSISTENCY_TOLERANCE: real := 0.001

  /** _f(): missing and zero are one state. */
  function F(v: Option<real>): real {
    match v case Some(x) => x case None => 0.0
  }

  function ScoreTerms(row: Row, mlpScale: real): seq<real> {
    var span := if row.prediction == Unknown then 0.0 else (F(row.dispSpan) + 1.0) * 2000.0;
    [F(row.intThr), F(row.fpThr), F(row.mulThr) * 4.0, F(row.dispThr) * 20.0, span, MissRate(mlpScale, F(row.memLat8))]
  }

  /** _agrees(), as a question. */
  predicate Agrees(got: real, want: real) {
    || (got <= 0.0 && want <= 0.0)
    || (got > 0.0 && want > 0.0 && -CONSISTENCY_TOLERANCE * want <= got - want <= CONSISTENCY_TOLERANCE * want)
  }

  /** Closeness to a geometric mean, without the root: `got` is compared with the product
      of the positive terms by m-th powers. */
  predicate NearMean(got: real, terms: seq<real>, t: real) {
    var m, p := PosCount(terms), PosProduct(terms);
    if m == 0 then got <= 0.0
    else got > 0.0 && Pow(1.0 - t, m) * p <= Pow(got, m) <= Pow(1.0 + t, m) * p
  }

  predicate AgreesWithMean(got: real, terms: seq<real>) {
    NearMean(got, terms, CONSISTENCY_TOLERANCE)
  }

  /** The two are the same test. */
  lemma AgreesIffPowersDo(got: real, want: real, terms: seq<real>)
    requires IsGeomean(want, terms)
    ensures Agrees(got, want) <==> AgreesWithMean(got, terms)
  {
    var m := PosCount(terms);
    hide Pow, PosCount, PosProduct;
    if m > 0 && got > 0.0 {
      var lo, hi := (1.0 - CONSISTENCY_TOLERANCE) * want, (1.0 + CONSISTENCY_TOLERANCE) * want;
      PowProduct(1.0 - CONSISTENCY_TOLERANCE, want, lo, m);
      PowProduct(1.0 + CONSISTENCY_TOLERANCE, want, hi, m);
      PowCompare(lo, got, m);
      PowCompare(got, hi, m);
    }
  }

  function Scale(row: Row, threads: Option<nat>): real {
    if row.scope == Whole && threads.Some? then threads.value as real else 1.0
  }

  /** Whether a row says how its score can be recomputed. */
  predicate ScoreChecked(row: Row, threads: Option<nat>) {
    row.scope == Whole ==> threads.Some? && threads.value != 0
  }

  predicate IlpAgrees(row: Row) { Agrees(F(row.ilp), Ratio(F(row.intThr), F(row.intLat))) }

  predicate FilpAgrees(row: Row) { Agrees(F(row.filp), Ratio(F(row.fpThr), F(row.fpLat))) }

  predicate MlpAgrees(row: Row) { Agrees(F(row.mlp), Ratio(F(row.memLat), F(row.memLat8))) }

  predicate RatiosAgree(row: Row) {
    IlpAgrees(row) && FilpAgrees(row) && MlpAgrees(row)
  }

  predicate Consistent(row: Row, threads: Option<nat>) {
    && RatiosAgree(row)
    && (ScoreChecked(row, threads) ==> AgreesWithMean(F(row.score), ScoreTerms(row, Scale(row, threads))))
  }

  // ----- the same judgement, spelled out -----

  /** Within a thousandth, or both absent. */
  predicate WithinThousandth(got: real, want: real) {
    if want > 0.0 then 999.0 * want <= 1000.0 * got <= 1001.0 * want else got <= 0.0
  }

  lemma AgreesWithinThousandth(got: real, want: real)
    ensures Agrees(got, want) <==> if want > 0.0 then 999.0 * want <= 1000.0 * got <= 1001.0 * want else got <= 0.0
  {
  }

  /** What the record should say of a / b. */
  function Over(a: Option<real>, b: Option<real>): real {
    match b
    case Some(y) => if y > 0.0 then (match a case Some(x) => x / y case None => 0.0) else 0.0
    case None => 0.0
  }

  function Number(v: Option<real>): real {
    if v.Some? then v.value else 0.0
  }

  /** The six numbers a score is the mean of, on `n` threads. */
  function SixNumbers(row: Row, n: real): seq<real> {
    [Number(row.intThr), Number(row.fpThr), 4.0 * Number(row.mulThr), 20.0 * Number(row.dispThr),
     if row.prediction.Unknown? then 0.0 else 2000.0 * Number(row.dispSpan) + 2000.0,
     if Number(row.memLat8) > 0.0 then n * (1000.0 / Number(row.memLat8)) * 100.0 else 0.0]
  }

  ghost predicate ScoreHolds(row: Row, n: real) {
    forall g :: IsGeomean(g, SixNumbers(row, n)) ==> WithinThousandth(Number(row.score), g)
  }

  /** Three ratios and, where the number of threads is known, a geometric mean: each within
      a thousandth of what the row's own numbers make it. */
  ghost predicate RowHolds(row: Row, threads: Option<nat>) {
    && WithinThousandth(Number(row.ilp), Over(row.intThr, row.intLat))
    && WithinThousandth(Number(row.filp), Over(row.fpThr, row.fpLat))
    && WithinThousandth(Number(row.mlp), Over(row.memLat, row.memLat8))
    && (row.scope != Whole ==> ScoreHolds(row, 1.0))
    && (row.scope == Whole && threads.Some? && threads.value > 0 ==> ScoreHolds(row, threads.value as real))
  }

  lemma NumbersAre(row: Row, n: real)
    ensures SixNumbers(row, n) == ScoreTerms(row, n)
  {
    var x, y := SixNumbers(row, n), ScoreTerms(row, n);
    assert x[0] == y[0] && x[1] == y[1] && x[2] == y[2] && x[3] == y[3] && x[4] == y[4] && x[5] == y[5];
  }

  lemma OverIs(a: Option<real>, b: Option<real>)
    ensures Over(a, b) == Ratio(F(a), F(b))
  {
    if F(b) > 0.0 { ZeroQuotient(F(b)); }
  }

  /** The score is right exactly if it lies within a thousandth of the mean. */
  lemma ScoreWithin(score: real, terms: seq<real>, ln: real -> real, exp: real -> real)
    requires Lawful(ln, exp)
    ensures AgreesWithMean(score, terms) <==> forall g :: IsGeomean(g, terms) ==> WithinThousandth(score, g)
  {
    hide AgreesWithMean, Agrees, IsGeomean, HubGeomean, WithinThousandth, Lawful;
    var want := HubGeomean(terms, ln, exp);
    HubGeomeanIsGeomean(terms, ln, exp);
    forall g | IsGeomean(g, terms) ensures AgreesWithMean(score, terms) <==> WithinThousandth(score, g) {
      AgreesIffPowersDo(score, g, terms);
      Thousandth(score, g);
    }
  }

  lemma Thousandth(got: real, want: real)
    ensures Agrees(got, want) <==> WithinThousandth(got, want)
  {
    AgreesWithinThousandth(got, want);
  }

  lemma ScoreHoldsIfNear(row: Row, n: real, ln: real -> real, exp: real -> real)
    requires Lawful(ln, exp)
    ensures AgreesWithMean(F(row.score), ScoreTerms(row, n)) <==> ScoreHolds(row, n)
  {
    hide AgreesWithMean, IsGeomean, ScoreTerms, SixNumbers, WithinThousandth;
    NumbersAre(row, n);
    ScoreWithin(F(row.score), ScoreTerms(row, n), ln, exp);
  }

  lemma ConsistentIffHolds(row: Row, threads: Option<nat>, ln: real -> real, exp: real -> real)
    requires Lawful(ln, exp)
    ensures Consistent(row, threads) <==> RowHolds(row, threads)
  {
    hide AgreesWithMean, Agrees, IsGeomean, ScoreTerms, ScoreHolds, WithinThousandth, Over, Ratio;
    OverIs(row.intThr, row.intLat);
    OverIs(row.fpThr, row.fpLat);
    OverIs(row.memLat, row.memLat8);
    Thousandth(F(row.ilp), Ratio(F(row.intThr), F(row.intLat)));
    Thousandth(F(row.filp), Ratio(F(row.fpThr), F(row.fpLat)));
    Thousandth(F(row.mlp), Ratio(F(row.memLat), F(row.memLat8)));
    ScoreHoldsIfNear(row, Scale(row, threads), ln, exp);
  }

  datatype Key = Ilp | Filp | Mlp | Score
  datatype Verdict = Accepted | Invalid(row: nat, key: Key)

  /** The key is the first of the four to disagree. */
  predicate FailsAt(row: Row, threads: Option<nat>, key: Key) {
    match key
    case Ilp => !IlpAgrees(row)
    case Filp => IlpAgrees(row) && !FilpAgrees(row)
    case Mlp => IlpAgrees(row) && FilpAgrees(row) && !MlpAgrees(row)
    case Score => RatiosAgree(row) && !Consistent(row, threads)
  }

  /** The error names what is wrong, and nothing before it is. */
  lemma FailureNames(row: Row, threads: Option<nat>, key: Key)
    requires FailsAt(row, threads, key)
    ensures WithinThousandth(Number(row.ilp), Over(row.intThr, row.intLat)) <==> key != Ilp
    ensures key == Mlp || key == Score ==> WithinThousandth(Number(row.filp), Over(row.fpThr, row.fpLat))
    ensures key == Filp ==> !WithinThousandth(Number(row.filp), Over(row.fpThr, row.fpLat))
    ensures key == Mlp ==> !WithinThousandth(Number(row.mlp), Over(row.memLat, row.memLat8))
    ensures key == Score ==> WithinThousandth(Number(row.mlp), Over(row.memLat, row.memLat8))
  {
    hide AgreesWithMean, Agrees, WithinThousandth, Over, Ratio;
    OverIs(row.intThr, row.intLat);
    OverIs(row.fpThr, row.fpLat);
    OverIs(row.memLat, row.memLat8);
    Thousandth(F(row.ilp), Ratio(F(row.intThr), F(row.intLat)));
    Thousandth(F(row.filp), Ratio(F(row.fpThr), F(row.fpLat)));
    Thousandth(F(row.mlp), Ratio(F(row.memLat), F(row.memLat8)));
  }

  /** Row i is the first to disagree, and key the first of it. */
  predicate FirstFailure(rows: seq<Row>, threads: Option<nat>, i: nat, key: Key)
    requires i < |rows|
  {
    FailsAt(rows[i], threads, key) && forall k :: 0 <= k < i ==> Consistent(rows[k], threads)
  }

  /** check_consistency(). The error names the first row that disagrees. */
  method CheckConsistency(rows: seq<Row>, threads: Option<nat>, ln: real -> real, exp: real -> real)
    returns (v: Verdict)
    requires Lawful(ln, exp)
    ensures v.Accepted? <==> forall i :: 0 <= i < |rows| ==> RowHolds(rows[i], threads)
    ensures v.Accepted? <==> forall i :: 0 <= i < |rows| ==> Consistent(rows[i], threads)
    ensures v.Invalid? ==> v.row < |rows| && FirstFailure(rows, threads, v.row, v.key)
  {
    forall i | 0 <= i < |rows| ensures Consistent(rows[i], threads) <==> RowHolds(rows[i], threads) {
      ConsistentIffHolds(rows[i], threads, ln, exp);
    }
    hide RowHolds;
    for i := 0 to |rows|
      invariant forall k :: 0 <= k < i ==> Consistent(rows[k], threads)
    {
      var row := rows[i];
      if !Agrees(F(row.ilp), Ratio(F(row.intThr), F(row.intLat))) { return Invalid(i, Ilp); }
      if !Agrees(F(row.filp), Ratio(F(row.fpThr), F(row.fpLat))) { return Invalid(i, Filp); }
      if !Agrees(F(row.mlp), Ratio(F(row.memLat), F(row.memLat8))) { return Invalid(i, Mlp); }
      var scale := 1.0;
      if row.scope == Whole {
        if threads.None? || threads.value == 0 { continue; }
        scale := threads.value as real;
      }
      var terms := ScoreTerms(row, scale);
      var want := HubGeomean(terms, ln, exp);
      HubGeomeanIsGeomean(terms, ln, exp);
      AgreesIffPowersDo(F(row.score), want, terms);
      if !Agrees(F(row.score), want) { return Invalid(i, Score); }
    }
    v := Accepted;
  }
}
