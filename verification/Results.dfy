/**
 The benchmark's side of the record: summarize(), aggregate(), core_score(),
 machine_score() and json_result() of bench/src/bench.c.
 */
module Results {
  import opened Geomean
  import opened Dispatch
  import opened Wrappers

  /** What a worker measured; zero (or less) where a phase did not run. */
  datatype Worker = Worker(intLat: real, intThr: real, mulThr: real, fpLat: real, fpThr: real,
                           memGbps: real, memLat: real, memMlp: real, ladder: Ladder)

  datatype Result = Result(intLat: real, intThr: real, mulThr: real, fpLat: real, fpThr: real,
                           memGbps: real, memLat: real, memLat8: real,
                           ilp: real, filp: real, mlp: real, disp: Summary, score: real)

  function Ratio(top: real, bottom: real): real {
    if bottom > 0.0 then top / bottom else 0.0
  }

  function SpanTerm(d: Summary): real {
    if d.status == DispNa then 0.0 else (d.span + 1.0) * 2000.0
  }

  function MissRate(scale: real, ns: real): real {
    if ns > 0.0 then scale * (1000.0 / ns) * 100.0 else 0.0
  }

  /** The array core_score() fills, in its order. */
  function CoreTerms(w: Worker, d: Summary): seq<real> {
    [w.intThr, w.fpThr, d.thr * 20.0, MissRate(1.0, w.memMlp), w.mulThr * 4.0, SpanTerm(d)]
  }

  /** The array machine_score() fills, in its order. */
  function MachineTerms(t: Result, n: nat): seq<real> {
    [t.intThr, t.fpThr, t.disp.thr * 20.0, MissRate(n as real, t.memLat8), t.mulThr * 4.0, SpanTerm(t.disp)]
  }

  /** A worker's row, the clock columns apart. */
  predicate IsSummary(r: Result, w: Worker, pow2: real -> real) {
    && r == Result(w.intLat, w.intThr, w.mulThr, w.fpLat, w.fpThr, w.memGbps, w.memLat, w.memMlp,
                   Ratio(w.intThr, w.intLat), Ratio(w.fpThr, w.fpLat), Ratio(w.memLat, w.memMlp),
                   SummaryOf(w.ladder, pow2), r.score)
    && IsGeomean(r.score, CoreTerms(w, r.disp))
  }

  method CoreScore(w: Worker, pow2: real -> real, ln: real -> real, exp: real -> real) returns (score: real)
    requires Lawful(ln, exp)
    ensures IsGeomean(score, CoreTerms(w, SummaryOf(w.ladder, pow2)))
  {
    var status, thr, cap, gain, span := DispSummary(w.ladder, pow2);
    var v := [w.intThr, w.fpThr, thr * 20.0,
              if w.memMlp > 0.0 then (1000.0 / w.memMlp) * 100.0 else 0.0,
              w.mulThr * 4.0,
              if status == DispNa then 0.0 else (span + 1.0) * 2000.0];
    assert v == CoreTerms(w, SummaryOf(w.ladder, pow2));
    score := Geomean.Geomean(v, ln, exp);
  }

  method Summarize(w: Worker, pow2: real -> real, ln: real -> real, exp: real -> real) returns (r: Result)
    requires Lawful(ln, exp)
    ensures IsSummary(r, w, pow2)
  {
    var status, thr, cap, gain, span := DispSummary(w.ladder, pow2);
    var score := CoreScore(w, pow2, ln, exp);
    r := Result(w.intLat, w.intThr, w.mulThr, w.fpLat, w.fpThr, w.memGbps, w.memLat, w.memMlp,
                if w.intLat > 0.0 then w.intThr / w.intLat else 0.0,
                if w.fpLat > 0.0 then w.fpThr / w.fpLat else 0.0,
                if w.memMlp > 0.0 then w.memLat / w.memMlp else 0.0,
                Summary(status, thr, cap, gain, span), score);
  }

  // ----- aggregate() -----

  datatype Field = IntLat | IntThr | MulThr | FpLat | FpThr | MemGbps | MemLat | MemLat8
                 | DispThr | DispCap | DispGain | DispSpan

  function Get(r: Result, f: Field): real {
    match f
    case IntLat => r.intLat
    case IntThr => r.intThr
    case MulThr => r.mulThr
    case FpLat => r.fpLat
    case FpThr => r.fpThr
    case MemGbps => r.memGbps
    case MemLat => r.memLat
    case MemLat8 => r.memLat8
    case DispThr => r.disp.thr
    case DispCap => if r.disp.status == DispOk then r.disp.cap else 0.0
    case DispGain => r.disp.gain
    case DispSpan => r.disp.span
  }

  function Total(rows: seq<Result>, f: Field): real {
    if rows == [] then 0.0 else Total(rows[..|rows| - 1], f) + Get(rows[|rows| - 1], f)
  }

  function Positive(rows: seq<Result>, f: Field): seq<Result> {
    if rows == [] then []
    else Positive(rows[..|rows| - 1], f) + (if Get(rows[|rows| - 1], f) > 0.0 then [rows[|rows| - 1]] else [])
  }

  /** The mean over the rows that have a value at all. */
  function Average(rows: seq<Result>, f: Field): real {
    var some := Positive(rows, f);
    if some == [] then 0.0 else Total(some, f) / |some| as real
  }

  function Spread(rows: seq<Result>): real {
    if rows == [] then 1.0 else |rows| as real
  }

  predicate AnyNone(rows: seq<Result>) {
    exists i :: 0 <= i < |rows| && rows[i].disp.status == DispNone
  }

  /** Rates sum, latencies and ratios average. */
  predicate Aggregates(t: Result, rows: seq<Result>) {
    && t.intLat == Total(rows, IntLat) && t.intThr == Total(rows, IntThr)
    && t.mulThr == Total(rows, MulThr) && t.memGbps == Total(rows, MemGbps)
    && t.fpLat == Total(rows, FpLat) && t.fpThr == Total(rows, FpThr)
    && t.memLat == Average(rows, MemLat) && t.memLat8 == Average(rows, MemLat8)
    && t.disp.thr == Total(rows, DispThr) && t.disp.cap == Average(rows, DispCap)
    && t.disp.gain == Total(rows, DispGain) / Spread(rows)
    && t.disp.span == Total(rows, DispSpan) / Spread(rows)
    && t.disp.status == (if Positive(rows, DispCap) != [] then DispOk else if AnyNone(rows) then DispNone else DispNa)
    && t.ilp == Ratio(t.intThr, t.intLat) && t.filp == Ratio(t.fpThr, t.fpLat) && t.mlp == Ratio(t.memLat, t.memLat8)
  }

  /** The row of the whole machine. */
  predicate IsAggregate(t: Result, rows: seq<Result>) {
    Aggregates(t, rows) && IsGeomean(t.score, MachineTerms(t, |rows|))
  }

  /** What aggregate() carries through its loop: the struct it fills and four counts. */
  datatype Sums = Sums(t: Result, latN: nat, mlpN: nat, capN: nat, capNone: nat)

  function Rates(t: Result, r: Result): Result {
    t.(intLat := t.intLat + r.intLat, intThr := t.intThr + r.intThr, mulThr := t.mulThr + r.mulThr,
       fpLat := t.fpLat + r.fpLat, fpThr := t.fpThr + r.fpThr, memGbps := t.memGbps + r.memGbps,
       disp := t.disp.(thr := t.disp.thr + r.disp.thr, gain := t.disp.gain + r.disp.gain,
                       span := t.disp.span + r.disp.span))
  }

  predicate RatesSummed(t: Result, rows: seq<Result>) {
    && t.intLat == Total(rows, IntLat) && t.intThr == Total(rows, IntThr)
    && t.mulThr == Total(rows, MulThr) && t.memGbps == Total(rows, MemGbps)
    && t.fpLat == Total(rows, FpLat) && t.fpThr == Total(rows, FpThr)
    && t.disp.thr == Total(rows, DispThr)
    && t.disp.gain == Total(rows, DispGain) && t.disp.span == Total(rows, DispSpan)
  }

  /** An averaged column so far: a sum over the rows that have a value, and their number. */
  predicate Averaging(sum: real, n: nat, rows: seq<Result>, f: Field) {
    sum == Total(Positive(rows, f), f) && n == |Positive(rows, f)|
  }

  predicate Holds(s: Sums, rows: seq<Result>) {
    RatesSummed(s.t, rows) && ColumnsHold(s, rows)
  }

  lemma RatesNext(t: Result, rows: seq<Result>, r: Result)
    requires RatesSummed(t, rows)
    ensures RatesSummed(Rates(t, r), rows + [r])
  {
    assert (rows + [r])[..|rows|] == rows;
  }

  lemma AveragingNext(sum: real, n: nat, rows: seq<Result>, r: Result, f: Field)
    requires Averaging(sum, n, rows, f)
    ensures Get(r, f) > 0.0 ==> Averaging(sum + Get(r, f), n + 1, rows + [r], f)
    ensures Get(r, f) <= 0.0 ==> Averaging(sum, n, rows + [r], f)
  {
    assert (rows + [r])[..|rows|] == rows;
    var p := Positive(rows, f);
    assert (p + [r])[..|p|] == p && p + [] == p;
  }

  lemma AnyNoneNext(rows: seq<Result>, r: Result)
    ensures AnyNone(rows + [r]) <==> AnyNone(rows) || r.disp.status == DispNone
  {
    if AnyNone(rows) {
      var k :| 0 <= k < |rows| && rows[k].disp.status == DispNone;
      assert (rows + [r])[k].disp.status == DispNone;
    }
    if r.disp.status == DispNone {
      assert (rows + [r])[|rows|].disp.status == DispNone;
    }
  }

  /** The three averaged columns and the count of cores that predict nothing. */
  predicate ColumnsHold(s: Sums, rows: seq<Result>) {
    && Averaging(s.t.memLat, s.latN, rows, MemLat)
    && Averaging(s.t.memLat8, s.mlpN, rows, MemLat8)
    && Averaging(s.t.disp.cap, s.capN, rows, DispCap)
    && (s.capNone > 0 <==> AnyNone(rows))
  }

  method AddColumns(s: Sums, r: Result, ghost rows: seq<Result>) returns (s': Sums)
    requires ColumnsHold(s, rows)
    ensures ColumnsHold(s', rows + [r])
    ensures SameRates(s.t, s'.t)
  {
    AveragingNext(s.t.memLat, s.latN, rows, r, MemLat);
    AveragingNext(s.t.memLat8, s.mlpN, rows, r, MemLat8);
    AveragingNext(s.t.disp.cap, s.capN, rows, r, DispCap);
    AnyNoneNext(rows, r);
    var t, latN, mlpN, capN, capNone := s.t, s.latN, s.mlpN, s.capN, s.capNone;
    var memLat, memLat8, cap := t.memLat, t.memLat8, t.disp.cap;
    if r.memLat > 0.0 { memLat, latN := memLat + r.memLat, latN + 1; }
    if r.memLat8 > 0.0 { memLat8, mlpN := memLat8 + r.memLat8, mlpN + 1; }
    if r.disp.status == DispOk && r.disp.cap > 0.0 {
      cap, capN := cap + r.disp.cap, capN + 1;
    } else if r.disp.status == DispNone {
      capNone := capNone + 1;
    }
    assert Averaging(memLat, latN, rows + [r], MemLat);
    assert Averaging(memLat8, mlpN, rows + [r], MemLat8);
    assert Averaging(cap, capN, rows + [r], DispCap);
    s' := Sums(t.(memLat := memLat, memLat8 := memLat8, disp := t.disp.(cap := cap)), latN, mlpN, capN, capNone);
  }

  predicate SameRates(t: Result, t': Result) {
    && t'.intLat == t.intLat && t'.intThr == t.intThr && t'.mulThr == t.mulThr && t'.memGbps == t.memGbps
    && t'.fpLat == t.fpLat && t'.fpThr == t.fpThr && t'.disp.thr == t.disp.thr
    && t'.disp.gain == t.disp.gain && t'.disp.span == t.disp.span
  }

  method AddRow(s: Sums, r: Result, ghost rows: seq<Result>) returns (s': Sums)
    requires Holds(s, rows)
    ensures Holds(s', rows + [r])
  {
    RatesNext(s.t, rows, r);
    s' := AddColumns(s.(t := Rates(s.t, r)), r, rows);
  }

  method MachineScore(t: Result, n: nat, ln: real -> real, exp: real -> real) returns (score: real)
    requires Lawful(ln, exp)
    ensures IsGeomean(score, MachineTerms(t, n))
  {
    var mem := if t.memLat8 > 0.0 then n as real * (1000.0 / t.memLat8) * 100.0 else 0.0;
    assert mem == MissRate(n as real, t.memLat8);
    var v := [t.intThr, t.fpThr, t.disp.thr * 20.0, mem, t.mulThr * 4.0,
              if t.disp.status == DispNa then 0.0 else (t.disp.span + 1.0) * 2000.0];
    assert v == MachineTerms(t, n);
    score := Geomean.Geomean(v, ln, exp);
  }

  method Divide(s: Sums, n: nat, ghost rows: seq<Result>) returns (t: Result)
    requires Holds(s, rows) && n == |rows|
    ensures Aggregates(t, rows)
  {
    t := s.t;
    var d := if n > 0 then n as real else 1.0;
    if s.latN > 0 { t := t.(memLat := t.memLat / s.latN as real); }
    if s.mlpN > 0 { t := t.(memLat8 := t.memLat8 / s.mlpN as real); }
    var cap := if s.capN > 0 then t.disp.cap / s.capN as real else t.disp.cap;
    var status := if s.capN > 0 then DispOk else if s.capNone > 0 then DispNone else DispNa;
    t := t.(disp := Summary(status, t.disp.thr, cap, t.disp.gain / d, t.disp.span / d));
    t := t.(ilp := if t.intLat > 0.0 then t.intThr / t.intLat else 0.0,
            filp := if t.fpLat > 0.0 then t.fpThr / t.fpLat else 0.0,
            mlp := if t.memLat8 > 0.0 then t.memLat / t.memLat8 else 0.0);
  }

  method Aggregate(rows: seq<Result>, ln: real -> real, exp: real -> real) returns (tot: Result)
    requires Lawful(ln, exp)
    ensures IsAggregate(tot, rows)
  {
    hide Holds, Aggregates, IsAggregate, IsGeomean, MachineTerms, Nothing;
    HoldNone();
    var s := Nothing();
    assert rows[..0] == [];
    for i := 0 to |rows|
      invariant Holds(s, rows[..i])
    {
      s := AddRow(s, rows[i], rows[..i]);
      assert rows[..i + 1] == rows[..i] + [rows[i]];
    }
    assert rows[..|rows|] == rows;
    var t := Divide(s, |rows|, rows);
    var score := MachineScore(t, |rows|, ln, exp);
    tot := t.(score := score);
    ScoreSet(t, rows, score);
  }

  /** Before the first row. */
  function Nothing(): Sums {
    Sums(Result(0.0, 0.0, 0.0, 0.0, 0.0, 0.0, 0.0, 0.0, 0.0, 0.0, 0.0, Summary(DispNa, 0.0, 0.0, 0.0, 0.0), 0.0), 0, 0, 0, 0)
  }

  lemma NoTotal(f: Field)
    ensures Total([], f) == 0.0 && Averaging(0.0, 0, [], f)
  {
  }

  lemma HoldNone()
    ensures Holds(Nothing(), [])
  {
    hide Total, Averaging, Positive;
    NoTotal(IntLat);
    NoTotal(IntThr);
    NoTotal(MulThr);
    NoTotal(MemGbps);
    NoTotal(FpLat);
    NoTotal(FpThr);
    NoTotal(DispThr);
    NoTotal(DispGain);
    NoTotal(DispSpan);
    NoTotal(MemLat);
    NoTotal(MemLat8);
    NoTotal(DispCap);
  }

  lemma ScoreSet(t: Result, rows: seq<Result>, score: real)
    requires Aggregates(t, rows) && IsGeomean(score, MachineTerms(t, |rows|))
    ensures IsAggregate(t.(score := score), rows)
  {
    hide Total, Average, IsGeomean;
    assert MachineTerms(t.(score := score), |rows|) == MachineTerms(t, |rows|);
  }

  // ----- json_result() -----

  datatype Scope = Cpu | Thread | Whole
  datatype Prediction = Learned | Unlearned | Unknown

  /** A record as the document carries it: null for whatever was not positive. */
  datatype Row = Row(scope: Scope, intLat: Option<real>, intThr: Option<real>, ilp: Option<real>,
                     mulThr: Option<real>, fpLat: Option<real>, fpThr: Option<real>, filp: Option<real>,
                     memLat: Option<real>, memLat8: Option<real>, mlp: Option<real>,
                     dispThr: Option<real>, prediction: Prediction, dispSpan: Option<real>, score: Option<real>)

  const PRINT_ERROR: real := 0.000005

  /** Any way of printing that keeps six significant digits. */
  ghost predicate SixDigits(fmt: real -> real) {
    forall x: real :: x > 0.0 ==> Close(fmt(x), x, PRINT_ERROR)
  }

  /** y is x to within a relative error e. */
  predicate Close(y: real, x: real, e: real) {
    (1.0 - e) * x <= y <= (1.0 + e) * x
  }

  function JNum(v: real, ok: bool, fmt: real -> real): Option<real> {
    if ok && v > 0.0 then Some(fmt(v)) else None
  }

  /** %.6g: off by at most five in the seventh digit. */
  lemma SixDigitsIs(fmt: real -> real)
    ensures SixDigits(fmt) <==>
            forall x: real :: x > 0.0 ==> 999995.0 * x <= 1000000.0 * fmt(x) <= 1000005.0 * x
  {
    if SixDigits(fmt) {
      forall x: real | x > 0.0 ensures 999995.0 * x <= 1000000.0 * fmt(x) <= 1000005.0 * x {
        assert Close(fmt(x), x, PRINT_ERROR);
      }
    }
  }

  function JsonResult(r: Result, scope: Scope, fmt: real -> real): Row {
    Row(scope, JNum(r.intLat, true, fmt), JNum(r.intThr, true, fmt), JNum(r.ilp, true, fmt),
        JNum(r.mulThr, true, fmt), JNum(r.fpLat, true, fmt), JNum(r.fpThr, true, fmt), JNum(r.filp, true, fmt),
        JNum(r.memLat, true, fmt), JNum(r.memLat8, true, fmt), JNum(r.mlp, true, fmt),
        JNum(r.disp.thr, true, fmt),
        match r.disp.status case DispOk => Learned case DispNone => Unlearned case DispNa => Unknown,
        JNum(r.disp.span, r.disp.status != DispNa, fmt), JNum(r.score, true, fmt))
  }

  /** A number stands in the record as printed, and as null unless it is positive; a core without
      a ladder has no span, and its prediction is unknown. */
  lemma JsonIs(r: Result, scope: Scope, fmt: real -> real)
    ensures var j := JsonResult(r, scope, fmt);
            && j.scope == scope
            && j.intLat == (if r.intLat > 0.0 then Some(fmt(r.intLat)) else None)
            && j.intThr == (if r.intThr > 0.0 then Some(fmt(r.intThr)) else None)
            && j.ilp == (if r.ilp > 0.0 then Some(fmt(r.ilp)) else None)
            && j.mulThr == (if r.mulThr > 0.0 then Some(fmt(r.mulThr)) else None)
            && j.fpLat == (if r.fpLat > 0.0 then Some(fmt(r.fpLat)) else None)
            && j.fpThr == (if r.fpThr > 0.0 then Some(fmt(r.fpThr)) else None)
            && j.filp == (if r.filp > 0.0 then Some(fmt(r.filp)) else None)
            && j.memLat == (if r.memLat > 0.0 then Some(fmt(r.memLat)) else None)
            && j.memLat8 == (if r.memLat8 > 0.0 then Some(fmt(r.memLat8)) else None)
            && j.mlp == (if r.mlp > 0.0 then Some(fmt(r.mlp)) else None)
            && j.dispThr == (if r.disp.thr > 0.0 then Some(fmt(r.disp.thr)) else None)
            && (j.prediction.Unknown? <==> r.disp.status.DispNa?)
            && (j.prediction.Unlearned? <==> r.disp.status.DispNone?)
            && j.dispSpan == (if r.disp.status.DispNa? || r.disp.span <= 0.0 then None else Some(fmt(r.disp.span)))
            && j.score == (if r.score > 0.0 then Some(fmt(r.score)) else None)
  {
  }

  lemma TotalOfOne(r: Result, f: Field)
    ensures Total([r], f) == Get(r, f)
    ensures Positive([r], f) == if Get(r, f) > 0.0 then [r] else []
  {
    assert [r][..0] == [] && Total([], f) == 0.0;
  }

  lemma TotalOfTwo(r: Result, s: Result, f: Field)
    ensures Total([r, s], f) == Get(r, f) + Get(s, f)
    ensures Positive([r, s], f) == Positive([r], f) + Positive([s], f)
  {
    assert [r, s][..1] == [r];
    hide Get;
    TotalOfOne(r, f);
    TotalOfOne(s, f);
  }

  function Mean2(x: real, y: real): real {
    if x > 0.0 && y > 0.0 then (x + y) / 2.0 else if x > 0.0 then x else if y > 0.0 then y else 0.0
  }

  lemma AverageIs(rows: seq<Result>, f: Field, total: real)
    requires total == Total(Positive(rows, f), f)
    ensures |Positive(rows, f)| == 0 ==> Average(rows, f) == 0.0
    ensures |Positive(rows, f)| == 1 ==> Average(rows, f) == total
    ensures |Positive(rows, f)| == 2 ==> Average(rows, f) == total / 2.0
  {
    hide Positive, Total;
  }

  lemma AverageOfTwo(r: Result, s: Result, f: Field)
    ensures Average([r, s], f) == Mean2(Get(r, f), Get(s, f))
    ensures Positive([r, s], f) != [] <==> Get(r, f) > 0.0 || Get(s, f) > 0.0
  {
    hide Get, Positive, Total, Average;
    TotalOfTwo(r, s, f);
    TotalOfOne(r, f);
    TotalOfOne(s, f);
    assert Positive([r, s], f) ==
      if Get(r, f) > 0.0 && Get(s, f) > 0.0 then [r, s] else if Get(r, f) > 0.0 then [r] else if Get(s, f) > 0.0 then [s] else [];
    AverageIs([r, s], f, Total(Positive([r, s], f), f));
  }

  /** Two cores: what is a rate adds up, what is a time is averaged where it was measured. */
  lemma AggregateOfTwo(t: Result, r: Result, s: Result)
    requires IsAggregate(t, [r, s])
    ensures t.intLat == r.intLat + s.intLat && t.intThr == r.intThr + s.intThr && t.mulThr == r.mulThr + s.mulThr
    ensures t.fpLat == r.fpLat + s.fpLat && t.fpThr == r.fpThr + s.fpThr && t.memGbps == r.memGbps + s.memGbps
    ensures t.memLat == Mean2(r.memLat, s.memLat) && t.memLat8 == Mean2(r.memLat8, s.memLat8)
    ensures t.disp.thr == r.disp.thr + s.disp.thr
    ensures t.disp.gain == (r.disp.gain + s.disp.gain) / 2.0 && t.disp.span == (r.disp.span + s.disp.span) / 2.0
    ensures t.disp.cap == Mean2(if r.disp.status.DispOk? then r.disp.cap else 0.0, if s.disp.status.DispOk? then s.disp.cap else 0.0)
    ensures t.disp.status.DispOk? <==> (r.disp.status.DispOk? && r.disp.cap > 0.0) || (s.disp.status.DispOk? && s.disp.cap > 0.0)
    ensures !t.disp.status.DispOk? ==> (t.disp.status.DispNone? <==> r.disp.status.DispNone? || s.disp.status.DispNone?)
    ensures t.ilp == (if t.intLat > 0.0 then t.intThr / t.intLat else 0.0)
    ensures t.filp == (if t.fpLat > 0.0 then t.fpThr / t.fpLat else 0.0)
    ensures t.mlp == (if t.memLat8 > 0.0 then t.memLat / t.memLat8 else 0.0)
  {
    hide Total, Average, Positive, IsGeomean, MachineTerms, Mean2;
    TotalOfTwo(r, s, IntLat);
    TotalOfTwo(r, s, IntThr);
    TotalOfTwo(r, s, MulThr);
    TotalOfTwo(r, s, FpLat);
    TotalOfTwo(r, s, FpThr);
    TotalOfTwo(r, s, MemGbps);
    TotalOfTwo(r, s, DispThr);
    TotalOfTwo(r, s, DispGain);
    TotalOfTwo(r, s, DispSpan);
    AverageOfTwo(r, s, MemLat);
    AverageOfTwo(r, s, MemLat8);
    AverageOfTwo(r, s, DispCap);
    AnyNoneNext([r], s);
    AnyNoneNext([], r);
    assert [r] + [s] == [r, s] && [] + [r] == [r];
  }
}
