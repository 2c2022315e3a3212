/**
 The geometric mean both sides of the project compute, and what it means: a number
 whose m-th power is the product of the m positive terms. Floating point is modelled by
 exact reals, and libm by any pair of functions obeying the laws of log and exp.
 */
module Geomean {

  function Pow(x: real, n: nat): real {
    if n == 0 then 1.0 else x * Pow(x, n - 1)
  }

  function PosCount(v: seq<real>): nat {
    if v == [] then 0 else PosCount(v[..|v| - 1]) + (if v[|v| - 1] > 0.0 then 1 else 0)
  }

  function PosProduct(v: seq<real>): (p: real)
    ensures p > 0.0
  {
    if v == [] then 1.0
    else
      var p := PosProduct(v[..|v| - 1]);
      if v[|v| - 1] > 0.0 then p * v[|v| - 1] else p
  }

  /** One more term x behind a product. */
  function With(p: real, x: real): real {
    if x > 0.0 then p * x else p
  }

  lemma LastFactor(v: seq<real>)
    requires v != []
    ensures PosProduct(v) == With(PosProduct(v[..|v| - 1]), v[|v| - 1])
    ensures PosCount(v) == PosCount(v[..|v| - 1]) + if v[|v| - 1] > 0.0 then 1 else 0
  {
  }

  /** g is the geometric mean of the positive terms of v, or 0 where there is none. */
  predicate IsGeomean(g: real, v: seq<real>) {
    if PosCount(v) == 0 then g == 0.0
    else g > 0.0 && Pow(g, PosCount(v)) == PosProduct(v)
  }

  // ----- powers -----

  lemma {:induction false} PowPositive(x: real, n: nat)
    requires x > 0.0
    ensures Pow(x, n) > 0.0
  {
    if n > 0 { PowPositive(x, n - 1); }
  }

  lemma {:induction false} PowProduct(x: real, y: real, z: real, n: nat)
    requires z == x * y
    ensures Pow(z, n) == Pow(x, n) * Pow(y, n)
  {
    if n > 0 {
      PowProduct(x, y, z, n - 1);
      Regroup(Pow(x, n - 1), Pow(y, n - 1), x, y);
      Swap(x, Pow(x, n - 1), y, Pow(y, n - 1));
    }
  }

  lemma Swap(a: real, b: real, c: real, d: real)
    ensures (a * b) * (c * d) == (a * c) * (b * d)
  {
  }

  lemma TimesMono(a: real, b: real, c: real, d: real)
    requires 0.0 <= a <= b && 0.0 <= c <= d
    ensures a * c <= b * d
  {
    assert a * c <= b * c;
    assert b * c <= b * d;
  }

  lemma ScaleMono(a: real, x: real, y: real)
    requires a >= 0.0 && x <= y
    ensures a * x <= a * y
  {
  }

  // Products are passed along as numbers of their own below: the facts then stay about
  // names, and do not depend on how a product happens to be grouped.

  lemma MulMono(a: real, x: real, y: real, ax: real, ay: real)
    requires a >= 0.0 && x <= y && ax == a * x && ay == a * y
    ensures ax <= ay
  {
  }

  lemma Cancel(x: real, y: real, b: real, xb: real, yb: real)
    requires b > 0.0 && xb == x * b && yb == y * b && xb <= yb
    ensures x <= y
  {
  }

  lemma SelfQuotient(d: real)
    requires d != 0.0
    ensures d / d == 1.0
  {
  }

  lemma Quotient(x: real, n: real, nx: real)
    requires n != 0.0 && nx == n * x
    ensures nx / n == x
  {
    assert nx / n * n == x * n;
  }

  /** p / f >= g, without the division. */
  lemma RatioBound(p: real, f: real, g: real, r: real, gf: real)
    requires f > 0.0 && r == p / f && gf == g * f
    ensures r >= g <==> p >= gf
  {
    assert p == r * f;
    if r >= g { MulMono(f, g, r, gf, p); }
    if p >= gf { Cancel(g, r, f, gf, p); }
  }

  lemma Regroup(a: real, b: real, c: real, d: real)
    ensures (a * b) * (c * d) == (c * a) * (b * d)
  {
  }

  lemma Associate(a: real, b: real, c: real)
    ensures a * (b * c) == (a * b) * c
  {
  }

  lemma FifthPower(x: real)
    ensures Pow(x, 5) == (((x * x) * x) * x) * x
  {
    assert Pow(x, 1) == x;
    assert Pow(x, 2) == x * x;
    assert Pow(x, 3) == x * Pow(x, 2);
    assert Pow(x, 4) == x * Pow(x, 3);
  }

  lemma SixthPower(x: real)
    ensures Pow(x, 6) == ((((x * x) * x) * x) * x) * x
  {
    FifthPower(x);
    assert Pow(x, 6) == x * Pow(x, 5);
  }

  lemma {:induction false} PowMono(x: real, y: real, n: nat)
    requires 0.0 < x <= y
    ensures Pow(x, n) <= Pow(y, n)
  {
    if n > 0 {
      PowMono(x, y, n - 1);
      PowPositive(x, n - 1);
      TimesMono(x, y, Pow(x, n - 1), Pow(y, n - 1));
    }
  }

  lemma {:induction false} PowStrict(x: real, y: real, n: nat)
    requires 0.0 < x < y && n > 0
    ensures Pow(x, n) < Pow(y, n)
  {
    PowMono(x, y, n - 1);
    PowPositive(x, n - 1);
    assert x * Pow(x, n - 1) < y * Pow(x, n - 1);
    TimesMono(y, y, Pow(x, n - 1), Pow(y, n - 1));
  }

  /** m-th powers compare as the numbers do, which is what spares every later proof a root. */
  lemma PowCompare(x: real, y: real, n: nat)
    requires x > 0.0 && y > 0.0 && n > 0
    ensures x <= y <==> Pow(x, n) <= Pow(y, n)
  {
    if x <= y {
      PowMono(x, y, n);
    } else {
      PowStrict(y, x, n);
    }
  }

  lemma GeomeanUnique(g: real, h: real, v: seq<real>)
    requires IsGeomean(g, v) && IsGeomean(h, v)
    ensures g == h
  {
    if PosCount(v) > 0 {
      PowCompare(g, h, PosCount(v));
      PowCompare(h, g, PosCount(v));
    }
  }

  // ----- the definition on short lists -----

  lemma OneMoreTerm(v: seq<real>, x: real)
    requires x > 0.0
    ensures PosProduct(v + [x]) == PosProduct(v) * x && PosCount(v + [x]) == PosCount(v) + 1
  {
    assert (v + [x])[..|v|] == v;
  }

  lemma SixFactors(a: real, b: real, c: real, d: real, e: real, f: real)
    requires a > 0.0 && b > 0.0 && c > 0.0 && d > 0.0 && e > 0.0 && f > 0.0
    ensures PosProduct([a, b, c, d, e, f]) == ((((a * b) * c) * d) * e) * f && PosCount([a, b, c, d, e, f]) == 6
  {
    hide With;
    assert PosProduct([]) == 1.0 && PosCount([]) == 0;
    hide PosProduct, PosCount;
    OneMoreTerm([], a);
    OneMoreTerm([a], b);
    OneMoreTerm([a, b], c);
    OneMoreTerm([a, b, c], d);
    OneMoreTerm([a, b, c, d], e);
    OneMoreTerm([a, b, c, d, e], f);
    assert [] + [a] == [a] && [a] + [b] == [a, b] && [a, b] + [c] == [a, b, c];
    assert [a, b, c] + [d] == [a, b, c, d] && [a, b, c, d] + [e] == [a, b, c, d, e];
    assert [a, b, c, d, e] + [f] == [a, b, c, d, e, f];
  }

  /** The mean of six numbers is the sixth root of their product. */
  lemma MeanOfSix(g: real, a: real, b: real, c: real, d: real, e: real, f: real)
    requires a > 0.0 && b > 0.0 && c > 0.0 && d > 0.0 && e > 0.0 && f > 0.0
    ensures IsGeomean(g, [a, b, c, d, e, f]) <==> g > 0.0 && ((((g * g) * g) * g) * g) * g == ((((a * b) * c) * d) * e) * f
  {
    SixFactors(a, b, c, d, e, f);
    SixthPower(g);
    hide Pow, PosProduct, PosCount;
  }

  lemma {:induction false} WithoutFactor(v: seq<real>, i: nat)
    requires i < |v| && v[i] <= 0.0
    ensures PosProduct(v[..i] + v[i + 1..]) == PosProduct(v) && PosCount(v[..i] + v[i + 1..]) == PosCount(v)
  {
    hide PosProduct, PosCount, With;
    var n := |v| - 1;
    var w, front := v[..i] + v[i + 1..], v[..n];
    LastFactor(v);
    if i == n {
      assert w == front;
      NoFactor(PosProduct(front), v[n]);
    } else {
      WithoutFactor(front, i);
      assert w[..n - 1] == front[..i] + front[i + 1..] && w[n - 1] == v[n];
      LastFactor(w);
    }
  }

  lemma NoFactor(p: real, x: real)
    requires x <= 0.0
    ensures With(p, x) == p
  {
  }

  /** A term that is not positive might as well not be there; of none the mean is 0. */
  lemma WithoutTerm(g: real, v: seq<real>, i: nat)
    requires i < |v| && v[i] <= 0.0
    ensures IsGeomean(g, v) <==> IsGeomean(g, v[..i] + v[i + 1..])
    ensures IsGeomean(g, []) <==> g == 0.0
  {
    WithoutFactor(v, i);
  }

  // ----- libm -----

  predicate ExpAdds(exp: real -> real, x: real, y: real) {
    exp(x + y) == exp(x) * exp(y)
  }

  ghost predicate Lawful(ln: real -> real, exp: real -> real) {
    && (forall x: real :: exp(x) > 0.0)
    && (forall x: real, y: real :: ExpAdds(exp, x, y))
    && (forall x: real :: x > 0.0 ==> exp(ln(x)) == x)
  }

  lemma ExpSum(ln: real -> real, exp: real -> real, x: real, y: real, z: real)
    requires Lawful(ln, exp) && z == x + y
    ensures exp(z) == exp(x) * exp(y)
  {
    assert ExpAdds(exp, x, y);
  }

  lemma ExpZero(ln: real -> real, exp: real -> real)
    requires Lawful(ln, exp)
    ensures exp(0.0) == 1.0
  {
    ExpSum(ln, exp, 0.0, 0.0, 0.0);
    assert exp(0.0) * (exp(0.0) - 1.0) == 0.0;
  }

  lemma {:induction false} ExpTimes(ln: real -> real, exp: real -> real, x: real, n: nat, z: real)
    requires Lawful(ln, exp) && z == n as real * x
    ensures Pow(exp(x), n) == exp(z)
  {
    if n == 0 {
      ExpZero(ln, exp);
      assert z == 0.0;
    } else {
      var y := z - x;
      assert y == (n - 1) as real * x;
      ExpTimes(ln, exp, x, n - 1, y);
      ExpSum(ln, exp, x, y, z);
    }
  }

  lemma MeanOfLogs(ln: real -> real, exp: real -> real, s: real, v: seq<real>, mean: real)
    requires Lawful(ln, exp) && exp(s) == PosProduct(v) && PosCount(v) > 0
    requires mean == s / PosCount(v) as real
    ensures IsGeomean(exp(mean), v)
  {
    assert s == PosCount(v) as real * mean;
    ExpTimes(ln, exp, mean, PosCount(v), s);
  }

  /** geomean() in bench.c. */
  method Geomean(v: seq<real>, ln: real -> real, exp: real -> real) returns (g: real)
    requires Lawful(ln, exp)
    ensures IsGeomean(g, v)
  {
    var s, m := 0.0, 0;
    ExpZero(ln, exp);
    for i := 0 to |v|
      invariant m == PosCount(v[..i]) && exp(s) == PosProduct(v[..i])
    {
      assert v[..i + 1][..i] == v[..i];
      ExpSum(ln, exp, s, ln(v[i]), s + ln(v[i]));
      if v[i] > 0.0 { s, m := s + ln(v[i]), m + 1; }
    }
    assert v[..|v|] == v;
    if m > 0 { MeanOfLogs(ln, exp, s, v, s / m as real); }
    g := if m > 0 then exp(s / m as real) else 0.0;
  }

  function Logs(v: seq<real>, ln: real -> real): (l: seq<real>)
    ensures |l| == PosCount(v)
  {
    if v == [] then []
    else Logs(v[..|v| - 1], ln) + (if v[|v| - 1] > 0.0 then [ln(v[|v| - 1])] else [])
  }

  function Sum(v: seq<real>): real {
    if v == [] then 0.0 else Sum(v[..|v| - 1]) + v[|v| - 1]
  }

  /** _geomean() in server.py: the logs first, then their mean. */
  function HubGeomean(v: seq<real>, ln: real -> real, exp: real -> real): real {
    var logs := Logs(v, ln);
    if logs != [] then exp(Sum(logs) / |logs| as real) else 0.0
  }

  lemma LastLog(v: seq<real>, ln: real -> real)
    requires v != []
    ensures var front, last := v[..|v| - 1], v[|v| - 1];
            Sum(Logs(v, ln)) == if last > 0.0 then Sum(Logs(front, ln)) + ln(last) else Sum(Logs(front, ln))
  {
    var logs, rest := Logs(v, ln), Logs(v[..|v| - 1], ln);
    if v[|v| - 1] > 0.0 {
      assert logs[..|logs| - 1] == rest && logs[|logs| - 1] == ln(v[|v| - 1]);
    } else {
      assert logs == rest;
    }
  }

  lemma {:induction false} SumOfLogs(v: seq<real>, ln: real -> real, exp: real -> real, total: real)
    requires Lawful(ln, exp) && total == Sum(Logs(v, ln))
    ensures exp(total) == PosProduct(v)
  {
    if v == [] {
      ExpZero(ln, exp);
    } else {
      var front, last := v[..|v| - 1], v[|v| - 1];
      var rest := Sum(Logs(front, ln));
      SumOfLogs(front, ln, exp, rest);
      LastLog(v, ln);
      assert PosProduct(v) == if last > 0.0 then PosProduct(front) * last else PosProduct(front);
      assert last > 0.0 ==> exp(ln(last)) == last;
      hide Logs, Sum, PosProduct;
      if last > 0.0 { ExpSum(ln, exp, rest, ln(last), total); }
    }
  }

  /** The two implementations compute the same number. */
  lemma HubGeomeanIsGeomean(v: seq<real>, ln: real -> real, exp: real -> real)
    requires Lawful(ln, exp)
    ensures IsGeomean(HubGeomean(v, ln, exp), v)
  {
    var logs := Logs(v, ln);
    SumOfLogs(v, ln, exp, Sum(logs));
    if PosCount(v) > 0 {
      MeanOfLogs(ln, exp, Sum(logs), v, Sum(logs) / |logs| as real);
    }
  }
}
