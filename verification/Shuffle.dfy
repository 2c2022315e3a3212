/**
 Which order the builder's shuffle leaves: the generator's numbers decide it, and every order
 belongs to exactly one list of numbers.
 */
module Shuffles {

  // ----- the generator -----

  /** xs64(): the state it leaves and the number it returns. */
  function Xs64State(s: bv64): bv64 {
    var x := s ^ (s >> 12);
    var y := x ^ (x << 25);
    y ^ (y >> 27)
  }

  function Xs64Value(s: bv64): nat {
    (Xs64State(s) * 2685821657736338717) as nat
  }

  /** One of the places up to i. */
  function Draw(s: bv64, i: nat): (j: nat)
    ensures j <= i
  {
    Xs64Value(s) % (i + 1)
  }

  /** The state after k numbers. */
  function StateAfter(s: bv64, k: nat): bv64
    decreases k
  {
    if k == 0 then s else StateAfter(Xs64State(s), k - 1)
  }

  /** What the shuffle draws for places n, n - 1, ..., 1. */
  function Drawn(s: bv64, n: nat): (d: seq<nat>)
    ensures |d| == n && AreDraws(d)
    decreases n
  {
    if n == 0 then [] else [Draw(s, n)] + Drawn(Xs64State(s), n - 1)
  }

  /** A number for every place, none above it. */
  predicate AreDraws(d: seq<nat>) {
    forall k :: 0 <= k < |d| ==> d[k] <= |d| - k
  }

  lemma {:induction false} StatesAdd(s: bv64, a: nat, b: nat)
    ensures StateAfter(StateAfter(s, a), b) == StateAfter(s, a + b)
    decreases a
  {
    hide Xs64State;
    if a > 0 { StatesAdd(Xs64State(s), a - 1, b); }
  }

  // ----- the shuffle -----

  function Swap(s: seq<nat>, i: nat, j: nat): (t: seq<nat>)
    requires i < |s| && j < |s|
    ensures |t| == |s|
  {
    s[i := s[j]][j := s[i]]
  }

  ghost predicate Distinct(at: seq<nat>) {
    forall i, j :: 0 <= i < j < |at| ==> at[i] != at[j]
  }

  /** Places |d|, ..., 1 each exchanged with the place drawn for it. */
  function Shuffled(order: seq<nat>, d: seq<nat>): (r: seq<nat>)
    requires AreDraws(d) && (d != [] ==> |d| < |order|)
    ensures |r| == |order|
    decreases |d|
  {
    if d == [] then order else Shuffled(Swap(order, |d|, d[0]), d[1..])
  }

  /** The order the shuffle leaves, from state s. */
  function ShuffledFrom(order: seq<nat>, s: bv64): (r: seq<nat>)
    requires order != []
    ensures |r| == |order|
  {
    Shuffled(order, Drawn(s, |order| - 1))
  }

  /** Places above the draws are left alone. */
  lemma {:induction false} AboveStays(order: seq<nat>, d: seq<nat>, k: nat)
    requires AreDraws(d) && (d != [] ==> |d| < |order|) && |d| < k < |order|
    ensures Shuffled(order, d)[k] == order[k]
    decreases |d|
  {
    if d != [] { AboveStays(Swap(order, |d|, d[0]), d[1..], k); }
  }

  /** The first draw decides what ends at its place. */
  lemma FirstDraw(order: seq<nat>, d: seq<nat>)
    requires AreDraws(d) && d != [] && |d| < |order|
    ensures Shuffled(order, d)[|d|] == order[d[0]]
  {
    AboveStays(Swap(order, |d|, d[0]), d[1..], |d|);
  }

  lemma SwapDistinct(order: seq<nat>, i: nat, j: nat)
    requires Distinct(order) && i < |order| && j < |order|
    ensures Distinct(Swap(order, i, j))
  {
  }

  /** Different draws leave different orders. */
  lemma {:induction false} DrawsDecide(order: seq<nat>, d: seq<nat>, e: seq<nat>)
    requires Distinct(order) && AreDraws(d) && AreDraws(e)
    requires |d| == |e| && (d != [] ==> |d| < |order|)
    requires Shuffled(order, d) == Shuffled(order, e)
    ensures d == e
    decreases |d|
  {
    if d != [] {
      FirstDraw(order, d);
      FirstDraw(order, e);
      assert d[0] == e[0];
      SwapDistinct(order, |d|, d[0]);
      DrawsDecide(Swap(order, |d|, d[0]), d[1..], e[1..]);
      assert d == [d[0]] + d[1..] && e == [e[0]] + e[1..];
    }
  }

  /** The same numbers, each once, in some order. */
  ghost predicate Rearranged(order: seq<nat>, r: seq<nat>) {
    |r| == |order| && Distinct(r) && forall k :: 0 <= k < |r| ==> r[k] in order
  }

  lemma SwapKeeps(order: seq<nat>, i: nat, j: nat)
    requires i < |order| && j < |order|
    ensures forall x :: x in Swap(order, i, j) <==> x in order
  {
    var t := Swap(order, i, j);
    forall x | x in order ensures x in t {
      var k :| 0 <= k < |order| && order[k] == x;
      assert t[if k == i then j else if k == j then i else k] == x;
    }
  }

  lemma {:induction false} ShuffledIsRearranged(order: seq<nat>, d: seq<nat>)
    requires Distinct(order) && AreDraws(d) && (d != [] ==> |d| < |order|)
    ensures Rearranged(order, Shuffled(order, d))
    decreases |d|
  {
    if d != [] {
      SwapDistinct(order, |d|, d[0]);
      SwapKeeps(order, |d|, d[0]);
      ShuffledIsRearranged(Swap(order, |d|, d[0]), d[1..]);
    }
  }

  /** Some draws leave the order r, once the places above n are as in r. */
  lemma {:induction false} DrawsTo(order: seq<nat>, r: seq<nat>, n: nat) returns (d: seq<nat>)
    requires Distinct(order) && Rearranged(order, r) && n < |order|
    requires forall k :: n < k < |order| ==> order[k] == r[k]
    ensures |d| == n && AreDraws(d) && Shuffled(order, d) == r
    decreases n
  {
    var j: nat :| j < |order| && order[j] == r[n];
    if n == 0 {
      d := [];
      assert j == 0;
    } else {
      var t := Swap(order, n, j);
      SwapDistinct(order, n, j);
      SwapKeeps(order, n, j);
      var rest := DrawsTo(t, r, n - 1);
      d := [j] + rest;
      assert d[1..] == rest;
    }
  }

  /** Every order is left by some draws, exactly one per place. */
  lemma EveryOrderIsDrawn(order: seq<nat>, r: seq<nat>) returns (d: seq<nat>)
    requires order != [] && Distinct(order) && Rearranged(order, r)
    ensures |d| == |order| - 1 && AreDraws(d) && Shuffled(order, d) == r
  {
    d := DrawsTo(order, r, |order| - 1);
  }

  // ----- seed 1 -----

  lemma FirstStates()
    ensures Xs64State(1) == 0x2000001 && Xs64State(0x2000001) == 0x4004000802801
    ensures Xs64State(0x4004000802801) == 0xd004003202803
  {
  }

  lemma FirstValues()
    ensures Xs64Value(1) == 0x47e4ce4b896cdd1d && Xs64Value(0x2000001) == 0xabcfa6a8e079651d
    ensures Xs64Value(0x4004000802801) == 0xb9d10d8feb731f57
  {
  }

  lemma FirstDraws()
    ensures Drawn(1, 3) == [1, 2, 1] && StateAfter(1, 3) == 0xd004003202803
  {
    hide *;
    FirstStates();
    DrawOne(1, 3, 0x2000001);
    DrawOne(0x2000001, 2, 0x4004000802801);
    DrawOne(0x4004000802801, 1, 0xd004003202803);
    FirstPlaces();
    NoneDrawn(0xd004003202803);
    assert [1] + [] == [1] && [2] + [1] == [2, 1] && [1] + [2, 1] == [1, 2, 1];
  }

  lemma FirstPlaces()
    ensures Draw(1, 3) == 1 && Draw(0x2000001, 2) == 2 && Draw(0x4004000802801, 1) == 1
  {
    hide Xs64Value;
    FirstValues();
  }

  lemma NoneDrawn(s: bv64)
    ensures Drawn(s, 0) == [] && StateAfter(s, 0) == s
  {
  }

  lemma DrawOne(s: bv64, n: nat, next: bv64)
    requires n > 0 && Xs64State(s) == next
    ensures Drawn(s, n) == [Draw(s, n)] + Drawn(next, n - 1) && StateAfter(s, n) == StateAfter(next, n - 1)
  {
    hide Draw, Xs64State;
  }

  /** Four nodes, seed 1: 0, 3, 2, 1, and the generator left where three numbers leave it. */
  lemma FourNodesAtSeedOne()
    ensures Shuffled([0, 1, 2, 3], Drawn(1, 3)) == ShuffledFrom([0, 1, 2, 3], 1) == [0, 3, 2, 1] && StateAfter(1, 3) == 0xd004003202803
  {
    FirstDraws();
    assert Swap([0, 1, 2, 3], 3, 1) == [0, 3, 2, 1];
    assert Swap([0, 3, 2, 1], 2, 2) == [0, 3, 2, 1];
    assert [1, 2, 1][1..] == [2, 1] && [2, 1][1..] == [1] && [1][1..] == [];
    assert Shuffled([0, 3, 2, 1], [1]) == Shuffled(Swap([0, 3, 2, 1], 1, 1), []);
    assert Shuffled([0, 3, 2, 1], [2, 1]) == Shuffled([0, 3, 2, 1], [1]);
  }
}
