/**
 The words of Sha256 as vectors of 32 bits: what an operation does to vectors, the operation of
 Sha256 does to the numbers they spell.
 */
module ShaVectors {
  import opened Powers
  import opened Sha256
  import ShaBits

  // ----- vectors, and what halving one does -----

  function IsOdd(b: bv32): bool { b & 1 == 1 }

  function Half(b: bv32): bv32 { b >> 1 }

  function Twice32(b: bv32): bv32 { b << 1 }

  function Unit(one: bool): bv32 { if one then 1 else 0 }

  function Plus32(b: bv32, c: bv32): bv32 { b + c }

  function Not32(b: bv32): bv32 { !b }

  function On32(op: BitOp, b: bv32, c: bv32): bv32 {
    match op
    case AndOp => b & c
    case OrOp => b | c
    case XorOp => b ^ c
  }

  lemma OnHalves(op: BitOp, b: bv32, c: bv32)
    ensures Half(On32(op, b, c)) == On32(op, Half(b), Half(c))
    ensures IsOdd(On32(op, b, c)) == op.On(IsOdd(b), IsOdd(c))
  {
    hide Half, IsOdd;
    AndHalves(b, c);
    OrHalves(b, c);
    XorHalves(b, c);
  }

  lemma AndHalves(b: bv32, c: bv32)
    ensures Half(b & c) == Half(b) & Half(c) && (IsOdd(b & c) <==> IsOdd(b) && IsOdd(c))
  {
  }

  lemma OrHalves(b: bv32, c: bv32)
    ensures Half(b | c) == Half(b) | Half(c) && (IsOdd(b | c) <==> IsOdd(b) || IsOdd(c))
  {
  }

  lemma XorHalves(b: bv32, c: bv32)
    ensures Half(b ^ c) == Half(b) ^ Half(c) && (IsOdd(b ^ c) <==> IsOdd(b) != IsOdd(c))
  {
  }

  /** Whether b and c agree where m has ones. */
  predicate Same(b: bv32, c: bv32, m: bv32) { (b ^ c) & m == 0 }

  function Longer(m: bv32): bv32 { (m << 1) | 1 }

  lemma SameHalves(b: bv32, c: bv32, m: bv32)
    requires Same(b, c, Longer(m))
    ensures IsOdd(b) == IsOdd(c) && Same(Half(b), Half(c), m)
  {
  }

  /** All but the top bit. */
  const LOW31: bv32 := 0x7FFF_FFFF

  lemma NotHalves(b: bv32)
    ensures IsOdd(Not32(b)) == !IsOdd(b) && Same(Half(Not32(b)), Not32(Half(b)), LOW31)
  {
  }

  lemma TwiceHalves(b: bv32)
    ensures !IsOdd(Twice32(b)) && Same(Half(Twice32(b)), b, LOW31)
  {
  }

  function Carry(u: bool, v: bool, w: bool): bool { (u && v) || (u && w) || (v && w) }

  /** b + c + carry. */
  function Plus3(b: bv32, c: bv32, unit: bv32): bv32 { Plus32(Plus32(b, c), unit) }

  /** The vector with this half and this last bit. */
  function Rebuilt(half: bv32, unit: bv32): bv32 { Plus3(half, half, unit) }

  lemma PlusHalves(b: bv32, c: bv32, carry: bool)
    ensures IsOdd(Plus3(b, c, Unit(carry))) == ((IsOdd(b) != IsOdd(c)) != carry)
    ensures Same(Half(Plus3(b, c, Unit(carry))), Plus3(Half(b), Half(c), Unit(Carry(IsOdd(b), IsOdd(c), carry))), LOW31)
  {
    hide *;
    var u, v := IsOdd(b), IsOdd(c);
    var k, r := Carry(u, v, carry), (u != v) != carry;
    HalfTwice(b);
    HalfTwice(c);
    UnitSum(u, v, carry);
    Regrouped(Half(b), Half(c), Unit(u), Unit(v), Unit(carry), Unit(k), Unit(r));
    TwiceHalf(Plus3(Half(b), Half(c), Unit(k)), r);
  }

  lemma HalfTwice(b: bv32)
    ensures b == Rebuilt(Half(b), Unit(IsOdd(b)))
  {
  }

  lemma TwiceHalf(s: bv32, one: bool)
    ensures IsOdd(Rebuilt(s, Unit(one))) == one && Same(Half(Rebuilt(s, Unit(one))), s, LOW31)
  {
  }

  lemma UnitSum(u: bool, v: bool, w: bool)
    ensures Plus3(Unit(u), Unit(v), Unit(w)) == Rebuilt(Unit(Carry(u, v, w)), Unit((u != v) != w))
  {
  }

  lemma PlusSwaps(b: bv32, c: bv32)
    ensures Plus32(b, c) == Plus32(c, b)
  {
  }

  predicate IsPlus(r: bv32, b: bv32, c: bv32) { r == b + c }

  predicate IsSum(r: bv32, b: bv32, c: bv32, d: bv32) { r == b + c + d }

  lemma PlusIs(b: bv32, c: bv32)
    ensures IsPlus(Plus32(b, c), b, c)
  {
  }

  lemma LeftPlus(b: bv32, c: bv32, d: bv32, bc: bv32, r: bv32)
    requires IsPlus(bc, b, c) && IsPlus(r, bc, d)
    ensures IsSum(r, b, c, d)
  {
  }

  lemma RightPlus(b: bv32, c: bv32, d: bv32, cd: bv32, r: bv32)
    requires IsPlus(cd, c, d) && IsPlus(r, b, cd)
    ensures IsSum(r, b, c, d)
  {
  }

  lemma OneSum(r: bv32, q: bv32, b: bv32, c: bv32, d: bv32)
    requires IsSum(r, b, c, d) && IsSum(q, b, c, d)
    ensures r == q
  {
  }

  lemma PlusRegroups(b: bv32, c: bv32, d: bv32)
    ensures Plus32(Plus32(b, c), d) == Plus32(b, Plus32(c, d))
  {
    hide *;
    var bc, cd := Plus32(b, c), Plus32(c, d);
    PlusIs(b, c);
    PlusIs(c, d);
    PlusIs(bc, d);
    PlusIs(b, cd);
    LeftPlus(b, c, d, bc, Plus32(bc, d));
    RightPlus(b, c, d, cd, Plus32(b, cd));
    OneSum(Plus32(bc, d), Plus32(b, cd), b, c, d);
  }

  lemma FourPlus(a: bv32, b: bv32, c: bv32, d: bv32)
    ensures Plus32(Plus32(a, b), Plus32(c, d)) == Plus32(Plus32(a, c), Plus32(b, d))
  {
    hide Plus32;
    PlusRegroups(a, b, Plus32(c, d));
    PlusRegroups(b, c, d);
    PlusSwaps(b, c);
    PlusRegroups(c, b, d);
    PlusRegroups(a, c, Plus32(b, d));
  }

  lemma Regrouped(x: bv32, y: bv32, u: bv32, v: bv32, w: bv32, k: bv32, r: bv32)
    requires Plus3(u, v, w) == Rebuilt(k, r)
    ensures Plus3(Rebuilt(x, u), Rebuilt(y, v), w) == Rebuilt(Plus3(x, y, k), r)
  {
    hide Plus32;
    var xx, yy, p, kk := Plus32(x, x), Plus32(y, y), Plus32(x, y), Plus32(k, k);
    FourPlus(xx, u, yy, v);
    FourPlus(x, x, y, y);
    PlusRegroups(Plus32(xx, yy), Plus32(u, v), w);
    FourPlus(p, k, p, k);
    PlusRegroups(Plus32(p, p), kk, r);
  }

  /** n ones. */
  function Mask(n: nat): bv32 {
    if n == 0 then 0 else Longer(Mask(n - 1))
  }

  lemma Mask31()
    ensures Mask(31) == LOW31
  {
    assert Mask(8) == 0xFF;
    assert Mask(16) == 0xFFFF;
    assert Mask(24) == 0xFF_FFFF;
  }

  predicate Inside(m: bv32, k: bv32) { m & k == m }

  lemma LongerInside(m: bv32, k: bv32)
    requires Inside(m, k)
    ensures Inside(Longer(m), Longer(k))
  {
  }

  lemma ZeroInside(k: bv32)
    ensures Inside(0, k)
  {
  }

  lemma {:induction false} MaskInside(n: nat, k: nat)
    requires n <= k
    ensures Inside(Mask(n), Mask(k))
  {
    hide Longer, Inside;
    if n == 0 {
      ZeroInside(Mask(k));
    } else {
      MaskInside(n - 1, k - 1);
      LongerInside(Mask(n - 1), Mask(k - 1));
    }
  }

  lemma SameInside(b: bv32, c: bv32, m: bv32, k: bv32)
    requires Same(b, c, k) && Inside(m, k)
    ensures Same(b, c, m)
  {
  }

  // ----- the word a vector stands for -----

  /** The number with this last bit, and this half. */
  function Digit(one: bool, half: nat): nat {
    (if one then 1 else 0) + 2 * half
  }

  /** The number the n low bits of b spell. */
  function Low(b: bv32, n: nat): nat {
    if n == 0 then 0 else Digit(IsOdd(b), Low(Half(b), n - 1))
  }

  lemma {:induction false} LowBelow(b: bv32, n: nat)
    ensures Low(b, n) < Pow2(n)
    decreases n
  {
    hide IsOdd, Half;
    if n > 0 { LowBelow(Half(b), n - 1); }
  }

  function Num(b: bv32): Word {
    LowBelow(b, 32);
    Pow2Values();
    Low(b, 32)
  }

  lemma LowNone(b: bv32)
    ensures Low(b, 0) == 0
  {
  }

  lemma LowMore(b: bv32, n: nat)
    requires n > 0
    ensures Low(b, n) == Digit(IsOdd(b), Low(Half(b), n - 1))
  {
  }

  lemma {:induction false} SameLow(b: bv32, c: bv32, n: nat)
    requires Same(b, c, Mask(n))
    ensures Low(b, n) == Low(c, n)
    decreases n
  {
    hide IsOdd, Half, Same, Longer;
    if n > 0 {
      SameHalves(b, c, Mask(n - 1));
      SameLow(Half(b), Half(c), n - 1);
    }
  }

  lemma SameLow31(b: bv32, c: bv32, n: nat)
    requires n <= 31 && Same(b, c, LOW31)
    ensures Low(b, n) == Low(c, n)
  {
    hide *;
    Mask31();
    MaskInside(n, 31);
    SameInside(b, c, Mask(n), LOW31);
    SameLow(b, c, n);
  }

  // ----- bitwise operations -----

  lemma BitwiseDigit(op: BitOp, u: bool, x: nat, v: bool, y: nat, n: nat)
    requires n > 0
    ensures Bitwise(op, Digit(u, x), Digit(v, y), n) == Digit(op.On(u, v), Bitwise(op, x, y, n - 1))
  {
    assert Digit(u, x) / 2 == x && Digit(v, y) / 2 == y;
  }

  lemma {:induction false} BitwiseLow(op: BitOp, b: bv32, c: bv32, n: nat)
    ensures Bitwise(op, Low(b, n), Low(c, n), n) == Low(On32(op, b, c), n)
    decreases n
  {
    if n > 0 {
      hide *;
      LowMore(b, n);
      LowMore(c, n);
      LowMore(On32(op, b, c), n);
      OnHalves(op, b, c);
      BitwiseDigit(op, IsOdd(b), Low(Half(b), n - 1), IsOdd(c), Low(Half(c), n - 1), n);
      BitwiseLow(op, Half(b), Half(c), n - 1);
    }
  }

  lemma OpIs(op: BitOp, b: bv32, c: bv32)
    ensures OnWords(op, Num(b), Num(c)) == Num(On32(op, b, c))
  {
    hide Low, Bitwise, On32;
    BitwiseLow(op, b, c, 32);
  }

  lemma {:induction false} NotLow(b: bv32, n: nat)
    requires n <= 32
    ensures Low(b, n) + Low(Not32(b), n) == Pow2(n) - 1
    decreases n
  {
    hide IsOdd, Half, Not32, Low;
    if n > 0 {
      LowMore(b, n);
      LowMore(Not32(b), n);
      NotHalves(b);
      SameLow31(Half(Not32(b)), Not32(Half(b)), n - 1);
      NotLow(Half(b), n - 1);
    } else {
      LowNone(b);
      LowNone(Not32(b));
    }
  }

  lemma NotIs(b: bv32)
    ensures Not(Num(b)) == Num(Not32(b))
  {
    hide Low, Not32;
    NotLow(b, 32);
    Pow2Values();
  }

  // ----- addition -----

  function Rest(x: nat, d: nat): nat
    requires d > 0
  {
    x % d
  }

  function SumRest(x: nat, y: nat, carry: bool, p: nat): nat
    requires p > 0
  {
    Rest(x + y + if carry then 1 else 0, p)
  }

  lemma SumNothing(carry: bool)
    ensures SumRest(0, 0, carry, 1) == 0
  {
  }

  lemma {:induction false} PlusLow(b: bv32, c: bv32, carry: bool, n: nat)
    requires n <= 32
    ensures SumRest(Low(b, n), Low(c, n), carry, Pow2(n)) == Low(Plus3(b, c, Unit(carry)), n)
    decreases n
  {
    var sum := Plus3(b, c, Unit(carry));
    if n > 0 {
      assert Pow2(n) == 2 * Pow2(n - 1);
      hide *;
      LowMore(b, n);
      LowMore(c, n);
      LowMore(sum, n);
      PlusHalves(b, c, carry);
      var k := Carry(IsOdd(b), IsOdd(c), carry);
      SameLow31(Half(sum), Plus3(Half(b), Half(c), Unit(k)), n - 1);
      PlusLow(Half(b), Half(c), k, n - 1);
      OneBitSum(Low(Half(b), n - 1), Low(Half(c), n - 1), IsOdd(b), IsOdd(c), carry, Pow2(n - 1));
    } else {
      assert Pow2(n) == 1;
      hide *;
      LowNone(b);
      LowNone(c);
      LowNone(sum);
      SumNothing(carry);
    }
  }

  lemma CarryCounts(u: bool, v: bool, w: bool)
    ensures (if u then 1 else 0) + (if v then 1 else 0) + (if w then 1 else 0)
         == (if (u != v) != w then 1 else 0) + 2 * if Carry(u, v, w) then 1 else 0
  {
  }

  lemma OneBitSum(x: nat, y: nat, u: bool, v: bool, w: bool, p: nat)
    requires p > 0
    ensures SumRest(Digit(u, x), Digit(v, y), w, 2 * p) == Digit((u != v) != w, SumRest(x, y, Carry(u, v, w), p))
  {
    hide Rest, Carry;
    CarryCounts(u, v, w);
    var low, s := (if (u != v) != w then 1 else 0), x + y + if Carry(u, v, w) then 1 else 0;
    assert Digit(u, x) + Digit(v, y) + (if w then 1 else 0) == low + 2 * s;
    DoubleRest(low, s, p, s / p);
  }

  lemma DoubleRest(low: nat, s: nat, p: nat, q: nat)
    requires low < 2 && p > 0 && q == s / p
    ensures Rest(low + 2 * s, 2 * p) == low + 2 * Rest(s, p)
  {
    var r, qp := s % p, q * p;
    assert s == qp + r;
    ShaBits.Remainder(low + 2 * s, 2 * p, q, 2 * qp, low + 2 * r);
  }

  lemma AddIs(b: bv32, c: bv32)
    ensures Add(Num(b), Num(c)) == Num(Plus32(b, c))
  {
    hide Low, Plus3, Unit, Plus32, Pow2;
    Pow2Values();
    PlusNothing(b, c);
    PlusLow(b, c, false, 32);
  }

  lemma PlusNothing(b: bv32, c: bv32)
    ensures Plus3(b, c, Unit(false)) == Plus32(b, c)
  {
  }

  // ----- shifts and rotations -----

  lemma {:induction false} LowClear(b: bv32, n: nat)
    requires Inside(b, Mask(n))
    ensures Low(b, n + 1) == Low(b, n)
    decreases n
  {
    assert n > 0 ==> Mask(n) == Longer(Mask(n - 1));
    assert Mask(0) == 0;
    hide *;
    LowMore(b, n + 1);
    if n > 0 {
      LowMore(b, n);
      HalfInside(b, Mask(n - 1));
      LowClear(Half(b), n - 1);
    } else {
      InsideNothing(b);
      LowNone(b);
      LowNone(Half(b));
      NoDigit();
    }
  }

  lemma NoDigit()
    ensures Digit(false, 0) == 0
  {
  }

  lemma HalfInside(b: bv32, m: bv32)
    requires Inside(b, Longer(m))
    ensures Inside(Half(b), m)
  {
  }

  lemma InsideNothing(b: bv32)
    requires Inside(b, 0)
    ensures !IsOdd(b)
  {
  }

  lemma HalfIsShort(b: bv32)
    ensures Inside(Half(b), LOW31)
  {
  }

  lemma DigitHalf(one: bool, half: nat)
    ensures Digit(one, half) / 2 == half
  {
  }

  lemma HalfIs(b: bv32)
    ensures Num(b) / 2 == Num(Half(b))
  {
    assert Num(b) == Low(b, 32) && Num(Half(b)) == Low(Half(b), 32);
    hide *;
    LowMore(b, 32);
    HalfIsShort(b);
    Mask31();
    LowClear(Half(b), 31);
    DigitHalf(IsOdd(b), Low(Half(b), 31));
  }

  lemma TwiceIsPlus(b: bv32)
    ensures Twice32(b) == Plus32(b, b)
  {
  }

  lemma TwiceIs(b: bv32)
    ensures (2 * Num(b)) % 0x1_0000_0000 == Num(Twice32(b))
  {
    hide Num, Twice32, Plus32;
    TwiceIsPlus(b);
    AddIs(b, b);
  }

  function Halved(b: bv32, n: nat): bv32 {
    if n == 0 then b else Half(Halved(b, n - 1))
  }

  function Doubled(b: bv32, n: nat): bv32 {
    if n == 0 then b else Twice32(Doubled(b, n - 1))
  }

  lemma {:induction false} ShrIs(n: nat, b: bv32)
    ensures Shr(n, Num(b)) == Num(Halved(b, n))
  {
    hide Num, Half;
    if n > 0 {
      ShrIs(n - 1, b);
      ShaBits.ShiftTwice(1, n - 1, Num(b));
      HalfIs(Halved(b, n - 1));
    }
  }

  lemma {:induction false} ShlOnce(n: nat, x: Word)
    ensures Shl(n + 1, x) == (2 * Shl(n, x)) % 0x1_0000_0000
  {
    if n > 0 { ShlOnce(n - 1, (2 * x) % 0x1_0000_0000); }
  }

  lemma {:induction false} ShlIs(n: nat, b: bv32)
    ensures Shl(n, Num(b)) == Num(Doubled(b, n))
  {
    hide Num, Twice32;
    if n > 0 {
      ShlIs(n - 1, b);
      ShlOnce(n - 1, Num(b));
      TwiceIs(Doubled(b, n - 1));
    }
  }

  lemma RotrIs(n: nat, b: bv32, r: bv32)
    requires n <= 32 && r == On32(OrOp, Halved(b, n), Doubled(b, 32 - n))
    ensures Rotr(n, Num(b)) == Num(r)
  {
    hide Num, On32, Halved, Doubled, Shr, Shl, OnWords;
    ShrIs(n, b);
    ShlIs(32 - n, b);
    OpIs(OrOp, Halved(b, n), Doubled(b, 32 - n));
  }

  lemma HalvedBySteps(b: bv32)
    ensures Half(b) == b >> 1
    ensures Half(b >> 1) == b >> 2
    ensures Half(b >> 2) == b >> 3
    ensures Half(b >> 3) == b >> 4
    ensures Half(b >> 4) == b >> 5
    ensures Half(b >> 5) == b >> 6
    ensures Half(b >> 6) == b >> 7
    ensures Half(b >> 7) == b >> 8
    ensures Half(b >> 8) == b >> 9
    ensures Half(b >> 9) == b >> 10
    ensures Half(b >> 10) == b >> 11
    ensures Half(b >> 11) == b >> 12
    ensures Half(b >> 12) == b >> 13
    ensures Half(b >> 13) == b >> 14
    ensures Half(b >> 14) == b >> 15
    ensures Half(b >> 15) == b >> 16
    ensures Half(b >> 16) == b >> 17
    ensures Half(b >> 17) == b >> 18
    ensures Half(b >> 18) == b >> 19
    ensures Half(b >> 19) == b >> 20
    ensures Half(b >> 20) == b >> 21
    ensures Half(b >> 21) == b >> 22
    ensures Half(b >> 22) == b >> 23
    ensures Half(b >> 23) == b >> 24
    ensures Half(b >> 24) == b >> 25
  {
  }

  lemma HalvedBy(b: bv32)
    ensures Halved(b, 2) == b >> 2
    ensures Halved(b, 3) == b >> 3
    ensures Halved(b, 6) == b >> 6
    ensures Halved(b, 7) == b >> 7
    ensures Halved(b, 10) == b >> 10
    ensures Halved(b, 11) == b >> 11
    ensures Halved(b, 13) == b >> 13
    ensures Halved(b, 17) == b >> 17
    ensures Halved(b, 18) == b >> 18
    ensures Halved(b, 19) == b >> 19
    ensures Halved(b, 22) == b >> 22
    ensures Halved(b, 25) == b >> 25
  {
    hide Half;
    HalvedBySteps(b);
    assert Halved(b, 1) == b >> 1;
    assert Halved(b, 2) == b >> 2;
    assert Halved(b, 3) == b >> 3;
    assert Halved(b, 4) == b >> 4;
    assert Halved(b, 5) == b >> 5;
    assert Halved(b, 6) == b >> 6;
    assert Halved(b, 7) == b >> 7;
    assert Halved(b, 8) == b >> 8;
    assert Halved(b, 9) == b >> 9;
    assert Halved(b, 10) == b >> 10;
    assert Halved(b, 11) == b >> 11;
    assert Halved(b, 12) == b >> 12;
    assert Halved(b, 13) == b >> 13;
    assert Halved(b, 14) == b >> 14;
    assert Halved(b, 15) == b >> 15;
    assert Halved(b, 16) == b >> 16;
    assert Halved(b, 17) == b >> 17;
    assert Halved(b, 18) == b >> 18;
    assert Halved(b, 19) == b >> 19;
    assert Halved(b, 20) == b >> 20;
    assert Halved(b, 21) == b >> 21;
    assert Halved(b, 22) == b >> 22;
    assert Halved(b, 23) == b >> 23;
    assert Halved(b, 24) == b >> 24;
    assert Halved(b, 25) == b >> 25;
  }

  lemma DoubledBySteps(b: bv32)
    ensures Twice32(b) == b << 1
    ensures Twice32(b << 1) == b << 2
    ensures Twice32(b << 2) == b << 3
    ensures Twice32(b << 3) == b << 4
    ensures Twice32(b << 4) == b << 5
    ensures Twice32(b << 5) == b << 6
    ensures Twice32(b << 6) == b << 7
    ensures Twice32(b << 7) == b << 8
    ensures Twice32(b << 8) == b << 9
    ensures Twice32(b << 9) == b << 10
    ensures Twice32(b << 10) == b << 11
    ensures Twice32(b << 11) == b << 12
    ensures Twice32(b << 12) == b << 13
    ensures Twice32(b << 13) == b << 14
    ensures Twice32(b << 14) == b << 15
    ensures Twice32(b << 15) == b << 16
    ensures Twice32(b << 16) == b << 17
    ensures Twice32(b << 17) == b << 18
    ensures Twice32(b << 18) == b << 19
    ensures Twice32(b << 19) == b << 20
    ensures Twice32(b << 20) == b << 21
    ensures Twice32(b << 21) == b << 22
    ensures Twice32(b << 22) == b << 23
    ensures Twice32(b << 23) == b << 24
    ensures Twice32(b << 24) == b << 25
    ensures Twice32(b << 25) == b << 26
    ensures Twice32(b << 26) == b << 27
    ensures Twice32(b << 27) == b << 28
    ensures Twice32(b << 28) == b << 29
    ensures Twice32(b << 29) == b << 30
  {
  }

  lemma DoubledBy(b: bv32)
    ensures Doubled(b, 7) == b << 7
    ensures Doubled(b, 10) == b << 10
    ensures Doubled(b, 13) == b << 13
    ensures Doubled(b, 14) == b << 14
    ensures Doubled(b, 15) == b << 15
    ensures Doubled(b, 19) == b << 19
    ensures Doubled(b, 21) == b << 21
    ensures Doubled(b, 25) == b << 25
    ensures Doubled(b, 26) == b << 26
    ensures Doubled(b, 30) == b << 30
  {
    hide Twice32;
    DoubledBySteps(b);
    assert Doubled(b, 1) == b << 1;
    assert Doubled(b, 2) == b << 2;
    assert Doubled(b, 3) == b << 3;
    assert Doubled(b, 4) == b << 4;
    assert Doubled(b, 5) == b << 5;
    assert Doubled(b, 6) == b << 6;
    assert Doubled(b, 7) == b << 7;
    assert Doubled(b, 8) == b << 8;
    assert Doubled(b, 9) == b << 9;
    assert Doubled(b, 10) == b << 10;
    assert Doubled(b, 11) == b << 11;
    assert Doubled(b, 12) == b << 12;
    assert Doubled(b, 13) == b << 13;
    assert Doubled(b, 14) == b << 14;
    assert Doubled(b, 15) == b << 15;
    assert Doubled(b, 16) == b << 16;
    assert Doubled(b, 17) == b << 17;
    assert Doubled(b, 18) == b << 18;
    assert Doubled(b, 19) == b << 19;
    assert Doubled(b, 20) == b << 20;
    assert Doubled(b, 21) == b << 21;
    assert Doubled(b, 22) == b << 22;
    assert Doubled(b, 23) == b << 23;
    assert Doubled(b, 24) == b << 24;
    assert Doubled(b, 25) == b << 25;
    assert Doubled(b, 26) == b << 26;
    assert Doubled(b, 27) == b << 27;
    assert Doubled(b, 28) == b << 28;
    assert Doubled(b, 29) == b << 29;
    assert Doubled(b, 30) == b << 30;
  }

  function Or32(b: bv32, c: bv32): bv32 { b | c }

  function And32(b: bv32, c: bv32): bv32 { b & c }

  function Xor32(b: bv32, c: bv32): bv32 { b ^ c }

  lemma OrIs(b: bv32, c: bv32)
    ensures Or(Num(b), Num(c)) == Num(Or32(b, c))
  {
    hide Num, OnWords;
    OpIs(OrOp, b, c);
  }

  lemma AndIs(b: bv32, c: bv32)
    ensures And(Num(b), Num(c)) == Num(And32(b, c))
  {
    hide Num, OnWords;
    OpIs(AndOp, b, c);
  }

  lemma XorIs(b: bv32, c: bv32)
    ensures Xor(Num(b), Num(c)) == Num(Xor32(b, c))
  {
    hide Num, OnWords;
    OpIs(XorOp, b, c);
  }

  lemma RotrBy(n: nat, b: bv32, r: bv32)
    requires n <= 32 && Or32(Halved(b, n), Doubled(b, 32 - n)) == r
    ensures Rotr(n, Num(b)) == Num(r)
  {
    assert Rotr(n, Num(b)) == Or(Shr(n, Num(b)), Shl(32 - n, Num(b)));
    hide *;
    ShrIs(n, b);
    ShlIs(32 - n, b);
    OrIs(Halved(b, n), Doubled(b, 32 - n));
  }

  function Turn2(b: bv32): bv32 { Or32(b >> 2, b << 30) }

  lemma Turn2Is(b: bv32)
    ensures Rotr(2, Num(b)) == Num(Turn2(b))
  {
    assert Or32(Halved(b, 2), Doubled(b, 30)) == Turn2(b) by {
      hide Halved, Doubled;
      HalvedBy(b);
      DoubledBy(b);
    }
    hide *;
    RotrBy(2, b, Turn2(b));
  }

  function Turn6(b: bv32): bv32 { Or32(b >> 6, b << 26) }

  lemma Turn6Is(b: bv32)
    ensures Rotr(6, Num(b)) == Num(Turn6(b))
  {
    assert Or32(Halved(b, 6), Doubled(b, 26)) == Turn6(b) by {
      hide Halved, Doubled;
      HalvedBy(b);
      DoubledBy(b);
    }
    hide *;
    RotrBy(6, b, Turn6(b));
  }

  function Turn7(b: bv32): bv32 { Or32(b >> 7, b << 25) }

  lemma Turn7Is(b: bv32)
    ensures Rotr(7, Num(b)) == Num(Turn7(b))
  {
    assert Or32(Halved(b, 7), Doubled(b, 25)) == Turn7(b) by {
      hide Halved, Doubled;
      HalvedBy(b);
      DoubledBy(b);
    }
    hide *;
    RotrBy(7, b, Turn7(b));
  }

  function Turn11(b: bv32): bv32 { Or32(b >> 11, b << 21) }

  lemma Turn11Is(b: bv32)
    ensures Rotr(11, Num(b)) == Num(Turn11(b))
  {
    assert Or32(Halved(b, 11), Doubled(b, 21)) == Turn11(b) by {
      hide Halved, Doubled;
      HalvedBy(b);
      DoubledBy(b);
    }
    hide *;
    RotrBy(11, b, Turn11(b));
  }

  function Turn13(b: bv32): bv32 { Or32(b >> 13, b << 19) }

  lemma Turn13Is(b: bv32)
    ensures Rotr(13, Num(b)) == Num(Turn13(b))
  {
    assert Or32(Halved(b, 13), Doubled(b, 19)) == Turn13(b) by {
      hide Halved, Doubled;
      HalvedBy(b);
      DoubledBy(b);
    }
    hide *;
    RotrBy(13, b, Turn13(b));
  }

  function Turn17(b: bv32): bv32 { Or32(b >> 17, b << 15) }

  lemma Turn17Is(b: bv32)
    ensures Rotr(17, Num(b)) == Num(Turn17(b))
  {
    assert Or32(Halved(b, 17), Doubled(b, 15)) == Turn17(b) by {
      hide Halved, Doubled;
      HalvedBy(b);
      DoubledBy(b);
    }
    hide *;
    RotrBy(17, b, Turn17(b));
  }

  function Turn18(b: bv32): bv32 { Or32(b >> 18, b << 14) }

  lemma Turn18Is(b: bv32)
    ensures Rotr(18, Num(b)) == Num(Turn18(b))
  {
    assert Or32(Halved(b, 18), Doubled(b, 14)) == Turn18(b) by {
      hide Halved, Doubled;
      HalvedBy(b);
      DoubledBy(b);
    }
    hide *;
    RotrBy(18, b, Turn18(b));
  }

  function Turn19(b: bv32): bv32 { Or32(b >> 19, b << 13) }

  lemma Turn19Is(b: bv32)
    ensures Rotr(19, Num(b)) == Num(Turn19(b))
  {
    assert Or32(Halved(b, 19), Doubled(b, 13)) == Turn19(b) by {
      hide Halved, Doubled;
      HalvedBy(b);
      DoubledBy(b);
    }
    hide *;
    RotrBy(19, b, Turn19(b));
  }

  function Turn22(b: bv32): bv32 { Or32(b >> 22, b << 10) }

  lemma Turn22Is(b: bv32)
    ensures Rotr(22, Num(b)) == Num(Turn22(b))
  {
    assert Or32(Halved(b, 22), Doubled(b, 10)) == Turn22(b) by {
      hide Halved, Doubled;
      HalvedBy(b);
      DoubledBy(b);
    }
    hide *;
    RotrBy(22, b, Turn22(b));
  }

  function Turn25(b: bv32): bv32 { Or32(b >> 25, b << 7) }

  lemma Turn25Is(b: bv32)
    ensures Rotr(25, Num(b)) == Num(Turn25(b))
  {
    assert Or32(Halved(b, 25), Doubled(b, 7)) == Turn25(b) by {
      hide Halved, Doubled;
      HalvedBy(b);
      DoubledBy(b);
    }
    hide *;
    RotrBy(25, b, Turn25(b));
  }

  function Down3(b: bv32): bv32 { b >> 3 }

  lemma Down3Is(b: bv32)
    ensures Shr(3, Num(b)) == Num(Down3(b))
  {
    assert Halved(b, 3) == Down3(b) by {
      hide Halved;
      HalvedBy(b);
    }
    hide *;
    ShrIs(3, b);
  }

  function Down10(b: bv32): bv32 { b >> 10 }

  lemma Down10Is(b: bv32)
    ensures Shr(10, Num(b)) == Num(Down10(b))
  {
    assert Halved(b, 10) == Down10(b) by {
      hide Halved;
      HalvedBy(b);
    }
    hide *;
    ShrIs(10, b);
  }

  function BigSigma0Of(b: bv32): bv32 { Xor32(Xor32(Turn2(b), Turn13(b)), Turn22(b)) }

  lemma BigSigma0Is(b: bv32)
    ensures BigSigma0(Num(b)) == Num(BigSigma0Of(b))
  {
    hide Num, Rotr, Shr, Xor, Turn2, Turn13, Turn22, Xor32;
    Turn2Is(b);
    Turn13Is(b);
    Turn22Is(b);
    XorIs(Turn2(b), Turn13(b));
    XorIs(Xor32(Turn2(b), Turn13(b)), Turn22(b));
  }

  function BigSigma1Of(b: bv32): bv32 { Xor32(Xor32(Turn6(b), Turn11(b)), Turn25(b)) }

  lemma BigSigma1Is(b: bv32)
    ensures BigSigma1(Num(b)) == Num(BigSigma1Of(b))
  {
    hide Num, Rotr, Shr, Xor, Turn6, Turn11, Turn25, Xor32;
    Turn6Is(b);
    Turn11Is(b);
    Turn25Is(b);
    XorIs(Turn6(b), Turn11(b));
    XorIs(Xor32(Turn6(b), Turn11(b)), Turn25(b));
  }

  function Sigma0Of(b: bv32): bv32 { Xor32(Xor32(Turn7(b), Turn18(b)), Down3(b)) }

  lemma Sigma0Is(b: bv32)
    ensures Sigma0(Num(b)) == Num(Sigma0Of(b))
  {
    hide Num, Rotr, Shr, Xor, Turn7, Turn18, Down3, Xor32;
    Turn7Is(b);
    Turn18Is(b);
    Down3Is(b);
    XorIs(Turn7(b), Turn18(b));
    XorIs(Xor32(Turn7(b), Turn18(b)), Down3(b));
  }

  function Sigma1Of(b: bv32): bv32 { Xor32(Xor32(Turn17(b), Turn19(b)), Down10(b)) }

  lemma Sigma1Is(b: bv32)
    ensures Sigma1(Num(b)) == Num(Sigma1Of(b))
  {
    hide Num, Rotr, Shr, Xor, Turn17, Turn19, Down10, Xor32;
    Turn17Is(b);
    Turn19Is(b);
    Down10Is(b);
    XorIs(Turn17(b), Turn19(b));
    XorIs(Xor32(Turn17(b), Turn19(b)), Down10(b));
  }

  function ChOf(b: bv32, c: bv32, d: bv32): bv32 { Xor32(And32(b, c), And32(Not32(b), d)) }

  lemma ChIs(b: bv32, c: bv32, d: bv32)
    ensures Ch(Num(b), Num(c), Num(d)) == Num(ChOf(b, c, d))
  {
    hide Num, And, Not, Xor, And32, Not32, Xor32;
    NotIs(b);
    AndIs(b, c);
    AndIs(Not32(b), d);
    XorIs(And32(b, c), And32(Not32(b), d));
  }

  function MajOf(b: bv32, c: bv32, d: bv32): bv32 { Xor32(Xor32(And32(b, c), And32(b, d)), And32(c, d)) }

  lemma MajIs(b: bv32, c: bv32, d: bv32)
    ensures Maj(Num(b), Num(c), Num(d)) == Num(MajOf(b, c, d))
  {
    hide Num, And, Xor, And32, Xor32;
    AndIs(b, c);
    AndIs(b, d);
    AndIs(c, d);
    XorIs(And32(b, c), And32(b, d));
    XorIs(Xor32(And32(b, c), And32(b, d)), And32(c, d));
  }

  // ----- rounds -----

  datatype Eight = Eight(a: bv32, b: bv32, c: bv32, d: bv32, e: bv32, f: bv32, g: bv32, h: bv32) {
    function ToState(): State {
      State(Num(a), Num(b), Num(c), Num(d), Num(e), Num(f), Num(g), Num(h))
    }
  }

  /** The two sums of section 6.2.2. */
  function T1(s: Eight, k: bv32, w: bv32): bv32 {
    Plus32(Plus32(Plus32(Plus32(s.h, BigSigma1Of(s.e)), ChOf(s.e, s.f, s.g)), k), w)
  }

  function T2(s: Eight): bv32 { Plus32(BigSigma0Of(s.a), MajOf(s.a, s.b, s.c)) }

  function RoundOf(s: Eight, k: bv32, w: bv32): Eight {
    Eight(Plus32(T1(s, k, w), T2(s)), s.a, s.b, s.c, Plus32(s.d, T1(s, k, w)), s.e, s.f, s.g)
  }

  lemma RoundIs(s: Eight, k: bv32, w: bv32)
    ensures Round(s.ToState(), Num(k), Num(w)) == RoundOf(s, k, w).ToState()
  {
    hide Num, Add, BigSigma0, BigSigma1, Ch, Maj, BigSigma0Of, BigSigma1Of, ChOf, MajOf, Plus32;
    BigSigma0Is(s.a);
    BigSigma1Is(s.e);
    ChIs(s.e, s.f, s.g);
    MajIs(s.a, s.b, s.c);
    AddIs(s.h, BigSigma1Of(s.e));
    AddIs(Plus32(s.h, BigSigma1Of(s.e)), ChOf(s.e, s.f, s.g));
    AddIs(Plus32(Plus32(s.h, BigSigma1Of(s.e)), ChOf(s.e, s.f, s.g)), k);
    AddIs(Plus32(Plus32(Plus32(s.h, BigSigma1Of(s.e)), ChOf(s.e, s.f, s.g)), k), w);
    AddIs(BigSigma0Of(s.a), MajOf(s.a, s.b, s.c));
    AddIs(T1(s, k, w), T2(s));
    AddIs(s.d, T1(s, k, w));
  }

  // ----- values of vectors -----

  function NibbleOf(b: bv32): nat {
    (if b & 1 == 0 then 0 else 1) + (if b & 2 == 0 then 0 else 2)
    + (if b & 4 == 0 then 0 else 4) + (if b & 8 == 0 then 0 else 8)
  }

  function ByteOf(b: bv32): nat {
    (if b & 1 == 0 then 0 else 1) + (if b & 2 == 0 then 0 else 2)
    + (if b & 4 == 0 then 0 else 4) + (if b & 8 == 0 then 0 else 8)
    + (if b & 16 == 0 then 0 else 16) + (if b & 32 == 0 then 0 else 32)
    + (if b & 64 == 0 then 0 else 64) + (if b & 128 == 0 then 0 else 128)
  }

  function Down4(b: bv32): bv32 { b >> 4 }

  function Down8(b: bv32): bv32 { b >> 8 }

  lemma NibbleBits(b: bv32)
    ensures b & 1 == 0 <==> !IsOdd(b)
    ensures Half(b) == b >> 1 && (b & 2 == 0 <==> !IsOdd(b >> 1))
    ensures Half(b >> 1) == b >> 2 && (b & 4 == 0 <==> !IsOdd(b >> 2))
    ensures Half(b >> 2) == b >> 3 && (b & 8 == 0 <==> !IsOdd(b >> 3))
    ensures Half(b >> 3) == Down4(b)
  {
  }

  lemma LowNibble(b: bv32, n: nat)
    requires n >= 4
    ensures Low(b, n) == NibbleOf(b) + 16 * Low(Down4(b), n - 4)
  {
    hide IsOdd, Half, Low, Down4;
    NibbleBits(b);
    LowMore(b, n);
    LowMore(b >> 1, n - 1);
    LowMore(b >> 2, n - 2);
    LowMore(b >> 3, n - 3);
  }

  lemma TwoNibbles(b: bv32)
    ensures Down4(Down4(b)) == Down8(b)
    ensures (Down4(b) & 1 == 0 <==> b & 16 == 0) && (Down4(b) & 2 == 0 <==> b & 32 == 0)
    ensures (Down4(b) & 4 == 0 <==> b & 64 == 0) && (Down4(b) & 8 == 0 <==> b & 128 == 0)
  {
  }

  lemma NibblesOfByte(b: bv32)
    ensures ByteOf(b) == NibbleOf(b) + 16 * NibbleOf(Down4(b))
  {
    hide Down4;
    TwoNibbles(b);
  }

  lemma LowByte(b: bv32, n: nat)
    requires n >= 8
    ensures Low(b, n) == ByteOf(b) + 256 * Low(Down8(b), n - 8)
  {
    hide *;
    LowNibble(b, n);
    LowNibble(Down4(b), n - 4);
    TwoNibbles(b);
    NibblesOfByte(b);
  }

  function Value(b: bv32): nat {
    var b1 := Down8(b);
    var b2 := Down8(b1);
    ByteOf(b) + 256 * (ByteOf(b1) + 256 * (ByteOf(b2) + 256 * ByteOf(Down8(b2))))
  }

  lemma ValueIs(b: bv32)
    ensures Num(b) == Value(b)
  {
    hide Low, ByteOf, Down8;
    LowByte(b, 32);
    LowByte(Down8(b), 24);
    LowByte(Down8(Down8(b)), 16);
    LowByte(Down8(Down8(Down8(b))), 8);
    LowNone(Down8(Down8(Down8(Down8(b)))));
  }
}
