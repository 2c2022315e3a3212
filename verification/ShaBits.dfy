/**
 What the operations of Sha256 do to single bits: sections 2.2.2, 3.2 and 4.1.2 of FIPS 180-4,
 said of the numbers 0 and 1.
 */
module ShaBits {
  import opened Powers
  import opened Sha256

  /** Bit i of x, the lowest being bit 0. */
  function Bit(i: nat, x: nat): (b: nat)
    ensures b < 2
  {
    Shift(i, x) % 2
  }

  lemma {:induction false} BitwiseBit(op: BitOp, x: nat, y: nat, n: nat, i: nat)
    requires i < n
    ensures Bit(i, Bitwise(op, x, y, n)) == if op.On(Bit(i, x) == 1, Bit(i, y) == 1) then 1 else 0
  {
    if i > 0 { BitwiseBit(op, x / 2, y / 2, n - 1, i - 1); }
  }

  lemma XorBit(x: Word, y: Word, i: nat)
    requires i < 32
    ensures Bit(i, Xor(x, y)) == (Bit(i, x) + Bit(i, y)) % 2
  {
    BitwiseBit(XorOp, x, y, 32, i);
  }

  lemma AndBit(x: Word, y: Word, i: nat)
    requires i < 32
    ensures Bit(i, And(x, y)) == if Bit(i, x) == 1 && Bit(i, y) == 1 then 1 else 0
  {
    BitwiseBit(AndOp, x, y, 32, i);
  }

  lemma OrBit(x: Word, y: Word, i: nat)
    requires i < 32
    ensures Bit(i, Or(x, y)) == if Bit(i, x) == 0 && Bit(i, y) == 0 then 0 else 1
  {
    BitwiseBit(OrOp, x, y, 32, i);
  }

  lemma {:induction false} ComplementBit(x: nat, n: nat, i: nat)
    requires i < n && x < Pow2(n)
    ensures Bit(i, Pow2(n) - 1 - x) == 1 - Bit(i, x)
  {
    if i > 0 {
      assert (Pow2(n) - 1 - x) / 2 == Pow2(n - 1) - 1 - x / 2;
      ComplementBit(x / 2, n - 1, i - 1);
    }
  }

  lemma NotBit(x: Word, i: nat)
    requires i < 32
    ensures Bit(i, Not(x)) == 1 - Bit(i, x)
  {
    Pow2Values();
    ComplementBit(x, 32, i);
  }

  lemma {:induction false} ShiftTwice(m: nat, n: nat, x: nat)
    ensures Shift(m, Shift(n, x)) == Shift(m + n, x)
  {
    if n > 0 { ShiftTwice(m, n - 1, x / 2); }
  }

  /** There is nothing above bit 31 of a word. */
  lemma {:induction false} HighBit(x: nat, n: nat, i: nat)
    requires x < Pow2(n) && n <= i
    ensures Bit(i, x) == 0
  {
    if i > 0 { HighBit(x / 2, if n == 0 then 0 else n - 1, i - 1); }
  }

  lemma BitUp(x: nat, i: nat)
    ensures Bit(i, x) == if i == 0 then x % 2 else Bit(i - 1, x / 2)
  {
  }

  /** The n low bits. */
  function Rest(x: nat, n: nat): nat {
    if n == 0 then 0 else x % 2 + 2 * Rest(x / 2, n - 1)
  }

  lemma RestHalves(x: nat, n: nat)
    requires n > 0
    ensures Rest(x, n) % 2 == x % 2 && Rest(x, n) / 2 == Rest(x / 2, n - 1)
  {
    assert Rest(x, n) == x % 2 + 2 * Rest(x / 2, n - 1);
    hide *;
    TwoParts(x % 2, Rest(x / 2, n - 1));
  }

  lemma TwoParts(b: nat, y: nat)
    requires b < 2
    ensures (b + 2 * y) % 2 == b && (b + 2 * y) / 2 == y
  {
  }

  function Modulo(x: nat, d: nat): nat
    requires d > 0
  {
    x % d
  }

  lemma RestUp(x: nat, p: nat, d: nat)
    requires p > 0 && d == 2 * p
    ensures Modulo(x, d) == x % 2 + 2 * Modulo(x / 2, p)
  {
    var s := x / 2;
    var q := s / p;
    var qp := q * p;
    Quotient(s, p, q, s % p, qp);
    Twice(q, p, d, qp, q * d);
    Remainder(x, d, q, 2 * qp, x % 2 + 2 * (s % p));
  }

  lemma Quotient(x: nat, d: nat, q: nat, r: nat, qd: nat)
    requires d > 0 && q == x / d && r == x % d && qd == q * d
    ensures x == qd + r && r < d
  {
  }

  lemma Twice(q: nat, p: nat, d: nat, qp: nat, qd: nat)
    requires d == 2 * p && qp == q * p && qd == q * d
    ensures qd == 2 * qp
  {
  }

  lemma {:induction false} RestIs(x: nat, n: nat)
    ensures Modulo(x, Pow2(n)) == Rest(x, n)
  {
    if n > 0 {
      hide Modulo;
      RestIs(x / 2, n - 1);
      RestUp(x, Pow2(n - 1), Pow2(n));
    }
  }

  lemma {:induction false} RestBits(x: nat, n: nat, i: nat)
    requires i < n
    ensures Bit(i, Rest(x, n)) == Bit(i, x)
  {
    hide *;
    RestHalves(x, n);
    BitUp(x, i);
    BitUp(Rest(x, n), i);
    if i > 0 { RestBits(x / 2, n - 1, i - 1); }
  }

  lemma LowBits(x: nat, n: nat, i: nat)
    requires i < n
    ensures Bit(i, x % Pow2(n)) == Bit(i, x)
  {
    RestIs(x, n);
    assert Modulo(x, Pow2(n)) == x % Pow2(n);
    hide *;
    RestBits(x, n, i);
  }

  lemma Remainder(x: nat, p: nat, q: nat, qp: nat, r: nat)
    requires p > 0 && qp == q * p && x == qp + r && r < p
    ensures x % p == r
  {
    var k := x / p;
    var kp := k * p;
    assert x == kp + x % p;
    if k < q { Further(k, q, p, kp, qp); } else if q < k { Further(q, k, p, qp, kp); }
  }

  lemma Further(k: nat, q: nat, p: nat, kp: nat, qp: nat)
    requires k < q && kp == k * p && qp == q * p
    ensures kp + p <= qp
  {
    Upto(k + 1, q, p);
    assert (k + 1) * p == kp + p;
  }

  lemma Upto(a: nat, b: nat, p: nat)
    requires a <= b
    ensures a * p <= b * p
  {
  }

  lemma DoubleBit(x: nat, i: nat)
    ensures Bit(i, 2 * x) == if i == 0 then 0 else Bit(i - 1, x)
  {
  }

  lemma {:induction false} ShlBit(n: nat, x: Word, i: nat)
    requires i < 32
    ensures Bit(i, Shl(n, x)) == if i < n then 0 else Bit(i - n, x)
  {
    if n > 0 {
      var y := (2 * x) % 0x1_0000_0000;
      assert Shl(n, x) == Shl(n - 1, y) && Pow2(32) == 0x1_0000_0000 by { Pow2Values(); }
      hide *;
      ShlBit(n - 1, y, i);
      if i >= n - 1 {
        LowBits(2 * x, 32, i - (n - 1));
        DoubleBit(x, i - (n - 1));
      }
    }
  }

  /** ROTR moves bit (i + n) mod 32 to place i. */
  lemma RotrBit(n: nat, x: Word, i: nat)
    requires n <= 32 && i < 32
    ensures Bit(i, Rotr(n, x)) == Bit((i + n) % 32, x)
  {
    assert Rotr(n, x) == Or(Shr(n, x), Shl(32 - n, x));
    hide *;
    OrBit(Shr(n, x), Shl(32 - n, x), i);
    ShrBit(n, x, i);
    ShlBit(32 - n, x, i);
    Wrapped(i, n);
  }

  lemma Wrapped(i: nat, n: nat)
    requires i < 32 && n <= 32
    ensures (i + n) % 32 == if i + n < 32 then i + n else i + n - 32
  {
  }

  lemma ShrBit(n: nat, x: Word, i: nat)
    ensures Bit(i, Shr(n, x)) == if i + n < 32 then Bit(i + n, x) else 0
  {
    ShiftTwice(i, n, x);
    Pow2Values();
    if i + n >= 32 { HighBit(x, 32, i + n); }
  }

  // ----- section 4.1.2, bit by bit -----

  /** Ch chooses: y where x is set, z where it is not. */
  lemma ChBit(x: Word, y: Word, z: Word, i: nat)
    requires i < 32
    ensures Bit(i, Ch(x, y, z)) == if Bit(i, x) == 1 then Bit(i, y) else Bit(i, z)
  {
    XorBit(And(x, y), And(Not(x), z), i);
    AndBit(x, y, i);
    AndBit(Not(x), z, i);
    NotBit(x, i);
  }

  /** Maj is the majority. */
  lemma MajBit(x: Word, y: Word, z: Word, i: nat)
    requires i < 32
    ensures Bit(i, Maj(x, y, z)) == if Bit(i, x) + Bit(i, y) + Bit(i, z) >= 2 then 1 else 0
  {
    XorBit(Xor(And(x, y), And(x, z)), And(y, z), i);
    XorBit(And(x, y), And(x, z), i);
    AndBit(x, y, i);
    AndBit(x, z, i);
    AndBit(y, z, i);
  }

  lemma Xor3Bit(x: Word, y: Word, z: Word, i: nat)
    requires i < 32
    ensures Bit(i, Xor(Xor(x, y), z)) == (Bit(i, x) + Bit(i, y) + Bit(i, z)) % 2
  {
    XorBit(Xor(x, y), z, i);
    XorBit(x, y, i);
  }

  /** The four sigmas are sums modulo 2 of three bits of the word. */
  lemma SigmaBits(x: Word, i: nat)
    requires i < 32
    ensures Bit(i, BigSigma0(x)) == (Bit((i + 2) % 32, x) + Bit((i + 13) % 32, x) + Bit((i + 22) % 32, x)) % 2
    ensures Bit(i, BigSigma1(x)) == (Bit((i + 6) % 32, x) + Bit((i + 11) % 32, x) + Bit((i + 25) % 32, x)) % 2
    ensures Bit(i, Sigma0(x)) == (Bit((i + 7) % 32, x) + Bit((i + 18) % 32, x) + if i < 29 then Bit(i + 3, x) else 0) % 2
    ensures Bit(i, Sigma1(x)) == (Bit((i + 17) % 32, x) + Bit((i + 19) % 32, x) + if i < 22 then Bit(i + 10, x) else 0) % 2
  {
    hide Bit, Rotr, Shr, Xor;
    Xor3Bit(Rotr(2, x), Rotr(13, x), Rotr(22, x), i);
    Xor3Bit(Rotr(6, x), Rotr(11, x), Rotr(25, x), i);
    Xor3Bit(Rotr(7, x), Rotr(18, x), Shr(3, x), i);
    Xor3Bit(Rotr(17, x), Rotr(19, x), Shr(10, x), i);
    RotrBit(2, x, i);
    RotrBit(13, x, i);
    RotrBit(22, x, i);
    RotrBit(6, x, i);
    RotrBit(11, x, i);
    RotrBit(25, x, i);
    RotrBit(7, x, i);
    RotrBit(18, x, i);
    ShrBit(3, x, i);
    RotrBit(17, x, i);
    RotrBit(19, x, i);
    ShrBit(10, x, i);
  }
}
