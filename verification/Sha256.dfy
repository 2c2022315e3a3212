/**
 SHA-256 as FIPS 180-4 defines it. Words and bytes are numbers below 2^32 and 2^8.
 */
module Sha256 {
  import opened Powers

  type Word = x: nat | x < 0x1_0000_0000
  type Byte = x: nat | x < 0x100

  // ----- operations on words (sections 2.2.2 and 3.2) -----

  datatype BitOp = AndOp | OrOp | XorOp {
    function On(x: bool, y: bool): bool {
      match this
      case AndOp => x && y
      case OrOp => x || y
      case XorOp => x != y
    }
  }

  /** Bit by bit, on the n low bits. */
  function Bitwise(op: BitOp, x: nat, y: nat, n: nat): (r: nat)
    ensures r < Pow2(n)
  {
    if n == 0 then 0
    else (if op.On(x % 2 == 1, y % 2 == 1) then 1 else 0) + 2 * Bitwise(op, x / 2, y / 2, n - 1)
  }

  function OnWords(op: BitOp, x: Word, y: Word): Word {
    Pow2Values();
    Bitwise(op, x, y, 32)
  }

  function And(x: Word, y: Word): Word { OnWords(AndOp, x, y) }

  function Or(x: Word, y: Word): Word { OnWords(OrOp, x, y) }

  function Xor(x: Word, y: Word): Word { OnWords(XorOp, x, y) }

  function Not(x: Word): Word { 0xFFFF_FFFF - x }

  function Add(x: Word, y: Word): Word { (x + y) % 0x1_0000_0000 }

  /** x >> n. */
  function Shift(n: nat, x: nat): (y: nat)
    ensures y <= x
  {
    if n == 0 then x else Shift(n - 1, x / 2)
  }

  function Shr(n: nat, x: Word): Word { Shift(n, x) }

  function Shl(n: nat, x: Word): Word {
    if n == 0 then x else Shl(n - 1, (2 * x) % 0x1_0000_0000)
  }

  function Rotr(n: nat, x: Word): Word
    requires n <= 32
  {
    Or(Shr(n, x), Shl(32 - n, x))
  }

  // ----- the functions of section 4.1.2 -----

  function Ch(x: Word, y: Word, z: Word): Word { Xor(And(x, y), And(Not(x), z)) }

  function Maj(x: Word, y: Word, z: Word): Word { Xor(Xor(And(x, y), And(x, z)), And(y, z)) }

  function BigSigma0(x: Word): Word { Xor(Xor(Rotr(2, x), Rotr(13, x)), Rotr(22, x)) }

  function BigSigma1(x: Word): Word { Xor(Xor(Rotr(6, x), Rotr(11, x)), Rotr(25, x)) }

  function Sigma0(x: Word): Word { Xor(Xor(Rotr(7, x), Rotr(18, x)), Shr(3, x)) }

  function Sigma1(x: Word): Word { Xor(Xor(Rotr(17, x), Rotr(19, x)), Shr(10, x)) }

  // ----- the constants of sections 4.2.2 and 5.3.3 -----

  function KRow(i: nat): (row: seq<Word>)
    requires i < 8
    ensures |row| == 8
  {
    match i
    case 0 => [0x428a2f98, 0x71374491, 0xb5c0fbcf, 0xe9b5dba5, 0x3956c25b, 0x59f111f1, 0x923f82a4, 0xab1c5ed5]
    case 1 => [0xd807aa98, 0x12835b01, 0x243185be, 0x550c7dc3, 0x72be5d74, 0x80deb1fe, 0x9bdc06a7, 0xc19bf174]
    case 2 => [0xe49b69c1, 0xefbe4786, 0x0fc19dc6, 0x240ca1cc, 0x2de92c6f, 0x4a7484aa, 0x5cb0a9dc, 0x76f988da]
    case 3 => [0x983e5152, 0xa831c66d, 0xb00327c8, 0xbf597fc7, 0xc6e00bf3, 0xd5a79147, 0x06ca6351, 0x14292967]
    case 4 => [0x27b70a85, 0x2e1b2138, 0x4d2c6dfc, 0x53380d13, 0x650a7354, 0x766a0abb, 0x81c2c92e, 0x92722c85]
    case 5 => [0xa2bfe8a1, 0xa81a664b, 0xc24b8b70, 0xc76c51a3, 0xd192e819, 0xd6990624, 0xf40e3585, 0x106aa070]
    case 6 => [0x19a4c116, 0x1e376c08, 0x2748774c, 0x34b0bcb5, 0x391c0cb3, 0x4ed8aa4a, 0x5b9cca4f, 0x682e6ff3]
    case 7 => [0x748f82ee, 0x78a5636f, 0x84c87814, 0x8cc70208, 0x90befffa, 0xa4506ceb, 0xbef9a3f7, 0xc67178f2]
  }

  function K(t: nat): Word
    requires t < 64
  {
    KRow(t / 8)[t % 8]
  }

  function InitialHash(): State {
    State(0x6a09e667, 0xbb67ae85, 0x3c6ef372, 0xa54ff53a, 0x510e527f, 0x9b05688c, 0x1f83d9ab, 0x5be0cd19)
  }

  // ----- where the constants come from -----

  function PrimeRow(i: nat): (row: seq<nat>)
    requires i < 8
    ensures |row| == 8
  {
    match i
    case 0 => [2, 3, 5, 7, 11, 13, 17, 19]
    case 1 => [23, 29, 31, 37, 41, 43, 47, 53]
    case 2 => [59, 61, 67, 71, 73, 79, 83, 89]
    case 3 => [97, 101, 103, 107, 109, 113, 127, 131]
    case 4 => [137, 139, 149, 151, 157, 163, 167, 173]
    case 5 => [179, 181, 191, 193, 197, 199, 211, 223]
    case 6 => [227, 229, 233, 239, 241, 251, 257, 263]
    case 7 => [269, 271, 277, 281, 283, 293, 307, 311]
  }

  function Prime(t: nat): nat
    requires t < 64
  {
    PrimeRow(t / 8)[t % 8]
  }

  function Cube(x: nat): nat { x * x * x }

  /** k holds the first 32 bits of the fractional part of the cube root of p, whose whole part
      is given. */
  predicate CubeRootBits(p: nat, whole: nat, k: nat) {
    Cube(whole * 0x1_0000_0000 + k) <= p * 0x1_0000_0000_0000_0000_0000_0000 < Cube(whole * 0x1_0000_0000 + k + 1)
  }

  function WholeCubeRoot(p: nat): nat {
    if p < 8 then 1 else if p < 27 then 2 else if p < 64 then 3 else if p < 125 then 4 else if p < 216 then 5 else 6
  }

  lemma FirstRowsAreCubeRoots(i: nat, j: nat)
    requires 0 <= i < 2 && j < 8
    ensures CubeRootBits(PrimeRow(i)[j], WholeCubeRoot(PrimeRow(i)[j]), KRow(i)[j])
  {
  }

  lemma SecondRowsAreCubeRoots(i: nat, j: nat)
    requires 2 <= i < 4 && j < 8
    ensures CubeRootBits(PrimeRow(i)[j], WholeCubeRoot(PrimeRow(i)[j]), KRow(i)[j])
  {
  }

  lemma ThirdRowsAreCubeRoots(i: nat, j: nat)
    requires 4 <= i < 6 && j < 8
    ensures CubeRootBits(PrimeRow(i)[j], WholeCubeRoot(PrimeRow(i)[j]), KRow(i)[j])
  {
  }

  lemma LastRowsAreCubeRoots(i: nat, j: nat)
    requires 6 <= i < 8 && j < 8
    ensures CubeRootBits(PrimeRow(i)[j], WholeCubeRoot(PrimeRow(i)[j]), KRow(i)[j])
  {
  }

  /** The table is the one section 4.2.2 describes. */
  lemma ConstantsAreCubeRoots(t: nat)
    requires t < 64
    ensures CubeRootBits(Prime(t), WholeCubeRoot(Prime(t)), K(t))
  {
    hide CubeRootBits, PrimeRow, KRow;
    var i, j := t / 8, t % 8;
    if i < 2 {
      FirstRowsAreCubeRoots(i, j);
    } else if i < 4 {
      SecondRowsAreCubeRoots(i, j);
    } else if i < 6 {
      ThirdRowsAreCubeRoots(i, j);
    } else {
      LastRowsAreCubeRoots(i, j);
    }
  }

  /** h holds the first 32 bits of the fractional part of the square root of p. */
  predicate SquareRootBits(p: nat, whole: nat, h: nat) {
    var r := whole * 0x1_0000_0000 + h;
    r * r <= p * 0x1_0000_0000 * 0x1_0000_0000 < (r + 1) * (r + 1)
  }

  lemma InitialHashIsSquareRoots()
    ensures var h := InitialHash();
            && SquareRootBits(2, 1, h.a) && SquareRootBits(3, 1, h.b) && SquareRootBits(5, 2, h.c)
            && SquareRootBits(7, 2, h.d) && SquareRootBits(11, 3, h.e) && SquareRootBits(13, 3, h.f)
            && SquareRootBits(17, 4, h.g) && SquareRootBits(19, 4, h.h)
  {
  }

  // ----- padding (section 5.1.1) -----

  function Zeros(n: nat): (z: seq<Byte>)
    ensures |z| == n && forall i :: 0 <= i < n ==> z[i] == 0
  {
    seq(n, i => 0)
  }

  /** How many blocks a padded message of len bytes fills. */
  function BlockCount(len: nat): nat {
    (len + 72) / 64
  }

  /** The least number of zero bytes that leaves room for exactly the length. */
  function ZeroCount(len: nat): (k: nat)
    ensures len + 1 + k + 8 == 64 * BlockCount(len) && k < 64
  {
    64 * BlockCount(len) - len - 9
  }

  function BigEndian(x: nat, n: nat): (s: seq<Byte>)
    ensures |s| == n
  {
    if n == 0 then [] else BigEndian(x / 256, n - 1) + [x % 256]
  }

  /** For a message of fewer than 2^61 bytes. */
  function Pad(m: seq<Byte>): (p: seq<Byte>)
    ensures |p| == 64 * BlockCount(|m|)
  {
    m + [0x80] + Zeros(ZeroCount(|m|)) + BigEndian(8 * |m|, 8)
  }

  // ----- the computation (section 6.2.2) -----

  datatype State = State(a: Word, b: Word, c: Word, d: Word, e: Word, f: Word, g: Word, h: Word)

  function FourBytes(b0: nat, b1: nat, b2: nat, b3: nat): Word
    requires b0 < 256 && b1 < 256 && b2 < 256 && b3 < 256
  {
    ((b0 * 256 + b1) * 256 + b2) * 256 + b3
  }

  function Words(s: State): (w: seq<Word>)
    ensures |w| == 8
  {
    [s.a, s.b, s.c, s.d, s.e, s.f, s.g, s.h]
  }

  function WordAt(block: seq<Byte>, i: nat): Word
    requires i + 4 <= |block|
  {
    FourBytes(block[i], block[i + 1], block[i + 2], block[i + 3])
  }

  /** The message schedule. */
  function W(block: seq<Byte>, t: nat): Word
    requires |block| == 64 && t < 64
  {
    if t < 16 then WordAt(block, 4 * t)
    else Add(Add(Add(Sigma1(W(block, t - 2)), W(block, t - 7)), Sigma0(W(block, t - 15))), W(block, t - 16))
  }

  function Round(s: State, k: Word, w: Word): State {
    var t1 := Add(Add(Add(Add(s.h, BigSigma1(s.e)), Ch(s.e, s.f, s.g)), k), w);
    var t2 := Add(BigSigma0(s.a), Maj(s.a, s.b, s.c));
    State(Add(t1, t2), s.a, s.b, s.c, Add(s.d, t1), s.e, s.f, s.g)
  }

  function Rounds(s: State, block: seq<Byte>, t: nat): State
    requires |block| == 64 && t <= 64
  {
    if t == 0 then s else Round(Rounds(s, block, t - 1), K(t - 1), W(block, t - 1))
  }

  function AddStates(x: State, y: State): State {
    State(Add(x.a, y.a), Add(x.b, y.b), Add(x.c, y.c), Add(x.d, y.d),
          Add(x.e, y.e), Add(x.f, y.f), Add(x.g, y.g), Add(x.h, y.h))
  }

  function Compress(s: State, block: seq<Byte>): State
    requires |block| == 64
  {
    AddStates(Rounds(s, block, 64), s)
  }

  /** The first n blocks of m, in order. */
  function Blocks(s: State, m: seq<Byte>, n: nat): State
    requires 64 * n <= |m|
  {
    if n == 0 then s else Compress(Blocks(s, m, n - 1), m[64 * (n - 1)..64 * n])
  }

  function Digest(m: seq<Byte>): State {
    Blocks(InitialHash(), Pad(m), BlockCount(|m|))
  }

  /** The padded message: the message, a one bit, zeros and the length in bits, in the fewest
      blocks. */
  lemma PadIs(m: seq<Byte>)
    ensures var p := Pad(m);
            && |p| % 64 == 0 && |m| + 9 <= |p| < |m| + 73
            && p[..|m|] == m && p[|m|] == 128 && (forall i :: |m| < i < |p| - 8 ==> p[i] == 0)
            && p[|p| - 8..] == BigEndian(8 * |m|, 8)
  {
    hide BigEndian;
    var p := Pad(m);
    assert p == m + ([128] + Zeros(ZeroCount(|m|)) + BigEndian(8 * |m|, 8));
    assert p == (m + [128] + Zeros(ZeroCount(|m|))) + BigEndian(8 * |m|, 8);
  }

  /** Block by block, each starting from what the ones before it left. */
  lemma {:induction false} BlocksChain(s: State, a: seq<Byte>, b: seq<Byte>, n: nat, k: nat)
    requires |a| == 64 * n && 64 * k <= |b|
    ensures Blocks(s, a + b, n + k) == Blocks(Blocks(s, a, n), b, k)
    ensures k == 1 ==> Blocks(s, b, k) == Compress(s, b[..64])
  {
    hide Compress;
    var m := a + b;
    if k == 0 {
      BlocksOfLonger(s, a, m, n);
    } else {
      BlocksChain(s, a, b, n, k - 1);
      assert m[64 * (n + k - 1)..64 * (n + k)] == b[64 * (k - 1)..64 * k];
      if k == 1 { assert b[0..64] == b[..64]; }
    }
  }

  // ----- laws used by both implementations -----

  lemma AddSum(x: nat, y: Word)
    ensures Add(x % 0x1_0000_0000, y) == (x + y) % 0x1_0000_0000
  {
    var q := x / 0x1_0000_0000;
    assert x == q * 0x1_0000_0000 + x % 0x1_0000_0000;
  }

  lemma AddReorders(a: Word, b: Word, c: Word, d: Word)
    ensures Add(Add(Add(a, b), c), d) == Add(Add(Add(d, c), b), a)
  {
    AddSum(a + b, c);
    AddSum(a + b + c, d);
    AddSum(d + c, b);
    AddSum(d + c + b, a);
  }

  /** Blocks already there do not depend on what follows. */
  lemma {:induction false} BlocksOfLonger(s: State, m: seq<Byte>, t: seq<Byte>, n: nat)
    requires 64 * n <= |m| && m <= t
    ensures Blocks(s, t, n) == Blocks(s, m, n)
  {
    hide Compress;
    if n > 0 {
      BlocksOfLonger(s, m, t, n - 1);
      assert m[64 * (n - 1)..64 * n] == t[64 * (n - 1)..64 * n];
    }
  }

  lemma ShiftEight(n: nat, x: nat)
    ensures Shift(n + 8, x) == Shift(n, x / 256)
  {
    var y := x / 2 / 2 / 2 / 2;
    assert Shift(n + 8, x) == Shift(n + 4, y) by {
      assert Shift(n + 8, x) == Shift(n + 7, x / 2) == Shift(n + 6, x / 2 / 2) == Shift(n + 5, x / 2 / 2 / 2);
    }
    var z := y / 2 / 2 / 2 / 2;
    assert Shift(n + 4, y) == Shift(n, z) by {
      assert Shift(n + 4, y) == Shift(n + 3, y / 2) == Shift(n + 2, y / 2 / 2) == Shift(n + 1, y / 2 / 2 / 2);
    }
    assert z == x / 256;
  }

  lemma {:induction false} BigEndianAt(x: nat, n: nat, i: nat)
    requires i < n
    ensures BigEndian(x, n)[i] == Shift(8 * (n - 1 - i), x) % 256
  {
    if i < n - 1 {
      BigEndianAt(x / 256, n - 1, i);
      ShiftEight(8 * (n - 2 - i), x);
    }
  }

  lemma ShiftByBytes(x: nat)
    ensures Shift(8, x) == x / 256 && Shift(16, x) == x / 256 / 256 && Shift(24, x) == x / 256 / 256 / 256
  {
    hide Shift;
    ShiftNone(x / 256);
    ShiftNone(x / 256 / 256);
    ShiftNone(x / 256 / 256 / 256);
    ShiftEight(0, x);
    ShiftEight(8, x);
    ShiftEight(0, x / 256);
    ShiftEight(16, x);
    ShiftEight(8, x / 256);
    ShiftEight(0, x / 256 / 256);
  }

  lemma ShiftNone(x: nat)
    ensures Shift(0, x) == x
  {
  }

  /** The four bytes of a word. */
  lemma BytesOfWord(x: Word)
    ensures FourBytes(Shift(24, x) % 256, Shift(16, x) % 256, Shift(8, x) % 256, Shift(0, x) % 256) == x
  {
    hide *;
    ShiftNone(x);
    ShiftByBytes(x);
    FourBytesOf(x, x / 256, x / 256 / 256, x / 256 / 256 / 256);
  }

  lemma FourBytesOf(x: Word, x1: nat, x2: nat, x3: nat)
    requires x1 == x / 256 && x2 == x1 / 256 && x3 == x2 / 256
    ensures FourBytes(x3 % 256, x2 % 256, x1 % 256, x % 256) == x
  {
    assert x == x1 * 256 + x % 256;
    assert x1 == x2 * 256 + x1 % 256;
    assert x2 == x3 * 256 + x2 % 256;
    assert x3 < 256;
  }
}
