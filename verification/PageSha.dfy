/**
 The one-shot hash of web/static/app.js. Its numbers are signed or unsigned 32-bit integers
 depending on the last operator, so here a number is an int and >>> 0 makes it a word.
 */
module PageSha {
  import opened Powers
  import opened Sha256

  // ----- numbers of the page -----

  /** ToUint32: what >>> 0, a Uint32Array and the operand of a bitwise operator make of x. */
  function U32(x: int): Word { x % 0x1_0000_0000 }

  /** The signed number that a bitwise operator other than >>> yields. */
  function I32(w: Word): int {
    if w < 0x8000_0000 then w else w - 0x1_0000_0000
  }

  function JsAnd(x: int, y: int): int { I32(And(U32(x), U32(y))) }

  function JsOr(x: int, y: int): int { I32(Or(U32(x), U32(y))) }

  function JsXor(x: int, y: int): int { I32(Xor(U32(x), U32(y))) }

  function JsNot(x: int): int { I32(Not(U32(x))) }

  function JsShl(x: int, n: nat): int { I32(Shl(n, U32(x))) }

  function JsShr(x: int, n: nat): Word { Shr(n, U32(x)) }

  /** rotr(). */
  function JsRotr(x: int, n: nat): Word
    requires n <= 32
  {
    U32(JsOr(JsShr(x, n), JsShl(x, 32 - n)))
  }

  lemma RoundTrip(w: Word)
    ensures U32(I32(w)) == w && U32(w) == w
  {
  }

  lemma RotrIs(w: Word, n: nat)
    requires n <= 32
    ensures JsRotr(w, n) == Rotr(n, w)
  {
    hide Shr, Shl, Or;
    RoundTrip(w);
    RoundTrip(Shr(n, w));
    RoundTrip(Shl(32 - n, w));
    RoundTrip(Or(Shr(n, w), Shl(32 - n, w)));
  }

  /** A chain of two xors on words. */
  lemma Xor3Is(x: Word, y: Word, z: Word)
    ensures U32(JsXor(JsXor(x, y), z)) == Xor(Xor(x, y), z)
  {
    hide Xor;
    RoundTrip(x);
    RoundTrip(y);
    RoundTrip(z);
    RoundTrip(Xor(x, y));
    RoundTrip(Xor(Xor(x, y), z));
  }

  function JsCh(e: int, f: int, g: int): int { JsXor(JsAnd(e, f), JsAnd(JsNot(e), g)) }

  lemma ChIs(e: Word, f: Word, g: Word)
    ensures U32(JsCh(e, f, g)) == Ch(e, f, g)
  {
    hide Xor, And, Not;
    RoundTrip(e);
    RoundTrip(f);
    RoundTrip(g);
    RoundTrip(Not(e));
    RoundTrip(And(e, f));
    RoundTrip(And(Not(e), g));
    RoundTrip(Xor(And(e, f), And(Not(e), g)));
  }

  function JsMaj(a: int, b: int, c: int): int { JsXor(JsXor(JsAnd(a, b), JsAnd(a, c)), JsAnd(b, c)) }

  lemma MajIs(a: Word, b: Word, c: Word)
    ensures U32(JsMaj(a, b, c)) == Maj(a, b, c)
  {
    hide Xor, And;
    RoundTrip(a);
    RoundTrip(b);
    RoundTrip(c);
    RoundTrip(And(a, b));
    RoundTrip(And(a, c));
    RoundTrip(And(b, c));
    RoundTrip(Xor(And(a, b), And(a, c)));
    RoundTrip(Xor(Xor(And(a, b), And(a, c)), And(b, c)));
  }

  // ----- sums -----

  lemma SumMod(x: int, y: int)
    ensures U32(x + y) == Add(U32(x), U32(y))
  {
    var p, q := x / 0x1_0000_0000, y / 0x1_0000_0000;
    assert x == p * 0x1_0000_0000 + U32(x) && y == q * 0x1_0000_0000 + U32(y);
    assert x + y == (p + q) * 0x1_0000_0000 + (U32(x) + U32(y));
    WholeTurns(p + q, U32(x) + U32(y));
  }

  lemma WholeTurns(k: int, r: nat)
    ensures U32(k * 0x1_0000_0000 + r) == U32(r)
  {
  }

  /** Four terms, added up left to right and cut to a word at the end. */
  lemma Sum4(x: int, y: int, z: int, t: int)
    ensures U32(x + y + z + t) == Add(Add(Add(U32(x), U32(y)), U32(z)), U32(t))
  {
    hide U32, Add;
    SumMod(x, y);
    SumMod(x + y, z);
    SumMod(x + y + z, t);
  }

  lemma Sum5(x: int, y: int, z: int, t: int, u: int)
    ensures U32(x + y + z + t + u) == Add(Add(Add(Add(U32(x), U32(y)), U32(z)), U32(t)), U32(u))
  {
    hide U32, Add;
    Sum4(x, y, z, t);
    SumMod(x + y + z + t, u);
  }

  // ----- one block -----

  /** rotr(x, r) ^ rotr(x, s) ^ z. */
  function Twisted(x: int, r: nat, s: nat, z: int): int
    requires r <= 32 && s <= 32
  {
    JsXor(JsXor(JsRotr(x, r), JsRotr(x, s)), z)
  }

  lemma TwistedIs(w: Word, r: nat, s: nat, z: Word)
    requires r <= 32 && s <= 32
    ensures U32(Twisted(w, r, s, z)) == Xor(Xor(Rotr(r, w), Rotr(s, w)), z)
  {
    hide JsRotr, Rotr, JsXor, Xor;
    RotrIs(w, r);
    RotrIs(w, s);
    Xor3Is(Rotr(r, w), Rotr(s, w), z);
  }

  function Schedule0(a: Word): int { Twisted(a, 7, 18, JsShr(a, 3)) }

  function Schedule1(b: Word): int { Twisted(b, 17, 19, JsShr(b, 10)) }

  function Mix0(a: Word): int { Twisted(a, 2, 13, JsRotr(a, 22)) }

  function Mix1(e: Word): int { Twisted(e, 6, 11, JsRotr(e, 25)) }

  lemma TwistsAre(w: Word)
    ensures U32(Schedule0(w)) == Sigma0(w) && U32(Schedule1(w)) == Sigma1(w)
    ensures U32(Mix0(w)) == BigSigma0(w) && U32(Mix1(w)) == BigSigma1(w)
  {
    hide Twisted, Rotr, JsRotr, Xor, Shr;
    RoundTrip(w);
    RotrIs(w, 22);
    RotrIs(w, 25);
    TwistedIs(w, 7, 18, Shr(3, w));
    TwistedIs(w, 17, 19, Shr(10, w));
    TwistedIs(w, 2, 13, Rotr(22, w));
    TwistedIs(w, 6, 11, Rotr(25, w));
  }

  lemma ScheduleIs(w16: Word, w15: Word, w7: Word, w2: Word)
    ensures U32(w16 + Schedule0(w15) + w7 + Schedule1(w2))
         == Add(Add(Add(Sigma1(w2), w7), Sigma0(w15)), w16)
  {
    hide Schedule0, Schedule1, Sigma0, Sigma1, Add, U32;
    TwistsAre(w15);
    TwistsAre(w2);
    RoundTrip(w16);
    RoundTrip(w7);
    Sum4(w16, Schedule0(w15), w7, Schedule1(w2));
    AddReorders(w16, Sigma0(w15), w7, Sigma1(w2));
  }

  /** The body of the loop of rounds, on the working variables. */
  function JsRound(s: State, k: Word, w: Word): State {
    var t1 := U32(s.h + Mix1(s.e) + JsCh(s.e, s.f, s.g) + k + w);
    var t2 := U32(Mix0(s.a) + JsMaj(s.a, s.b, s.c));
    State(U32(t1 + t2), s.a, s.b, s.c, U32(s.d + t1), s.e, s.f, s.g)
  }

  lemma RoundIs(s: State, k: Word, w: Word)
    ensures JsRound(s, k, w) == Round(s, k, w)
  {
    hide Mix0, Mix1, JsCh, JsMaj, Ch, Maj, BigSigma0, BigSigma1, Add, U32;
    TwistsAre(s.e);
    TwistsAre(s.a);
    ChIs(s.e, s.f, s.g);
    MajIs(s.a, s.b, s.c);
    RoundTrip(s.h);
    RoundTrip(k);
    RoundTrip(w);
    RoundTrip(s.d);
    Sum5(s.h, Mix1(s.e), JsCh(s.e, s.f, s.g), k, w);
    SumMod(Mix0(s.a), JsMaj(s.a, s.b, s.c));
    var t1 := U32(s.h + Mix1(s.e) + JsCh(s.e, s.f, s.g) + k + w);
    var t2 := U32(Mix0(s.a) + JsMaj(s.a, s.b, s.c));
    RoundTrip(t1);
    RoundTrip(t2);
    SumMod(t1, t2);
    SumMod(s.d, t1);
  }

  /** The inside of the loop over blocks, up to the working variables' last values. */
  method RunBlock(start: State, block: seq<Byte>) returns (s: State)
    requires |block| == 64
    ensures s == Rounds(start, block, 64)
  {
    hide Add, WordAt, Sigma0, Sigma1, JsRound, Round, Schedule0, Schedule1, U32, K;
    assert Rounds(start, block, 0) == start;
    var w := new Word[64];
    for i := 0 to 16
      invariant forall t :: 0 <= t < i ==> w[t] == W(block, t)
    {
      w[i] := WordAt(block, i * 4);
    }
    for i := 16 to 64
      invariant forall t :: 0 <= t < i ==> w[t] == W(block, t)
    {
      var a, b := w[i - 15], w[i - 2];
      ScheduleIs(w[i - 16], a, w[i - 7], b);
      w[i] := U32(w[i - 16] + Schedule0(a) + w[i - 7] + Schedule1(b));
    }
    s := start;
    for i := 0 to 64
      invariant s == Rounds(start, block, i)
      invariant forall t :: 0 <= t < 64 ==> w[t] == W(block, t)
    {
      RoundIs(s, K(i), w[i]);
      s := JsRound(s, K(i), w[i]);
    }
  }

  lemma AddSwaps(x: Word, y: Word)
    ensures U32(x + y) == Add(y, x)
  {
  }

  /** h[i] = (h[i] + next[i]) >>> 0. */
  function JsAddStates(h: State, next: State): State {
    State(U32(h.a + next.a), U32(h.b + next.b), U32(h.c + next.c), U32(h.d + next.d),
          U32(h.e + next.e), U32(h.f + next.f), U32(h.g + next.g), U32(h.h + next.h))
  }

  lemma AddStatesIs(h: State, next: State)
    ensures JsAddStates(h, next) == AddStates(next, h)
  {
    hide U32, Add;
    AddSwaps(h.a, next.a);
    AddSwaps(h.b, next.b);
    AddSwaps(h.c, next.c);
    AddSwaps(h.d, next.d);
    AddSwaps(h.e, next.e);
    AddSwaps(h.f, next.f);
    AddSwaps(h.g, next.g);
    AddSwaps(h.h, next.h);
  }

  // ----- padding -----

  /** DataView.setUint32(): big-endian. */
  method SetUint32(buf: array<Byte>, at: nat, x: Word)
    requires at + 4 <= buf.Length
    modifies buf
    ensures forall k :: 0 <= k < 4 ==> buf[at + k] == Shift(24 - 8 * k, x) % 256
    ensures forall k :: 0 <= k < buf.Length && !(at <= k < at + 4) ==> buf[k] == old(buf[k])
  {
    buf[at] := Shift(24, x) % 256;
    buf[at + 1] := Shift(16, x) % 256;
    buf[at + 2] := Shift(8, x) % 256;
    buf[at + 3] := Shift(0, x) % 256;
  }

  /** The high word's bytes are the high bytes of the length. */
  lemma HighBytes(x: nat, k: nat)
    requires k < 4
    ensures BigEndian(x, 8)[k] == Shift(24 - 8 * k, x / 0x1_0000_0000) % 256
  {
    hide Shift, BigEndian;
    BigEndianAt(x, 8, k);
    var n := 24 - 8 * k;
    ShiftEight(n + 24, x);
    ShiftEight(n + 16, x / 256);
    ShiftEight(n + 8, x / 256 / 256);
    ShiftEight(n, x / 256 / 256 / 256);
  }

  lemma DropByte(x: nat, y: nat, q: nat, m: nat)
    requires m > 0 && x == q * m * 256 + y
    ensures x / 256 == q * m + y / 256 && x % 256 == y % 256
  {
    var k := q * m;
    assert x == k * 256 + y;
  }

  /** The low word has the low bytes. */
  lemma LowWord(x: nat, y: nat)
    requires y == x % 0x1_0000_0000
    ensures x % 256 == y % 256 && (x / 256) % 256 == (y / 256) % 256
    ensures (x / 256 / 256) % 256 == (y / 256 / 256) % 256
    ensures (x / 256 / 256 / 256) % 256 == (y / 256 / 256 / 256) % 256
  {
    var q := x / 0x1_0000_0000;
    DropByte(x, y, q, 0x100_0000);
    DropByte(x / 256, y / 256, q, 0x1_0000);
    DropByte(x / 256 / 256, y / 256 / 256, q, 0x100);
    DropByte(x / 256 / 256 / 256, y / 256 / 256 / 256, q, 1);
  }

  lemma LowBytes(x: nat, k: nat)
    requires k < 4
    ensures BigEndian(x, 8)[4 + k] == Shift(24 - 8 * k, x % 0x1_0000_0000) % 256
  {
    hide Shift, BigEndian;
    BigEndianAt(x, 8, 4 + k);
    var y := x % 0x1_0000_0000;
    LowWord(x, y);
    ShiftByBytes(x);
    ShiftByBytes(y);
    ShiftNone(x);
    ShiftNone(y);
    assert k == 0 || k == 1 || k == 2 || k == 3;
  }

  lemma LengthByte(x: nat, k: nat)
    requires k < 8 && x < 0x1_0000_0000_0000_0000
    ensures BigEndian(x, 8)[k] == if k < 4 then Shift(24 - 8 * k, x / 0x1_0000_0000) % 256
                                  else Shift(24 - 8 * (k - 4), x % 0x1_0000_0000) % 256
  {
    hide Shift, BigEndian;
    if k < 4 { HighBytes(x, k); } else { LowBytes(x, k - 4); }
  }

  lemma PaddedIs(m: seq<Byte>, p: seq<Byte>)
    requires |p| == 64 * BlockCount(|m|) && p[..|m|] == m && p[|m|] == 0x80
    requires p[|m| + 1..|p| - 8] == Zeros(ZeroCount(|m|)) && p[|p| - 8..] == BigEndian(8 * |m|, 8)
    ensures p == Pad(m)
  {
    assert Pad(m) == m + [0x80] + Zeros(ZeroCount(|m|)) + BigEndian(8 * |m|, 8);
    assert |m| + 1 <= |p| - 8;
    hide *;
    assert p[|m|..|m| + 1] == [0x80];
    Cut(p, |m|, |m| + 1, |p| - 8);
  }

  lemma IsZeros(s: seq<Byte>, n: nat)
    requires |s| == n && forall k :: 0 <= k < n ==> s[k] == 0
    ensures s == Zeros(n)
  {
  }

  lemma SameElements(s: seq<Byte>, t: seq<Byte>)
    requires |s| == |t| && forall k :: 0 <= k < |s| ==> s[k] == t[k]
    ensures s == t
  {
  }

  /** The two length words, read as the eight bytes they are. */
  lemma LengthIs(p: seq<Byte>, at: nat, bits: nat)
    requires at + 8 == |p| && bits < 0x1_0000_0000_0000_0000
    requires forall k :: 0 <= k < 4 ==> p[at + k] == Shift(24 - 8 * k, bits / 0x1_0000_0000) % 256
    requires forall k :: 0 <= k < 4 ==> p[at + 4 + k] == Shift(24 - 8 * k, U32(bits)) % 256
    ensures p[at..] == BigEndian(bits, 8)
  {
    hide Shift, BigEndian;
    forall k | 0 <= k < 8 ensures p[at..][k] == BigEndian(bits, 8)[k] {
      LengthByte(bits, k);
      if k >= 4 { assert p[at + 4 + (k - 4)] == Shift(24 - 8 * (k - 4), U32(bits)) % 256; }
    }
    SameElements(p[at..], BigEndian(bits, 8));
  }

  lemma Cut(s: seq<Byte>, i: nat, j: nat, k: nat)
    requires i <= j <= k <= |s|
    ensures s == s[..i] + s[i..j] + s[j..k] + s[k..]
  {
  }

  /** The padded buffer: a zeroed array, the message, the marker and the two length words.
      The page computes its size with 32-bit shifts. */
  method Padded(bytes: seq<Byte>) returns (buf: array<Byte>)
    requires |bytes| + 72 < 0x8000_0000
    ensures fresh(buf) && buf[..] == Pad(bytes)
  {
    hide Shift, BigEndian, Zeros, Pad;
    var len := |bytes|;
    var total := (len + 9 + 63) / 64 * 64;
    buf := new Byte[total](_ => 0);
    forall k | 0 <= k < len { buf[k] := bytes[k]; }
    buf[len] := 0x80;
    SetUint32(buf, total - 8, len * 8 / 0x1_0000_0000);
    SetUint32(buf, total - 4, U32(len * 8));
    ghost var p := buf[..];
    LengthIs(p, total - 8, 8 * len);
    IsZeros(p[len + 1..total - 8], ZeroCount(len));
    PaddedIs(bytes, p);
  }

  // ----- the whole hash -----

  /** sha256(): the digest words of the message, as FIPS 180-4 defines them. */
  method Sha256OfPage(bytes: seq<Byte>) returns (h: seq<Word>)
    requires |bytes| + 72 < 0x8000_0000
    ensures h == Words(Digest(bytes))
  {
    hide Rounds, AddStates, JsAddStates, Pad, InitialHash, BlockCount, Words;
    var buf := Padded(bytes);
    ghost var p := buf[..];
    var s := InitialHash();
    var off: nat := 0;
    ghost var n := 0;
    while off < buf.Length
      invariant buf[..] == p && off == 64 * n && n <= BlockCount(|bytes|)
      invariant s == Blocks(InitialHash(), p, n)
    {
      var block := buf[off..off + 64];
      assert block == p[64 * n..64 * (n + 1)];
      var next := RunBlock(s, block);
      AddStatesIs(s, next);
      s := JsAddStates(s, next);
      off, n := off + 64, n + 1;
    }
    h := Words(s);
  }
}
