/**
 The registration puzzle: solved by web/static/app.js on digest words, checked by
 web/server.py on one 256-bit number.
 */
module ProofOfWork {
  import opened Powers
  import opened Sha256
  import opened PageSha
  import Releases

  // ----- the two tests -----

  /** int.from_bytes(bytes, "big"). */
  function FromBytes(bytes: seq<Byte>): nat {
    if bytes == [] then 0 else FromBytes(bytes[..|bytes| - 1]) * 256 + bytes[|bytes| - 1]
  }

  /** The bytes of a digest: its words one after the other, each big end first. */
  function Bytes(words: seq<Word>): (bytes: seq<Byte>)
    ensures |bytes| == 4 * |words|
  {
    if words == [] then [] else Bytes(words[..|words| - 1]) + BigEndian(words[|words| - 1], 4)
  }

  /** The number that words spell. */
  function Value(words: seq<Word>): nat {
    if words == [] then 0 else words[0] * Pow2(32 * (|words| - 1)) + Value(words[1..])
  }

  lemma {:induction false} BigEndianValue(x: nat, n: nat, front: seq<Byte>, base: nat)
    requires x < base && base == Pow2(8 * n)
    ensures FromBytes(front + BigEndian(x, n)) == FromBytes(front) * base + x
  {
    if n == 0 {
      assert front + BigEndian(x, 0) == front;
    } else {
      var p, s := Pow2(8 * (n - 1)), front + BigEndian(x, n);
      Pow2Add(8, 8 * (n - 1));
      Pow2Values();
      assert s[..|s| - 1] == front + BigEndian(x / 256, n - 1) && s[|s| - 1] == x % 256;
      assert FromBytes(s) == FromBytes(s[..|s| - 1]) * 256 + s[|s| - 1];
      hide Pow2, BigEndian, FromBytes;
      BigEndianValue(x / 256, n - 1, front, p);
      Horner(FromBytes(front), p, x);
    }
  }

  lemma Horner(f: nat, p: nat, x: nat)
    ensures (f * p + x / 256) * 256 + x % 256 == f * (256 * p) + x
  {
    assert f * (256 * p) == (f * p) * 256;
  }

  lemma {:induction false} ValueJoin(words: seq<Word>, last: Word)
    ensures Value(words + [last]) == Value(words) * 0x1_0000_0000 + last
  {
    if words == [] {
      assert Pow2(0) == 1;
    } else {
      var rest := words[1..];
      ValueJoin(rest, last);
      assert (words + [last])[1..] == rest + [last];
      TopWord(|rest|);
      OneWordUp(words[0], Pow2(32 * |rest|), Value(rest), last);
    }
  }

  lemma OneWordUp(w: nat, p: nat, v: nat, last: nat)
    ensures w * (0x1_0000_0000 * p) + (v * 0x1_0000_0000 + last) == (w * p + v) * 0x1_0000_0000 + last
  {
    assert w * (0x1_0000_0000 * p) == (w * p) * 0x1_0000_0000;
  }

  /** The hub reads the digest's bytes as the number its words spell. */
  lemma {:induction false} BytesSpellValue(words: seq<Word>)
    ensures FromBytes(Bytes(words)) == Value(words)
  {
    if words != [] {
      var rest, last := words[..|words| - 1], words[|words| - 1];
      assert Bytes(words) == Bytes(rest) + BigEndian(last, 4);
      hide *;
      BytesSpellValue(rest);
      Pow2Values();
      BigEndianValue(last, 4, Bytes(rest), 0x1_0000_0000);
      ValueJoin(rest, last);
      assert rest + [last] == words;
    }
  }

  lemma {:induction false} ValueBelow(words: seq<Word>)
    ensures Value(words) < Pow2(32 * |words|)
  {
    hide Pow2;
    if words == [] {
      assert Pow2(0) > 0;
    } else {
      ValueBelow(words[1..]);
      TopWord(|words| - 1);
      LeadingDigit(words[0], 0x1_0000_0000, Pow2(32 * (|words| - 1)), Value(words[1..]));
    }
  }

  /** A number in base p is below top * p exactly when its leading digit is below top. */
  lemma LeadingDigit(w: nat, top: nat, p: nat, rest: nat)
    requires rest < p
    ensures w * p + rest < top * p <==> w < top
  {
    if w < top { Scaled(w + 1, top, p); } else { Scaled(top, w, p); }
  }

  lemma TopWord(n: nat)
    ensures Pow2(32 * (n + 1)) == 0x1_0000_0000 * Pow2(32 * n)
  {
    Pow2Values();
    Pow2Add(32, 32 * n);
  }

  lemma Scaled(a: nat, b: nat, p: nat)
    requires a <= b
    ensures a * p <= b * p
  {
  }

  /** pow_solved(): the hub's test, for a digest of eight words. */
  predicate Solved(words: seq<Word>, bits: nat)
    requires |words| == 8 && bits <= 256
  {
    FromBytes(Bytes(words)) < Pow2(256 - bits)
  }

  lemma {:induction false} ShiftIsZero(n: nat, x: nat)
    ensures Shift(n, x) == 0 <==> x < Pow2(n)
  {
    if n > 0 { ShiftIsZero(n - 1, x / 2); }
  }

  lemma FirstWordZero(words: seq<Word>, bits: nat)
    requires words != [] && 32 <= bits <= 32 * |words|
    ensures Value(words) < Pow2(32 * |words| - bits) <==> words[0] == 0 && Value(words[1..]) < Pow2(32 * |words| - bits)
  {
    var n := |words| - 1;
    if words[0] > 0 {
      Scaled(1, words[0], Pow2(32 * n));
      Pow2AtMost(32 * |words| - bits, 32 * n);
    }
  }

  lemma Pow2AtMost(a: nat, b: nat)
    requires a <= b
    ensures Pow2(a) <= Pow2(b)
  {
    if a < b { Pow2Mono(a, b); }
  }

  lemma FirstWordTop(words: seq<Word>, bits: nat)
    requires words != [] && bits <= 32
    ensures Value(words) < Pow2(32 * |words| - bits) <==> words[0] < Pow2(32 - bits)
  {
    hide Pow2;
    var n := 32 * (|words| - 1);
    Pow2Add(32 - bits, n);
    ValueBelow(words[1..]);
    LeadingDigit(words[0], Pow2(32 - bits), Pow2(n), Value(words[1..]));
  }

  /** leadingZeros(): exactly the numbers below 2^(256 - bits) pass. */
  method LeadingZeros(words: seq<Word>, bits: nat) returns (ok: bool)
    requires |words| == 8 && bits <= 256
    ensures ok <==> Solved(words, bits)
  {
    BytesSpellValue(words);
    hide Value, Pow2, Shift, Bytes, FromBytes;
    var i, left := 0, bits;
    assert words[0..] == words;
    while left >= 32
      invariant i <= 8 && left + 32 * i == bits
      invariant Solved(words, bits) <==> Value(words[i..]) < Pow2(256 - bits)
      decreases left
    {
      FirstWordZero(words[i..], left);
      assert words[i..][0] == words[i] && words[i..][1..] == words[i + 1..];
      if words[i] != 0 { return false; }
      i := i + 1;
      left := left - 32;
    }
    if left == 0 {
      ValueBelow(words[i..]);
      ok := true;
    } else {
      FirstWordTop(words[i..], left);
      ShiftIsZero(32 - left, words[i]);
      ok := Shr(32 - left, words[i]) == 0;
    }
  }

  // ----- the search -----

  const LIMIT: nat := 0x400_0000
  const SLICE: nat := 4096

  function Decimal(n: nat): string {
    if n < 10 then ["0123456789"[n]] else Decimal(n / 10) + ["0123456789"[n % 10]]
  }

  /** The text both sides hash. */
  function Puzzle(challenge: string, nonce: string): string {
    challenge + ":" + nonce
  }

  /** Whether the hub accepts this nonce; encode is UTF-8, on both sides. */
  predicate Accepted(encode: string -> seq<Byte>, challenge: string, nonce: string, bits: nat)
    requires bits <= 256
  {
    Solved(Words(Digest(encode(Puzzle(challenge, nonce)))), bits)
  }

  /** A nonce is written in decimal, without leading zeros. */
  lemma {:induction false} DecimalReads(n: nat)
    ensures Releases.Number(Decimal(n)) == n
    ensures Decimal(n) != [] && Releases.AllDigits(Decimal(n)) && (Decimal(n)[0] == '0' ==> n == 0)
  {
    if n >= 10 {
      DecimalReads(n / 10);
      var front, d := Decimal(n / 10), "0123456789"[n % 10];
      assert d as int == '0' as int + n % 10;
      assert (front + [d])[..|front|] == front && (front + [d])[|front|] == d;
    } else {
      var d := "0123456789"[n];
      assert d as int == '0' as int + n;
      assert Decimal(n) == [d] && [d][..0] == [];
      assert Releases.Number([]) == 0;
    }
  }

  /** What a nonce has to do. */
  lemma AcceptedMeans(encode: string -> seq<Byte>, challenge: string, nonce: string, bits: nat)
    requires bits <= 256
    ensures Accepted(encode, challenge, nonce, bits) <==>
            Value(Words(Digest(encode(challenge + [':'] + nonce)))) < Pow2(256 - bits)
  {
    hide Digest, Words, Value, FromBytes, Bytes, Pow2;
    assert Puzzle(challenge, nonce) == challenge + [':'] + nonce;
    BytesSpellValue(Words(Digest(encode(challenge + [':'] + nonce))));
  }

  /** What the page can hash. */
  ghost predicate Hashable(encode: string -> seq<Byte>, challenge: string) {
    forall n :: 0 <= n < LIMIT ==> |encode(Puzzle(challenge, Decimal(n)))| + 72 < 0x8000_0000
  }

  /** solveChallenge(): the least nonce below 2^26 that the hub accepts, and no answer only
      when there is none. */
  method SolveChallenge(encode: string -> seq<Byte>, challenge: string, bits: nat) returns (found: bool, nonce: string, n: nat)
    requires bits <= 256 && Hashable(encode, challenge)
    ensures found ==> n < 67108864 && nonce == Decimal(n) && Accepted(encode, challenge, nonce, bits)
    ensures found ==> forall m :: 0 <= m < n ==> !Accepted(encode, challenge, Decimal(m), bits)
    ensures !found ==> forall m :: 0 <= m < 67108864 ==> !Accepted(encode, challenge, Decimal(m), bits)
  {
    hide Solved, Digest, Words, Decimal;
    n := 0;
    while n < LIMIT
      invariant n % SLICE == 0 && n <= LIMIT
      invariant forall m :: 0 <= m < n ==> !Accepted(encode, challenge, Decimal(m), bits)
    {
      ghost var start := n;
      for i := 0 to SLICE
        invariant n == start + i
        invariant forall m :: 0 <= m < n ==> !Accepted(encode, challenge, Decimal(m), bits)
      {
        var words := Sha256OfPage(encode(Puzzle(challenge, Decimal(n))));
        var ok := LeadingZeros(words, bits);
        if ok { return true, Decimal(n), n; }
        n := n + 1;
      }
    }
    found, nonce := false, [];
  }
}
