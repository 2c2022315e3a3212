/**
 The streaming hash of bench/src/sha256.c, proved against the definition in Sha256.
 */
module ShaStream {
  import opened Powers
  import opened Sha256
  import opened CText

  // ----- sha256_block() -----

  /** The first half of sha256_block(): the message schedule. */
  method Schedule(p: seq<Byte>) returns (w: array<Word>)
    requires |p| == 64
    ensures fresh(w) && w.Length == 64 && forall t :: 0 <= t < 64 ==> w[t] == W(p, t)
  {
    hide Add, Sigma0, Sigma1, WordAt;
    w := new Word[64];
    for i := 0 to 16
      invariant forall t :: 0 <= t < i ==> w[t] == W(p, t)
    {
      w[i] := WordAt(p, 4 * i);
    }
    for i := 16 to 64
      invariant forall t :: 0 <= t < i ==> w[t] == W(p, t)
    {
      var s0 := Sigma0(w[i - 15]);
      var s1 := Sigma1(w[i - 2]);
      AddReorders(w[i - 16], s0, w[i - 7], s1);
      w[i] := Add(Add(Add(w[i - 16], s0), w[i - 7]), s1);
    }
  }

  /** The second half: the rounds. */
  method RunRounds(start: State, w: array<Word>, p: seq<Byte>) returns (s: State)
    requires |p| == 64 && w.Length == 64 && forall t :: 0 <= t < 64 ==> w[t] == W(p, t)
    ensures s == Rounds(start, p, 64)
  {
    hide Add, Ch, Maj, BigSigma0, BigSigma1, W, K;
    var a, b, c, d, e, f, g, h := start.a, start.b, start.c, start.d, start.e, start.f, start.g, start.h;
    for i := 0 to 64
      invariant State(a, b, c, d, e, f, g, h) == Rounds(start, p, i)
    {
      var t1 := Add(Add(Add(Add(h, BigSigma1(e)), Ch(e, f, g)), K(i)), w[i]);
      var t2 := Add(BigSigma0(a), Maj(a, b, c));
      h, g, f, e := g, f, e, Add(d, t1);
      d, c, b, a := c, b, a, Add(t1, t2);
    }
    s := State(a, b, c, d, e, f, g, h);
  }

  // ----- the digest in hex -----

  function LowerHex(d: nat): (c: char)
    requires d < 16
    ensures IsHex(c) && HexDigit(c) == d && !('A' <= c <= 'F')
  {
    "0123456789abcdef"[d]
  }

  /** A word is written at `at` in eight lower-case digits. */
  ghost predicate WrittenAt(out: string, at: nat, x: Word) {
    at + 8 <= |out| && HexValue(out, at, at + 8) == x
    && forall k :: at <= k < at + 8 ==> IsHex(out[k]) && !('A' <= out[k] <= 'F')
  }

  /** Two digits of a byte. */
  ghost predicate ByteAt(out: string, at: nat, b: nat) {
    at + 2 <= |out| && b < 256 && out[at] == LowerHex(b / 16) && out[at + 1] == LowerHex(b % 16)
  }

  lemma TwoDigits(out: string, at: nat, end: nat, b: nat)
    requires at <= end && ByteAt(out, end, b)
    ensures HexValue(out, at, end + 2) == HexValue(out, at, end) * 256 + b
  {
    assert HexValue(out, at, end + 2) == HexValue(out, at, end + 1) * 16 + b % 16;
    assert HexValue(out, at, end + 1) == HexValue(out, at, end) * 16 + b / 16;
  }

  /** These four bytes are written at `at`. */
  ghost predicate BytesAt(out: string, at: nat, b0: nat, b1: nat, b2: nat, b3: nat) {
    ByteAt(out, at, b0) && ByteAt(out, at + 2, b1) && ByteAt(out, at + 4, b2) && ByteAt(out, at + 6, b3)
  }

  lemma BytesRead(out: string, at: nat, b0: nat, b1: nat, b2: nat, b3: nat)
    requires BytesAt(out, at, b0, b1, b2, b3)
    ensures HexValue(out, at, at + 8) == FourBytes(b0, b1, b2, b3)
  {
    assert HexValue(out, at, at) == 0;
    hide HexValue;
    TwoDigits(out, at, at, b0);
    TwoDigits(out, at, at + 2, b1);
    TwoDigits(out, at, at + 4, b2);
    TwoDigits(out, at, at + 6, b3);
  }

  lemma BytesFit(out: string, at: nat, b0: nat, b1: nat, b2: nat, b3: nat)
    requires BytesAt(out, at, b0, b1, b2, b3)
    ensures at + 8 <= |out|
  {
  }

  lemma BytesAreHex(out: string, at: nat, b0: nat, b1: nat, b2: nat, b3: nat)
    requires BytesAt(out, at, b0, b1, b2, b3)
    ensures forall k :: at <= k < at + 8 ==> IsHex(out[k]) && !('A' <= out[k] <= 'F')
  {
    hide IsHex, HexDigit;
  }

  lemma FourBytesAreAWord(out: string, at: nat, x: Word)
    requires BytesAt(out, at, Shift(24, x) % 256, Shift(16, x) % 256, Shift(8, x) % 256, Shift(0, x) % 256)
    ensures WrittenAt(out, at, x)
  {
    hide Shift, HexValue, FourBytes, BytesAt;
    BytesRead(out, at, Shift(24, x) % 256, Shift(16, x) % 256, Shift(8, x) % 256, Shift(0, x) % 256);
    BytesAreHex(out, at, Shift(24, x) % 256, Shift(16, x) % 256, Shift(8, x) % 256, Shift(0, x) % 256);
    BytesOfWord(x);
    assert at + 8 <= |out| by { BytesFit(out, at, Shift(24, x) % 256, Shift(16, x) % 256, Shift(8, x) % 256, Shift(0, x) % 256); }
  }

  lemma ByteStays(was: string, now: string, at: nat, b: nat)
    requires ByteAt(was, at, b) && |now| == |was| && now[at] == was[at] && now[at + 1] == was[at + 1]
    ensures ByteAt(now, at, b)
  {
  }

  /** Two digits of one byte. */
  method WriteByte(out: array<char>, at: nat, b: nat)
    requires at + 2 <= out.Length && b < 256
    modifies out
    ensures ByteAt(out[..], at, b)
    ensures forall k :: 0 <= k < out.Length && k != at && k != at + 1 ==> out[k] == old(out[k])
  {
    out[at] := LowerHex(b / 16);
    out[at + 1] := LowerHex(b % 16);
  }

  /** The inner loop of the printing: one word. */
  method WriteWord(out: array<char>, i: nat, x: Word)
    requires i < 8 && out.Length == 65
    modifies out
    ensures WrittenAt(out[..], i * 8, x)
    ensures forall k :: 0 <= k < out.Length && !(i * 8 <= k < i * 8 + 8) ==> out[k] == old(out[k])
  {
    hide Shift, WrittenAt, ByteAt;
    ghost var start := out[..];
    for j := 0 to 4
      invariant forall m :: 0 <= m < j ==> ByteAt(out[..], i * 8 + m * 2, Shift(24 - 8 * m, x) % 256)
      invariant forall k :: 0 <= k < out.Length && !(i * 8 <= k < i * 8 + 8) ==> out[k] == start[k]
    {
      ghost var was := out[..];
      WriteByte(out, i * 8 + j * 2, Shift(24 - 8 * j, x) % 256);
      forall m | 0 <= m < j ensures ByteAt(out[..], i * 8 + m * 2, Shift(24 - 8 * m, x) % 256) {
        ByteStays(was, out[..], i * 8 + m * 2, Shift(24 - 8 * m, x) % 256);
      }
    }
    assert ByteAt(out[..], i * 8 + 0 * 2, Shift(24 - 8 * 0, x) % 256) && ByteAt(out[..], i * 8 + 1 * 2, Shift(24 - 8 * 1, x) % 256);
    assert ByteAt(out[..], i * 8 + 2 * 2, Shift(24 - 8 * 2, x) % 256) && ByteAt(out[..], i * 8 + 3 * 2, Shift(24 - 8 * 3, x) % 256);
    FourBytesAreAWord(out[..], i * 8, x);
  }

  lemma WrittenStays(was: string, now: string, at: nat, x: Word)
    requires WrittenAt(was, at, x) && |now| == |was| && forall k :: at <= k < at + 8 ==> now[k] == was[k]
    ensures WrittenAt(now, at, x)
  {
    SameValue(was, at, now, at, 8);
  }

  /** The printing half of sha256_final(). */
  method WriteHex(h: State) returns (out: array<char>)
    ensures fresh(out) && out.Length == 65 && out[64] == NUL
    ensures forall i :: 0 <= i < 8 ==> WrittenAt(out[..], i * 8, Words(h)[i])
  {
    hide WrittenAt;
    out := new char[65];
    for i := 0 to 8
      invariant forall m :: 0 <= m < i ==> WrittenAt(out[..], m * 8, Words(h)[m])
    {
      ghost var was := out[..];
      WriteWord(out, i, Words(h)[i]);
      forall m | 0 <= m < i ensures WrittenAt(out[..], m * 8, Words(h)[m]) {
        WrittenStays(was, out[..], m * 8, Words(h)[m]);
      }
    }
    ghost var was := out[..];
    out[64] := NUL;
    forall m | 0 <= m < 8 ensures WrittenAt(out[..], m * 8, Words(h)[m]) {
      WrittenStays(was, out[..], m * 8, Words(h)[m]);
    }
  }

  // ----- the context -----

  lemma MoreZeros(len: nat, n: nat, full: nat, used: nat)
    requires n <= ZeroCount(len) && len + 1 + n == 64 * full + used && used < 64 && used != 56
    ensures n < ZeroCount(len)
  {
  }

  /** sha256_ctx. `fed` is everything it has been given, and `full` counts the blocks of it
      that are hashed. */
  class Context {
    var h: State
    var bytes: nat
    var buf: array<Byte>
    var used: nat
    ghost var fed: seq<Byte>
    ghost var full: nat

    /** The whole blocks fed so far are hashed and the rest is in buf. */
    ghost predicate Hashed()
      reads `h, `buf, `used, `fed, `full, buf
    {
      && buf.Length == 64 && used < 64 && |fed| == 64 * full + used
      && buf[..used] == fed[64 * full..]
      && h == Blocks(InitialHash(), fed, full)
    }

    ghost predicate Valid()
      reads this, buf
    {
      Hashed() && bytes == |fed| % 0x1_0000_0000_0000_0000
    }

    /** sha256_init(). */
    constructor ()
      ensures Valid() && fed == [] && fresh(buf)
    {
      h := InitialHash();
      bytes, used := 0, 0;
      buf := new Byte[64](_ => 0);
      fed, full := [], 0;
    }

    /** sha256_block() on the full buffer. */
    method Block()
      requires buf.Length == 64
      modifies this`h
      ensures h == Compress(old(h), buf[..])
    {
      hide Rounds, Add, W, K;
      var w := Schedule(buf[..]);
      var s := RunRounds(h, w, buf[..]);
      h := AddStates(s, h);
    }

    /** memcpy() of a piece behind what is in the buffer. */
    method Fill(piece: seq<Byte>)
      requires Hashed() && used + |piece| <= 64
      modifies this`used, this`fed, buf
      ensures used == old(used) + |piece| && fed == old(fed) + piece
      ensures buf[..used] == fed[64 * full..] && h == Blocks(InitialHash(), fed, full)
    {
      hide Blocks, InitialHash;
      BlocksOfLonger(InitialHash(), fed, fed + piece, full);
      forall k | 0 <= k < |piece| { buf[used + k] := piece[k]; }
      used := used + |piece|;
      fed := fed + piece;
    }

    /** A full buffer is hashed and empty again. */
    method Flush()
      requires buf.Length == 64 == used && |fed| == 64 * (full + 1)
      requires buf[..] == fed[64 * full..] && h == Blocks(InitialHash(), fed, full)
      modifies this`h, this`used, this`full
      ensures Hashed() && full == old(full) + 1
    {
      hide Compress, InitialHash;
      assert fed[64 * full..] == fed[64 * full..64 * (full + 1)];
      Block();
      used, full := 0, full + 1;
    }

    /** One turn of the loop of sha256_update(), from p[at] on. */
    method Feed(p: seq<Byte>, at: nat) returns (next: nat)
      requires Hashed() && at < |p|
      modifies this`h, this`used, this`fed, this`full, buf
      ensures Hashed() && at < next <= |p| && fed == old(fed) + p[at..next]
    {
      hide Blocks, InitialHash;
      var take := 64 - used;
      if take > |p| - at { take := |p| - at; }
      next := at + take;
      Fill(p[at..next]);
      if used == 64 {
        assert buf[..64] == buf[..];
        Flush();
      }
    }

    static lemma Extend(m: seq<Byte>, p: seq<Byte>, i: nat, j: nat)
      requires i <= j <= |p|
      ensures (m + p[..i]) + p[i..j] == m + p[..j]
    {
      assert p[..i] + p[i..j] == p[..j];
    }

    /** sha256_update(): the message may come in any pieces. */
    method Update(p: seq<Byte>)
      requires Valid()
      modifies this, buf
      ensures Valid() && fed == old(fed) + p && buf == old(buf)
    {
      hide Blocks, InitialHash, Hashed;
      bytes := (bytes + |p|) % 0x1_0000_0000_0000_0000;
      var at := 0;
      while at < |p|
        invariant at <= |p| && buf == old(buf) && Hashed()
        invariant fed == old(fed) + p[..at]
        invariant bytes == (|old(fed)| + |p|) % 0x1_0000_0000_0000_0000
      {
        ghost var was := at;
        at := Feed(p, at);
        Extend(old(fed), p, was, at);
      }
      assert p[..at] == p;
    }

    lemma Counted()
      requires Valid()
      ensures |fed| == 64 * full + used && used < 64
    {
    }

    /** The zero bytes: as few as leave room for the length, so the loop ends. */
    method PadZeros(ghost m: seq<Byte>)
      requires Valid() && fed == m + [0x80]
      modifies this, buf
      ensures Valid() && fed == m + [0x80] + Zeros(ZeroCount(|m|)) && buf == old(buf)
    {
      hide Valid, ZeroCount, Zeros;
      ghost var n := 0;
      Counted();
      assert fed == m + [0x80] + Zeros(0);
      while used != 56
        invariant Valid() && |fed| == 64 * full + used && used < 64 && buf == old(buf)
        invariant n <= ZeroCount(|m|) && fed == m + [0x80] + Zeros(n)
        decreases ZeroCount(|m|) - n
      {
        assert n < ZeroCount(|m|) by { MoreZeros(|m|, n, full, used); }
        Update([0]);
        n := n + 1;
        assert fed == m + [0x80] + Zeros(n);
        Counted();
      }
    }

    /** The length block. */
    method FeedLength(bits: nat)
      requires Valid()
      modifies this, buf
      ensures Valid() && fed == old(fed) + BigEndian(bits, 8) && buf == old(buf)
    {
      var len := new Byte[8];
      for i := 0 to 8
        invariant Valid() && unchanged(this) && unchanged(buf)
        invariant forall k :: 0 <= k < i ==> len[k] == BigEndian(bits, 8)[k]
      {
        BigEndianAt(bits, 8, i);
        len[i] := Shift(56 - 8 * i, bits) % 256;
      }
      assert len[..] == BigEndian(bits, 8);
      Update(len[..]);
    }

    /** The padding half of sha256_final(). */
    method FeedPadding()
      requires Valid()
      modifies this, buf
      ensures |old(fed)| < 0x2000_0000_0000_0000 ==> fed == Pad(old(fed)) && h == Digest(old(fed))
    {
      hide Blocks, InitialHash, BigEndian, ZeroCount, Zeros;
      ghost var m := fed;
      var bits := (bytes * 8) % 0x1_0000_0000_0000_0000;
      assert |m| < 0x2000_0000_0000_0000 ==> bits == 8 * |m|;
      Update([0x80]);
      PadZeros(m);
      FeedLength(bits);
      if |m| < 0x2000_0000_0000_0000 {
        assert fed == Pad(m);
        Counted();
        assert full == BlockCount(|m|);
      }
    }

    /** sha256_final(): for a message of fewer than 2^61 bytes, fed in whatever pieces, the
        digest of FIPS 180-4, in hex. */
    method Final() returns (out: array<char>)
      requires Valid()
      modifies this, buf
      ensures fresh(out) && out.Length == 65 && out[64] == NUL
      ensures |old(fed)| < 0x2000_0000_0000_0000 ==>
                forall i :: 0 <= i < 8 ==> WrittenAt(out[..], i * 8, Words(Digest(old(fed)))[i])
    {
      hide Digest, Valid, WrittenAt;
      FeedPadding();
      out := WriteHex(h);
    }
  }

  function Joined(pieces: seq<seq<Byte>>): seq<Byte> {
    if pieces == [] then [] else Joined(pieces[..|pieces| - 1]) + pieces[|pieces| - 1]
  }

  lemma JoinedNone(pieces: seq<seq<Byte>>)
    ensures Joined(pieces[..0]) == []
  {
  }

  lemma JoinedPush(pieces: seq<seq<Byte>>, i: nat)
    requires i < |pieces|
    ensures Joined(pieces[..i + 1]) == Joined(pieces[..i]) + pieces[i]
  {
    assert pieces[..i + 1][..i] == pieces[..i];
  }

  /** sha256_file(): `pieces` is what the successive reads of the file bring, and `sound`
      whether the stream ends without an error. The digits are those of the digest of the
      whole file, however the reads cut it. */
  method HashFile(pieces: seq<seq<Byte>>, opens: bool, sound: bool) returns (rc: int, out: array<char>)
    ensures fresh(out) && out.Length == 65
    ensures rc == (if opens && sound then 0 else -1)
    ensures rc != 0 ==> out[0] == NUL
    ensures rc == 0 && |Joined(pieces)| < 0x2000_0000_0000_0000 ==>
              forall i :: 0 <= i < 8 ==> WrittenAt(out[..], i * 8, Words(Digest(Joined(pieces)))[i])
    ensures rc == 0 ==> out[64] == NUL
  {
    hide Digest, WrittenAt, Joined, Context.Hashed, Context.Valid;
    rc, out := -1, new char[65](_ => NUL);
    if !opens { return; }
    var c := new Context();
    JoinedNone(pieces);
    for i := 0 to |pieces|
      invariant c.Valid() && c.fed == Joined(pieces[..i]) && fresh(c) && fresh(c.buf)
    {
      c.Update(pieces[i]);
      JoinedPush(pieces, i);
    }
    assert pieces[..|pieces|] == pieces;
    if !sound {
      out[0] := NUL;
      return;
    }
    out := c.Final();
    rc := 0;
  }
}
