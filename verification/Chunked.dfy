/**
 Chunked bodies (section 7.1 of RFC 9112) as bench/src/http.c reads them:
 chunks_complete(), which decides when to stop reading, and dechunk(), which decodes in
 place.
 */
module Chunked {
  import opened CText

  const MAX_REPLY: nat := 0x4_0000

  // ----- what a sender writes -----

  function Number(size: string): nat {
    HexValue(size, 0, |size|)
  }

  /** A number is written with its most significant digit first. */
  lemma NumberIs(size: string, d: nat)
    requires d < 16
    ensures Number([]) == 0
    ensures Number(size + ["0123456789ABCDEF"[d]]) == 16 * Number(size) + d
    ensures Number(size + ["0123456789abcdef"[d]]) == 16 * Number(size) + d
  {
    HexDigitsAre(d, '0');
    var upper, lower := size + ["0123456789ABCDEF"[d]], size + ["0123456789abcdef"[d]];
    assert Copied(size, 0, upper, 0, |size|) && Copied(size, 0, lower, 0, |size|);
    SameValue(size, 0, upper, 0, |size|);
    SameValue(size, 0, lower, 0, |size|);
  }

  predicate OneLine(s: string) {
    forall i :: 0 <= i < |s| ==> s[i] != CR && s[i] != LF && s[i] != NUL
  }

  /** Any hex spelling of the size, any extensions. */
  predicate SizeLine(size: string, ext: string) {
    size != [] && AllHex(size) && EndsNumber(ext, 0) && OneLine(ext)
  }

  datatype Chunk = Chunk(size: string, ext: string, data: string) {
    function Line(): string { size + ext + CRLF }

    function Block(): string { Line() + (data + CRLF) }

    predicate Valid() {
      SizeLine(size, ext) && Number(size) == |data| > 0
    }
  }

  /** The end of the body: a zero size, and whatever trailer section follows its line. */
  datatype Last = Last(size: string, ext: string, trailer: string) {
    function Line(): string { size + ext + CRLF }

    predicate Valid() {
      SizeLine(size, ext) && Number(size) == 0
    }
  }

  datatype Body = Body(chunks: seq<Chunk>, last: Last) {
    predicate Valid() {
      last.Valid() && forall i :: 0 <= i < |chunks| ==> chunks[i].Valid()
    }

    function Tail(): Body
      requires chunks != []
    {
      Body(chunks[1..], last)
    }
  }

  /** Up to the end of the terminating zero-size line. */
  function Framed(b: Body): string
    decreases |b.chunks|
  {
    if b.chunks == [] then b.last.Line() else b.chunks[0].Block() + Framed(b.Tail())
  }

  function Encode(b: Body): string {
    Framed(b) + b.last.trailer
  }

  function Data(chunks: seq<Chunk>): string {
    if chunks == [] then [] else chunks[0].data + Data(chunks[1..])
  }

  /** The chunks whose data lies whole within the first n bytes of the encoding. */
  function WholeData(chunks: seq<Chunk>, n: int): string {
    if chunks == [] || n < |chunks[0].Line()| + |chunks[0].data| then []
    else chunks[0].data + WholeData(chunks[1..], n - |chunks[0].Block()|)
  }

  /** Wikipedia in two chunks. */
  lemma WikipediaInChunks()
    ensures var b := Body([Chunk("4", "", "Wiki"), Chunk("5", "", "pedia")], Last("0", "", "\r\n"));
            && b.Valid() && Data(b.chunks) == "Wiki" + "pedia"
            && Encode(b) == "4\r\n" + ("Wiki" + "\r\n") + ("5\r\n" + ("pedia" + "\r\n") + "0\r\n") + "\r\n"
  {
    var c, d, l := Chunk("4", "", "Wiki"), Chunk("5", "", "pedia"), Last("0", "", "\r\n");
    var b := Body([c, d], l);
    ThreeNumbers();
    assert c.Valid() && d.Valid() && l.Valid();
    assert c.Line() == "4\r\n" && d.Line() == "5\r\n" && l.Line() == "0\r\n";
    assert c.Block() == "4\r\n" + ("Wiki" + CRLF) && d.Block() == "5\r\n" + ("pedia" + CRLF) && CRLF == "\r\n";
    hide Number, Chunk.Valid, Last.Valid, Chunk.Line, Last.Line, Chunk.Block;
    assert [c, d][1..] == [d] && [d][1..] == [];
    assert b.Tail() == Body([d], l) && Body([d], l).Tail() == Body([], l);
    assert Data([]) == [] && Data([d]) == "pedia" + [] == "pedia";
    assert Framed(Body([d], l)) == d.Block() + Framed(Body([], l));
    assert Framed(b) == c.Block() + Framed(b.Tail());
  }

  lemma ThreeNumbers()
    ensures Number("4") == 4 && Number("5") == 5 && Number("0") == 0
  {
    NumberIs([], 4);
    NumberIs([], 5);
    NumberIs([], 0);
    hide Number;
    assert [] + ["0123456789ABCDEF"[4]] == "4" && [] + ["0123456789ABCDEF"[5]] == "5" && [] + ["0123456789ABCDEF"[0]] == "0";
  }

  // ----- finding it in a buffer -----

  /** From `at` on the buffer carries e, as far as both go. */
  predicate Carries(p: string, at: nat, e: string) {
    at <= |p| && forall k :: at <= k < |p| && k < at + |e| ==> p[k] == e[k - at]
  }

  /** A size line that has arrived whole: where it ends. */
  lemma LineEndIsFound(size: string, ext: string, p: string, at: nat, from: nat)
    requires SizeLine(size, ext) && Carries(p, at, size + ext + CRLF)
    requires at <= from <= at + |size| && at + |size| + |ext| + 2 <= |p|
    ensures Find(p, from, CRLF) == at + |size| + |ext|
  {
    var line, end := size + ext + CRLF, at + |size| + |ext|;
    assert forall k :: from <= k < end ==> !LineEnds(p, k);
    assert p[end] == line[|size| + |ext|] && p[end + 1] == line[|size| + |ext| + 1];
    LineEndIs(p, from, end);
  }

  /** A size line that has arrived whole: the number in it. */
  lemma SizeIsRead(size: string, ext: string, p: string, at: nat)
    requires SizeLine(size, ext) && Carries(p, at, size + ext + CRLF)
    requires at + |size| + |ext| + 2 <= |p|
    ensures Strtoul(p, at) == Scan(Saturated(Number(size)), at + |size|)
  {
    var line := size + ext + CRLF;
    forall k | at <= k < at + |size| ensures IsHex(p[k]) && p[k] == size[k - at] {
      assert p[k] == line[k - at];
    }
    assert p[at + |size|] == line[|size|];
    StrtoulReads(p, at, at + |size|);
    assert Copied(size, 0, p, at, |size|);
    SameValue(size, 0, p, at, |size|);
  }

  /** A size line that is still arriving has no line end. */
  lemma LineStillArriving(size: string, ext: string, p: string, at: nat, from: nat)
    requires SizeLine(size, ext) && Carries(p, at, size + ext + CRLF)
    requires at <= from <= |p| < at + |size| + |ext| + 2
    ensures Find(p, from, CRLF) == |p|
  {
    assert forall k :: from <= k < |p| - 1 ==> !LineEnds(p, k);
    LineEndIsNone(p, from);
  }

  // ----- chunks_complete() -----

  /** What chunks_complete() makes of the line that starts at `at`: not here yet, a reason to
      stop, or a chunk after which the next line starts at `next`. */
  datatype Reading = Arriving | Over | Skip(next: nat)

  function ReadingAt(s: string, at: nat): (r: Reading)
    requires at <= |s|
    ensures r.Skip? ==> at < r.next
  {
    var eol := Find(s, at, CRLF);
    if eol == |s| then Arriving
    else if !IsHex(s[at]) then Over
    else
      var n := Strtoul(s, at).value;
      if n == 0 || n > MAX_REPLY then Over else Skip(eol + 2 + n + 2)
  }

  /** The walk of chunks_complete() from `at` on over what has arrived. */
  predicate Complete(s: string, at: nat)
    requires at <= |s|
    decreases |s| - at
  {
    match ReadingAt(s, at)
    case Arriving => false
    case Over => true
    case Skip(next) => next <= |s| && Complete(s, next)
  }

  /** The inner loop: the end of the line that starts at `at`, or the last byte. */
  method LineEnd(body: string, at: nat) returns (eol: nat)
    requires at <= |body|
    ensures at <= eol
    ensures Find(body, at, CRLF) == if eol + 1 >= |body| then |body| else eol
  {
    eol := at;
    while eol + 1 < |body| && !(body[eol] == CR && body[eol + 1] == LF)
      invariant at <= eol <= |body| && (at < |body| ==> eol < |body|)
      invariant forall k :: at <= k < eol ==> !LineEnds(body, k)
    {
      eol := eol + 1;
    }
    if eol + 1 < |body| { LineEndIs(body, at, eol); } else { LineEndIsNone(body, at); }
  }

  /** chunks_complete(). */
  method ChunksComplete(body: string) returns (done: bool)
    ensures done == Complete(body, 0)
  {
    hide Strtoul, Find;
    var at: nat := 0;
    while true
      invariant at <= |body| && Complete(body, 0) == Complete(body, at)
      decreases |body| - at
    {
      var eol := LineEnd(body, at);
      if eol + 1 >= |body| { return false; }
      if !IsHex(body[at]) { return true; }
      var n := Strtoul(body, at).value;
      if n == 0 { return true; }
      if n > MAX_REPLY { return true; }
      at := eol + 2 + n + 2;
      if at > |body| { return false; }
    }
  }

  // ----- when it says so -----

  predicate Fits(chunks: seq<Chunk>) {
    forall i :: 0 <= i < |chunks| ==> |chunks[i].data| <= MAX_REPLY
  }

  lemma ReadingAtLine(size: string, ext: string, p: string, at: nat)
    requires SizeLine(size, ext) && Carries(p, at, size + ext + CRLF) && Number(size) <= MAX_REPLY
    ensures var after := at + |size| + |ext| + 2;
            var n := Number(size);
            ReadingAt(p, at) == if after > |p| then Arriving else if n == 0 then Over else Skip(after + n + 2)
  {
    if at + |size| + |ext| + 2 <= |p| {
      LineEndIsFound(size, ext, p, at, at);
      SizeIsRead(size, ext, p, at);
    } else {
      LineStillArriving(size, ext, p, at, at);
    }
  }

  /** A line without a number ends the reply, and so does a chunk of more than 256 KiB. */
  lemma WhatEndsTheReply(size: string, ext: string, p: string, at: nat)
    requires SizeLine(size, ext) && Carries(p, at, size + ext + CRLF) && at + |size| + |ext| + 2 <= |p|
    ensures Number(size) == 0 || Number(size) > 262144 <==> ReadingAt(p, at).Over?
    ensures Number(size) == 0 || Number(size) > 262144 ==> Complete(p, at)
    ensures forall q: nat :: q < |p| && !IsHex(p[q]) && Find(p, q, CRLF) < |p| ==> Complete(p, q)
  {
    LineEndIsFound(size, ext, p, at, at);
    SizeIsRead(size, ext, p, at);
    assert p[at] == (size + ext + CRLF)[0] == size[0];
    hide Find, Strtoul;
  }

  lemma CompleteAtBlock(c: Chunk, p: string, at: nat)
    requires c.Valid() && |c.data| <= MAX_REPLY && Carries(p, at, c.Block())
    ensures Complete(p, at) == (at + |c.Block()| <= |p| && Complete(p, at + |c.Block()|))
  {
    hide *;
    BlockStarts(c, p, at);
    ReadingAtLine(c.size, c.ext, p, at);
    CompleteHere(p, at);
  }

  lemma CompleteHere(p: string, at: nat)
    requires at <= |p|
    ensures var r := ReadingAt(p, at);
            Complete(p, at) <==> r.Over? || (r.Skip? && r.next <= |p| && Complete(p, r.next))
  {
  }

  /** A block starts with its size line and is as long as its parts. */
  lemma BlockStarts(c: Chunk, p: string, at: nat)
    requires c.Valid() && Carries(p, at, c.Block())
    ensures SizeLine(c.size, c.ext) && Carries(p, at, c.size + c.ext + CRLF)
    ensures at <= |p| && Number(c.size) == |c.data| > 0 && |c.Block()| == |c.size| + |c.ext| + 2 + |c.data| + 2
  {
  }

  lemma FramedParts(b: Body, p: string, at: nat)
    requires b.chunks != [] && Carries(p, at, Framed(b))
    ensures var n := |b.chunks[0].Block()|;
            && Carries(p, at, b.chunks[0].Block()) && |Framed(b)| == n + |Framed(b.Tail())|
            && (at + n <= |p| ==> Carries(p, at + n, Framed(b.Tail())))
  {
  }

  /** For everything that has arrived of an encoded body, and whatever follows it: complete
      exactly when the terminating zero-size line has arrived, wherever the cut and whatever
      the data. */
  lemma {:induction false} CompleteIffFramed(b: Body, p: string, at: nat)
    requires b.Valid() && Fits(b.chunks) && Carries(p, at, Framed(b))
    ensures Complete(p, at) <==> at + |Framed(b)| <= |p|
    decreases |b.chunks|
  {
    hide Carries, Strtoul, Find;
    if b.chunks == [] {
      ReadingAtLine(b.last.size, b.last.ext, p, at);
    } else {
      var c := b.chunks[0];
      FramedParts(b, p, at);
      CompleteAtBlock(c, p, at);
      if at + |c.Block()| <= |p| {
        CompleteIffFramed(b.Tail(), p, at + |c.Block()|);
      }
    }
  }

  // ----- dechunk() -----

  function AfterLineEnd(s: string, at: nat): nat {
    if LineEnds(s, at) then at + 2 else at
  }

  /** What one turn of the loop of dechunk() finds at `at`: nothing more to take, or n bytes
      of data. */
  datatype Piece = Stop | Take(data: nat, n: nat)

  function PieceAt(s: string, at: nat): (p: Piece)
    requires at <= |s|
    ensures p.Take? ==> at < p.data && p.data + p.n <= |s| && p.n > 0
  {
    var size := Strtoul(s, at);
    var data := Find(s, size.end, CRLF) + 2;
    if size.end == at || data > |s| || size.value == 0 || |s| - data < size.value then Stop
    else Take(data, size.value)
  }

  /** What dechunk() makes of the string s from `at` on. */
  function Decoded(s: string, at: nat): (r: string)
    requires at <= |s|
    ensures |r| <= |s| - at
    decreases |s| - at
  {
    match PieceAt(s, at)
    case Stop => []
    case Take(data, n) => s[data..data + n] + Decoded(s, AfterLineEnd(s, data + n))
  }

  /** f(at) is the decoding of s from `at` on, one piece p at a time. */
  ghost predicate DecodesAt(s: string, f: nat -> string, at: nat, p: Piece)
    requires p.Take? ==> p.data + p.n <= |s|
  {
    f(at) == if p.Stop? then [] else s[p.data..p.data + p.n] + f(AfterLineEnd(s, p.data + p.n))
  }

  ghost predicate Decodes(s: string, f: nat -> string) {
    forall at: nat :: at <= |s| ==> DecodesAt(s, f, at, PieceAt(s, at))
  }

  /** The buffer during decoding: what is decoded so far, and from the write cursor on the
      input as it came. The write cursor never overtakes the reader. */
  ghost predicate Decoding(s: string, now: string, body: nat, at: nat, out: nat, f: nat -> string) {
    && body <= out <= at <= |s| && |now| == |s|
    && SameFrom(s, now, out) && now[..body] == s[..body]
    && f(body) == now[body..out] + f(at)
  }

  /** now' is now after memmove(now + out, now + data, n). */
  predicate Moved(now: string, now': string, out: nat, data: nat, n: nat) {
    && out + n <= |now| == |now'| && data + n <= |now|
    && forall k :: 0 <= k < |now| ==> now'[k] == now[if out <= k < out + n then data + (k - out) else k]
  }

  /** memmove(a + out, a + data, n) within the first len bytes. */
  method Memmove(a: array<char>, out: nat, data: nat, n: nat, ghost len: nat)
    requires out + n <= len && data + n <= len <= a.Length
    modifies a
    ensures Moved(old(a[..len]), a[..len], out, data, n)
    ensures a[len..] == old(a[len..])
  {
    forall k | 0 <= k < n { a[out + k] := a[data + k]; }
  }

  lemma MovedParts(s: string, now: string, now': string, body: nat, out: nat, data: nat, n: nat)
    requires Moved(now, now', out, data, n) && body <= out <= data && SameFrom(s, now, out)
    ensures now'[body..out + n] == now[body..out] + s[data..data + n]
    ensures now'[..body] == now[..body] && SameFrom(s, now', out + n)
  {
    var r := now[body..out] + s[data..data + n];
    forall k | body <= k < out + n ensures now'[k] == r[k - body] {
      if k >= out { assert now[data + (k - out)] == s[data + (k - out)]; }
    }
    assert now'[body..out + n] == r;
  }

  lemma DecodeOne(s: string, now: string, now': string, body: nat, at: nat, out: nat, data: nat, n: nat, f: nat -> string)
    requires Decoding(s, now, body, at, out, f) && Moved(now, now', out, data, n) && at < data
    requires DecodesAt(s, f, at, Take(data, n))
    ensures Decoding(s, now', body, AfterLineEnd(s, data + n), out + n, f)
    ensures AfterLineEnd(now', data + n) == AfterLineEnd(s, data + n)
  {
    MovedParts(s, now, now', body, out, data, n);
    Regroup(now[body..out], s[data..data + n], f(AfterLineEnd(s, data + n)));
  }

  lemma Regroup(a: string, b: string, c: string)
    ensures a + (b + c) == (a + b) + c
  {
  }

  lemma SameReading(s: string, now: string, at: nat)
    requires at <= |s| && SameFrom(s, now, at)
    ensures Strtoul(now, at) == Strtoul(s, at)
    ensures Find(now, Strtoul(s, at).end, CRLF) == Find(s, Strtoul(s, at).end, CRLF)
  {
    SameStrtoul(s, now, at);
    SameFind(s, now, Strtoul(s, at).end, CRLF);
  }

  lemma FoundEnds(s: string, from: nat)
    requires from <= |s|
    ensures Find(s, from, CRLF) + 2 <= |s| <==> Find(s, from, CRLF) != |s|
  {
    FindFinds(s, from, CRLF);
  }

  /** The reading half of a turn: where the next data lies and how much of it. */
  method ReadSize(a: array<char>, at: nat, len: nat, ghost s: string) returns (p: Piece)
    requires len <= a.Length && at <= len == |s| && SameFrom(s, a[..len], at)
    ensures p == PieceAt(s, at)
  {
    SameReading(s, a[..len], at);
    var size := Strtoul(a[..len], at);
    if size.end == at { return Stop; }
    FoundEnds(s, size.end);
    var nl := Find(a[..len], size.end, CRLF);
    if nl == len { return Stop; }
    var data := nl + 2;
    if size.value == 0 { return Stop; }
    if len - data < size.value { return Stop; }
    p := Take(data, size.value);
  }

  /** The moving half: the cursors after it. */
  method TakePiece(a: array<char>, at: nat, out: nat, len: nat, data: nat, n: nat, ghost s: string, ghost body: nat, ghost f: nat -> string)
    returns (at': nat, out': nat)
    requires len < a.Length && a[len] == NUL && |s| == len && Decoding(s, a[..len], body, at, out, f)
    requires at < data && data + n <= len && DecodesAt(s, f, at, Take(data, n))
    modifies a
    ensures a[len..] == old(a[len..]) && Decoding(s, a[..len], body, at', out', f) && at < at'
  {
    ghost var was := a[..len];
    DecodingReads(s, was, body, at, out, f);
    hide Decoding, DecodesAt, Moved;
    Memmove(a, out, data, n, len);
    ghost var now := a[..len];
    DecodeOne(s, was, now, body, at, out, data, n, f);
    out', at' := out + n, AfterLineEnd(a[..len], data + n);
  }

  /** The loop of dechunk(). */
  method DechunkAll(a: array<char>, body: nat, len: nat, ghost f: nat -> string) returns (out: nat)
    requires body <= len < a.Length && a[len] == NUL && Decodes(a[..len], f)
    modifies a
    ensures body <= out <= len && a[body..out] == old(f(body)) && a[..body] == old(a[..body])
    ensures a[out..] == old(a[out..])
  {
    ghost var s := a[..len];
    var at: nat, more := body, true;
    out := body;
    DecodingStarts(s, body, f);
    hide Decoding, Decodes;
    while more
      invariant Decoding(s, a[..len], body, at, out, f) && a[len..] == old(a[len..])
      invariant !more ==> f(at) == []
      decreases more, len - at
    {
      DecodingReads(s, a[..len], body, at, out, f);
      var p := ReadSize(a, at, len, s);
      assert DecodesAt(s, f, at, p) by { DecodesHere(s, f, at); }
      if p.Stop? {
        more := false;
      } else {
        at, out := TakePiece(a, at, out, len, p.data, p.n, s, body, f);
      }
    }
    DecodingEnds(s, a[..len], body, at, out, f);
    assert a[..len][body..out] == a[body..out];
    assert a[..len][..body] == a[..body];
    assert a[out..] == a[..len][out..] + a[len..];
  }

  lemma DecodingStarts(s: string, body: nat, f: nat -> string)
    requires body <= |s|
    ensures Decoding(s, s, body, body, body, f)
  {
    assert s[body..body] + f(body) == f(body);
  }

  lemma DecodingReads(s: string, now: string, body: nat, at: nat, out: nat, f: nat -> string)
    requires Decoding(s, now, body, at, out, f)
    ensures out <= at <= |s| && SameFrom(s, now, at)
  {
  }

  lemma DecodesHere(s: string, f: nat -> string, at: nat)
    requires Decodes(s, f) && at <= |s|
    ensures DecodesAt(s, f, at, PieceAt(s, at))
  {
  }

  lemma DecodingEnds(s: string, now: string, body: nat, at: nat, out: nat, f: nat -> string)
    requires Decoding(s, now, body, at, out, f) && f(at) == []
    ensures body <= out <= |s| == |now| && now[body..out] == f(body)
    ensures now[..body] == s[..body] && now[out..] == s[out..]
  {
    assert now[body..out] + [] == now[body..out];
    assert now[out..] == s[out..];
  }

  lemma DecodedDecodes(s: string) returns (f: nat -> string)
    ensures Decodes(s, f) && forall at: nat :: at <= |s| ==> f(at) == Decoded(s, at)
  {
    f := (at: nat) => if at <= |s| then Decoded(s, at) else [];
    forall at: nat | at <= |s| ensures DecodesAt(s, f, at, PieceAt(s, at)) {
      assert f(at) == Decoded(s, at);
    }
  }

  /** dechunk(a + body), on a string that ends at a[len]. */
  method Dechunk(a: array<char>, body: nat, len: nat) returns (end: nat)
    requires body <= len < a.Length && NulFree(a[..len]) && a[len] == NUL
    modifies a
    ensures end == body + |Decoded(old(a[..len]), body)| <= len
    ensures a[body..end] == Decoded(old(a[..len]), body) && a[end] == NUL
    ensures a[..body] == old(a[..body]) && a[end + 1..] == old(a[end + 1..])
  {
    ghost var f := DecodedDecodes(a[..len]);
    end := DechunkAll(a, body, len, f);
    assert a[end + 1..] == a[end..][1..];
    a[end] := NUL;
  }

  // ----- what it yields -----

  lemma PieceAtLine(size: string, ext: string, p: string, at: nat)
    requires SizeLine(size, ext) && Carries(p, at, size + ext + CRLF) && |p| <= ULONG_MAX
    ensures var data := at + |size| + |ext| + 2;
            var n := Number(size);
            PieceAt(p, at) == if n == 0 || data + n > |p| then Stop else Take(data, n)
  {
    hide Strtoul, Find;
    if at + |size| + |ext| + 2 <= |p| {
      SizeIsRead(size, ext, p, at);
      LineEndIsFound(size, ext, p, at, at + |size|);
    } else {
      LineStillArriving(size, ext, p, at, Strtoul(p, at).end);
    }
  }

  /** What has arrived of a block as dechunk() sees it. */
  lemma PieceAtBlock(c: Chunk, p: string, at: nat)
    requires c.Valid() && Carries(p, at, c.Block()) && |p| <= ULONG_MAX
    ensures var data := at + |c.Line()|;
            PieceAt(p, at) == if data + |c.data| > |p| then Stop else Take(data, |c.data|)
  {
    PieceAtLine(c.size, c.ext, p, at);
  }

  /** How dechunk() sees a block with a size line of `line` bytes and data d. */
  ghost predicate BlockRead(p: string, at: nat, line: nat, d: string) {
    && at <= |p|
    && PieceAt(p, at) == (if at + line + |d| > |p| then Stop else Take(at + line, |d|))
    && (at + line + |d| <= |p| ==> p[at + line..at + line + |d|] == d && NextRead(p, at + line + |d|))
  }

  ghost predicate NextRead(p: string, end: nat) {
    var next := AfterLineEnd(p, end);
    next <= |p| && if end + 2 <= |p| then next == end + 2 else PieceAt(p, next) == Stop
  }

  lemma BlockIsRead(c: Chunk, p: string, at: nat)
    requires c.Valid() && Carries(p, at, c.Block()) && |p| <= ULONG_MAX
    ensures BlockRead(p, at, |c.Line()|, c.data)
  {
    PieceAtBlock(c, p, at);
  }

  /** f is the decoding of p. */
  lemma DecodedAtBlock(p: string, at: nat, line: nat, d: string, f: nat -> string)
    requires BlockRead(p, at, line, d) && Decodes(p, f)
    ensures at + line + |d| > |p| ==> f(at) == []
    ensures at + line + |d| <= |p| < at + line + |d| + 2 ==> f(at) == d
    ensures at + line + |d| + 2 <= |p| ==> f(at) == d + f(at + line + |d| + 2)
  {
    hide PieceAt;
    assert DecodesAt(p, f, at, PieceAt(p, at));
    if at + line + |d| <= |p| {
      var next := AfterLineEnd(p, at + line + |d|);
      assert DecodesAt(p, f, next, PieceAt(p, next));
    }
  }

  lemma DecodedAtLast(last: Last, p: string, at: nat, f: nat -> string)
    requires last.Valid() && Carries(p, at, last.Line()) && |p| <= ULONG_MAX && Decodes(p, f)
    ensures f(at) == []
  {
    PieceAtLine(last.size, last.ext, p, at);
    assert DecodesAt(p, f, at, PieceAt(p, at));
  }

  lemma {:induction false} DecodingIsWholeData(b: Body, p: string, at: nat, f: nat -> string)
    requires b.Valid() && Carries(p, at, Framed(b)) && |p| <= ULONG_MAX && Decodes(p, f)
    ensures f(at) == WholeData(b.chunks, |p| - at)
    decreases |b.chunks|
  {
    hide PieceAt, Carries, Decodes;
    if b.chunks == [] {
      DecodedAtLast(b.last, p, at, f);
    } else {
      var c := b.chunks[0];
      FramedParts(b, p, at);
      BlockIsRead(c, p, at);
      DecodedAtBlock(p, at, |c.Line()|, c.data, f);
      if at + |c.Block()| <= |p| {
        DecodingIsWholeData(b.Tail(), p, at + |c.Block()|, f);
      }
    }
  }

  lemma {:induction false} WholeDataIsAll(b: Body, n: nat)
    requires n >= |Framed(b)|
    ensures WholeData(b.chunks, n) == Data(b.chunks)
    decreases |b.chunks|
  {
    if b.chunks != [] { WholeDataIsAll(b.Tail(), n - |b.chunks[0].Block()|); }
  }

  /** From any piece of an encoded body that has arrived, dechunk() yields exactly the chunks
      whose data is whole. */
  lemma DecodedIsWholeData(b: Body, p: string, at: nat)
    requires b.Valid() && Carries(p, at, Framed(b)) && |p| <= ULONG_MAX
    ensures Decoded(p, at) == WholeData(b.chunks, |p| - at)
    ensures at + |Framed(b)| <= |p| ==> Decoded(p, at) == Data(b.chunks)
  {
    hide PieceAt, Carries, Framed, Data;
    var f := DecodedDecodes(p);
    DecodingIsWholeData(b, p, at, f);
    if at + |Framed(b)| <= |p| { WholeDataIsAll(b, |p| - at); }
  }

  /** The round trip: decoding an encoded body gives back its data, whatever the spelling of
      the sizes, the extensions and the trailer section, and whatever stands before it. */
  lemma RoundTrip(b: Body, head: string, rest: string)
    requires b.Valid() && |head + Encode(b) + rest| <= ULONG_MAX
    ensures Decoded(head + Encode(b) + rest, |head|) == Data(b.chunks)
  {
    var p := head + Encode(b) + rest;
    assert p == head + Framed(b) + (b.last.trailer + rest);
    DecodedIsWholeData(b, p, |head|);
  }

  /** The reader and the decoder agree: once the reader says stop, nothing of the data is
      missing, and what follows changes nothing. */
  lemma CompleteMeansWhole(b: Body, p: string, at: nat)
    requires b.Valid() && Fits(b.chunks) && Carries(p, at, Framed(b)) && |p| <= ULONG_MAX && Complete(p, at)
    ensures Decoded(p, at) == Data(b.chunks)
  {
    CompleteIffFramed(b, p, at);
    DecodedIsWholeData(b, p, at);
  }
}
