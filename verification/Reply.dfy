/**
 read_reply() of bench/src/http.c, which collects a reply in whatever pieces it arrives, and
 the body half of parse_reply().
 */
module Replies {
  import opened CText
  import opened Chunked

  const FIRST_CAP: nat := 8192
  const READ_ROOM: nat := 1024

  const HEAD_END: string := [CR, LF, CR, LF]

  /** What the headers say about where the reply ends. */
  datatype Framing = Framing(chunked: bool, want: int)

  // ----- the header block -----

  /** Where the C string in these bytes ends: at the first NUL, or with them. */
  function StringEnd(data: string): (n: nat)
    ensures n <= |data|
  {
    Find(data, 0, [NUL])
  }

  function Split(data: string): nat {
    Find(data[..StringEnd(data)], 0, HEAD_END)
  }

  /** strstr() finds the end of the headers. */
  predicate HasHead(data: string) {
    Split(data) < StringEnd(data)
  }

  lemma HeadFits(data: string)
    requires HasHead(data)
    ensures Split(data) + 4 <= StringEnd(data)
  {
    FindFinds(data[..StringEnd(data)], 0, HEAD_END);
  }

  lemma {:induction false} FindInLonger(s: string, t: string, from: nat, pat: string)
    requires from <= |s| && s <= t && Find(s, from, pat) < |s|
    ensures Find(t, from, pat) == Find(s, from, pat)
  {
    FindFinds(s, from, pat);
    var i := Find(s, from, pat);
    forall k: nat | from <= k < i ensures !At(t, k, pat) {
      assert !At(s, k, pat);
      if At(t, k, pat) { NotBefore(s, t, k, i, pat); }
    }
    FindIsLeast(t, from, pat, i);
  }

  lemma NotBefore(s: string, t: string, k: nat, i: nat, pat: string)
    requires s <= t && k <= i && At(s, i, pat) && At(t, k, pat)
    ensures At(s, k, pat)
  {
    forall j | 0 <= j < |pat| ensures s[k + j] == pat[j] {
      assert t[k + j] == pat[j];
    }
  }

  lemma StringIsNulFree(data: string)
    ensures NulFree(data[..StringEnd(data)])
    ensures StringEnd(data) < |data| ==> data[StringEnd(data)] == NUL
  {
    FindFinds(data, 0, [NUL]);
    forall k: nat | k < StringEnd(data) ensures data[k] != NUL {
      assert !At(data, k, [NUL]);
    }
    if StringEnd(data) < |data| { assert data[StringEnd(data) + 0] == [NUL][0]; }
  }

  lemma StringEndOfLonger(s: string, t: string)
    requires s <= t
    ensures StringEnd(s) <= StringEnd(t)
    ensures s[..StringEnd(s)] <= t[..StringEnd(t)]
  {
    StringIsNulFree(s);
    StringIsNulFree(t);
    assert forall k :: 0 <= k < StringEnd(s) ==> s[..StringEnd(s)][k] == t[k];
  }

  /** More bytes do not move the end of the headers. */
  lemma HeadIsStable(s: string, t: string)
    requires s <= t && HasHead(s)
    ensures HasHead(t) && Split(t) == Split(s)
  {
    StringEndOfLonger(s, t);
    FindInLonger(s[..StringEnd(s)], t[..StringEnd(t)], 0, HEAD_END);
  }

  function Head(data: string): string
    requires HasHead(data)
  {
    data[..Split(data)]
  }

  function BodyOf(data: string): string
    requires HasHead(data)
  {
    HeadFits(data);
    data[Split(data) + 4..]
  }

  /** Whether the reply, as its own headers frame it, is here. */
  predicate Arrived(frame: string -> Framing, data: string) {
    HasHead(data) && Ended(frame(Head(data)), BodyOf(data))
  }

  predicate Ended(f: Framing, body: string) {
    if f.chunked then Complete(body, 0) else f.want >= 0 && |body| >= f.want
  }

  // ----- read_reply() -----

  /** The peer and the heap: how many bytes each recv() brings, which fail, and which sizes
      can be had. */
  datatype World = World(stream: string, offers: nat -> nat, fails: nat -> bool, room: nat -> bool)

  ghost predicate NothingFails(w: World) {
    (forall i :: !w.fails(i)) && forall n :: w.room(n)
  }

  lemma SomethingFails(w: World, tick: nat, cap: nat)
    ensures w.fails(tick) || !w.room(cap) ==> !NothingFails(w)
  {
  }

  /** A peer whose every byte is read by itself. */
  ghost predicate ByteByByte(w: World) {
    forall i :: w.offers(i) <= 1
  }

  /** How much a reply may have and be read whole however it is cut up: a read is made only
      while READ_ROOM bytes of the largest buffer are free. */
  const SURELY_READ: nat := MAX_REPLY - READ_ROOM + 1

  function Least(a: nat, b: nat): nat {
    if a < b then a else b
  }

  /** recv(): some of what is left, at least one byte unless nothing is. */
  method Recv(stream: string, buf: array<char>, len: nat, room: nat, offer: nat) returns (n: nat)
    requires len <= |stream| && 0 < room && len + room < buf.Length && buf[..len] == stream[..len]
    modifies buf
    ensures n <= room && len + n <= |stream| && (n == 0 <==> len == |stream|)
    ensures offer <= 1 ==> n <= 1
    ensures buf[..len + n] == stream[..len + n]
  {
    n := Least(if offer == 0 then 1 else offer, Least(room, |stream| - len));
    forall k | 0 <= k < n { buf[len + k] := stream[len + k]; }
    assert forall k :: 0 <= k < len ==> buf[k] == stream[..len][k];
  }

  predicate Capacity(cap: nat) {
    cap == 8192 || cap == 16384 || cap == 32768 || cap == 65536 || cap == 131072 || cap == MAX_REPLY
  }

  lemma CapacityBounds(cap: nat)
    ensures Capacity(FIRST_CAP)
    ensures Capacity(cap) ==> FIRST_CAP <= cap <= MAX_REPLY
  {
  }

  /** realloc() to twice the size. */
  method Grow(buf: array<char>, len: nat) returns (bigger: array<char>)
    requires len <= buf.Length
    ensures fresh(bigger) && bigger.Length == buf.Length * 2 && bigger[..len] == buf[..len]
  {
    bigger := new char[buf.Length * 2];
    forall k | 0 <= k < len { bigger[k] := buf[k]; }
  }

  /** What read_reply() knows of the headers once it has seen them: nothing while headEnd is
      zero. */
  predicate Known(frame: string -> Framing, data: string, headEnd: nat, f: Framing) {
    if headEnd == 0 then !HasHead(data) else HasHead(data) && headEnd == Split(data) + 4 && f == frame(Head(data))
  }

  lemma StillKnown(frame: string -> Framing, s: string, t: string, headEnd: nat, f: Framing)
    requires Known(frame, s, headEnd, f) && headEnd != 0 && s <= t
    ensures Known(frame, t, headEnd, f)
  {
    HeadIsStable(s, t);
    HeadFits(s);
    assert Head(s) == Head(t);
  }

  lemma NothingYet(frame: string -> Framing, f: Framing)
    ensures Known(frame, [], 0, f) && !Arrived(frame, [])
  {
  }

  /** The checks after a read: the headers, if they were not here yet, then the end. */
  method Inspect(frame: string -> Framing, data: string, headEnd: nat, f: Framing)
    returns (done: bool, headEnd': nat, f': Framing)
    requires headEnd == 0 || Known(frame, data, headEnd, f)
    ensures Known(frame, data, headEnd', f') && done == Arrived(frame, data)
  {
    headEnd', f', done := headEnd, f, false;
    if headEnd == 0 {
      var split := Split(data);
      if split >= StringEnd(data) { return; }
      headEnd' := split + 4;
      f' := frame(data[..split]);
    }
    HeadFits(data);
    var body := data[headEnd'..];
    if f'.chunked {
      done := ChunksComplete(body);
    } else {
      done := f'.want >= 0 && |body| >= f'.want;
    }
  }

  datatype Outcome = Read(buf: array<char>, len: nat) | ReadFailed | OutOfMemory

  /** What is known of the read that brought the bytes up to len. */
  ghost predicate LastRead(w: World, frame: string -> Framing, len: nat, before: nat) {
    len <= |w.stream| && (0 < len ==>
      before < len && !Arrived(frame, w.stream[..before]) && before < SURELY_READ && (ByteByByte(w) ==> len == before + 1))
  }

  /** The loop of read_reply(), with these bytes in the buffer and more to come. */
  ghost predicate Reading(w: World, frame: string -> Framing, data: string, headEnd: nat, f: Framing, before: nat) {
    && data <= w.stream && Known(frame, data, headEnd, f) && !Arrived(frame, data)
    && LastRead(w, frame, |data|, before)
  }

  /** And at its end: the reply is here, the buffer is full, or the peer hung up. */
  ghost predicate Finished(w: World, frame: string -> Framing, data: string, waited: bool, before: nat) {
    && data <= w.stream && (waited ==> !Arrived(frame, w.stream))
    && (Arrived(frame, data) || |data| > MAX_REPLY - READ_ROOM || (waited && |data| == |w.stream|))
    && LastRead(w, frame, |data|, before)
  }

  lemma FullUp(w: World, frame: string -> Framing, data: string, headEnd: nat, f: Framing, before: nat)
    requires Reading(w, frame, data, headEnd, f, before) && |data| > MAX_REPLY - READ_ROOM
    ensures Finished(w, frame, data, false, before)
  {
  }

  /** One recv() and, when it brought anything, the checks after it. */
  method ReadOnce(w: World, frame: string -> Framing, buf: array<char>, len: nat, room: nat, tick: nat, headEnd: nat, f: Framing,
                  ghost before: nat)
    returns (n: nat, done: bool, headEnd': nat, f': Framing)
    requires 0 < room && len + room < buf.Length && len < SURELY_READ
    requires Reading(w, frame, buf[..len], headEnd, f, before)
    modifies buf
    ensures n <= room && len + n <= |w.stream|
    ensures n == 0 ==> Finished(w, frame, buf[..len], true, before)
    ensures n > 0 && done ==> Finished(w, frame, buf[..len + n], false, len)
    ensures n > 0 && !done ==> Reading(w, frame, buf[..len + n], headEnd', f', len)
  {
    hide Known, Arrived;
    assert buf[..len] == w.stream[..len];
    n := Recv(w.stream, buf, len, room, w.offers(tick));
    done, headEnd', f' := false, headEnd, f;
    if n > 0 {
      if headEnd != 0 { StillKnown(frame, w.stream[..len], w.stream[..len + n], headEnd, f); }
      done, headEnd', f' := Inspect(frame, buf[..len + n], headEnd, f);
    } else {
      assert buf[..len] == w.stream;
    }
  }

  /** Before a read: room for it, in a buffer of twice the size where there is none left, or
      the news that the largest buffer is full. */
  method MakeRoom(w: World, buf: array<char>, len: nat) returns (full: bool, ok: bool, bigger: array<char>)
    requires Capacity(buf.Length) && len < buf.Length
    ensures full ==> ok && len > MAX_REPLY - READ_ROOM
    ensures full || !ok ==> bigger == buf
    ensures !ok ==> !NothingFails(w)
    ensures bigger == buf || fresh(bigger)
    ensures Capacity(bigger.Length) && len < bigger.Length && bigger[..len] == buf[..len]
    ensures ok && !full ==> len + READ_ROOM <= bigger.Length
  {
    hide NothingFails;
    var cap := buf.Length;
    full, ok, bigger := false, true, buf;
    if len + READ_ROOM > cap {
      if cap >= MAX_REPLY { return true, true, buf; }
      if !w.room(cap * 2) {
        SomethingFails(w, 0, cap * 2);
        return false, false, buf;
      }
      bigger := Grow(buf, len);
    }
  }

  /** The loop of read_reply(). */
  method Collect(w: World, frame: string -> Framing) returns (r: Outcome, waited: bool, ghost before: nat)
    ensures NothingFails(w) ==> r.Read?
    ensures r.Read? ==> fresh(r.buf) && r.len < r.buf.Length && Capacity(r.buf.Length)
    ensures r.Read? ==> Finished(w, frame, r.buf[..r.len], waited, before)
    ensures !r.Read? ==> !waited
  {
    hide Capacity, NothingFails, Reading, Finished;
    CapacityBounds(FIRST_CAP);
    var len, headEnd, f := 0, 0, Framing(false, -1);
    var tick: nat := 0;
    waited, before := false, 0;
    if !w.room(FIRST_CAP) {
      SomethingFails(w, tick, FIRST_CAP);
      return OutOfMemory, waited, before;
    }
    var buf := new char[FIRST_CAP];
    ReadingStarts(w, frame, f);
    assert buf[..0] == [];
    while true
      invariant fresh(buf) && Capacity(buf.Length) && len < buf.Length && len <= |w.stream|
      invariant !waited && Reading(w, frame, buf[..len], headEnd, f, before)
      decreases |w.stream| - len
    {
      var full, ok;
      full, ok, buf := MakeRoom(w, buf, len);
      if !ok { return OutOfMemory, waited, before; }
      if full {
        FullUp(w, frame, buf[..len], headEnd, f, before);
        break;
      }
      SomethingFails(w, tick, FIRST_CAP);
      if w.fails(tick) { return ReadFailed, waited, before; }
      CapacityBounds(buf.Length);
      var n, done;
      n, done, headEnd, f := ReadOnce(w, frame, buf, len, buf.Length - len - 1, tick, headEnd, f, before);
      tick := tick + 1;
      if n == 0 {
        waited := true;
        break;
      }
      before, len := len, len + n;
      if done { break; }
    }
    r := Read(buf, len);
  }

  lemma ReadingStarts(w: World, frame: string -> Framing, f: Framing)
    ensures Reading(w, frame, [], 0, f, 0)
  {
    NothingYet(frame, f);
  }

  lemma FinishedIs(w: World, frame: string -> Framing, data: string, waited: bool, before: nat)
    requires Finished(w, frame, data, waited, before)
    ensures |data| <= |w.stream| && data == w.stream[..|data|]
    ensures Arrived(frame, w.stream[..|data|]) || |data| > MAX_REPLY - READ_ROOM || (waited && |data| == |w.stream|)
    ensures waited ==> !Arrived(frame, w.stream)
    ensures 0 < |data| ==> before < |data| && !Arrived(frame, w.stream[..before])
    ensures 0 < |data| ==> before < SURELY_READ && (ByteByByte(w) ==> |data| == before + 1)
  {
    hide Arrived, ByteByByte;
  }

  /** read_reply(). `waited` says whether it went on to wait for a peer with nothing more to
      send, and `before` how much it had before its last read. */
  method ReadReply(w: World, frame: string -> Framing) returns (r: Outcome, waited: bool, ghost before: nat)
    ensures NothingFails(w) ==> r.Read?
    ensures r.Read? ==> fresh(r.buf) && r.len < r.buf.Length <= MAX_REPLY && r.len <= |w.stream|
    ensures r.Read? ==> r.buf[..r.len] == w.stream[..r.len] && r.buf[r.len] == NUL
    ensures r.Read? ==> Arrived(frame, w.stream[..r.len]) || r.len > MAX_REPLY - READ_ROOM || (waited && r.len == |w.stream|)
    ensures waited ==> !Arrived(frame, w.stream)
    ensures r.Read? && 0 < r.len ==> before < r.len && !Arrived(frame, w.stream[..before])
    ensures r.Read? && 0 < r.len ==> before < SURELY_READ && (ByteByByte(w) ==> r.len == before + 1)
  {
    hide *;
    r, waited, before := Collect(w, frame);
    if r.Read? {
      CapacityBounds(r.buf.Length);
      FinishedIs(w, frame, r.buf[..r.len], waited, before);
      ghost var data := r.buf[..r.len];
      r.buf[r.len] := NUL;
      assert r.buf[..r.len] == data;
    }
  }

  // ----- the body half of parse_reply() -----

  /** The body that is handed on. */
  function BodyText(frame: string -> Framing, data: string): string {
    if !HasHead(data) then []
    else
      HeadFits(data);
      if frame(Head(data)).chunked then Decoded(data[..StringEnd(data)], Split(data) + 4)
      else data[Split(data) + 4..StringEnd(data)]
  }

  method ParseBody(raw: array<char>, len: nat, frame: string -> Framing) returns (body: string)
    requires len < raw.Length && raw[len] == NUL
    modifies raw
    ensures body == BodyText(frame, old(raw[..len]))
  {
    hide Decoded, Find;
    var data := raw[..len];
    var end := StringEnd(data);
    StringIsNulFree(data);
    if Split(data) >= end { return []; }
    HeadFits(data);
    var start := Split(data) + 4;
    assert Head(data) == data[..start - 4];
    assert raw[..end] == data[..end] && raw[start..end] == data[start..end];
    if frame(data[..start - 4]).chunked {
      assert raw[end] == NUL by { if end < len { assert raw[end] == data[end]; } }
      end := Dechunk(raw, start, end);
    }
    body := raw[start..end];
  }

  // ----- whatever the fragments -----

  /** A header block, its own end not counted. */
  predicate IsHead(head: string) {
    NulFree(head) && Find(head + HEAD_END, 0, HEAD_END) == |head|
  }

  /** A whole reply in chunks, and anything behind it. */
  function ChunkedReply(head: string, b: Body, rest: string): string {
    head + HEAD_END + (Encode(b) + rest)
  }

  /** Where its terminating zero-size line ends. */
  function ReplyEnd(head: string, b: Body): nat {
    |head| + 4 + |Framed(b)|
  }

  lemma NulFreeStart(s: string, start: string, n: nat)
    requires NulFree(start) && start <= s && n <= |s|
    ensures StringEnd(s[..n]) >= Least(n, |start|)
  {
    var t := s[..n];
    StringIsNulFree(t);
    assert forall k :: 0 <= k < n && k < |start| ==> t[k] == start[k];
  }

  /** The headers are seen exactly when their end has arrived. */
  lemma HeadArrives(head: string, rest: string, n: nat)
    requires IsHead(head) && n <= |head + HEAD_END + rest|
    ensures var p := (head + HEAD_END + rest)[..n];
            && (HasHead(p) <==> n >= |head| + 4)
            && (HasHead(p) ==> Split(p) == |head| && Head(p) == head && BodyOf(p) == rest[..n - |head| - 4])
  {
    var s := head + HEAD_END + rest;
    var p, h := s[..n], head + HEAD_END;
    var whole := s[..|h|];
    assert whole == h;
    NulFreeStart(s, h, |h|);
    assert h[..StringEnd(h)] == h;
    if n >= |h| {
      assert h <= p;
      HeadIsStable(h, p);
    } else if HasHead(p) {
      assert p <= h;
      HeadIsStable(p, h);
      HeadFits(p);
      assert false;
    }
  }

  /** For every cut of a chunked reply: it counts as arrived exactly when its terminating
      zero-size line has. */
  lemma ArrivedIffEnded(frame: string -> Framing, head: string, b: Body, rest: string, n: nat)
    requires IsHead(head) && frame(head).chunked && b.Valid() && Fits(b.chunks)
    requires n <= |ChunkedReply(head, b, rest)|
    ensures Arrived(frame, ChunkedReply(head, b, rest)[..n]) <==> n >= ReplyEnd(head, b)
  {
    var tail := Encode(b) + rest;
    HeadArrives(head, tail, n);
    if n >= |head| + 4 {
      var body := tail[..n - |head| - 4];
      assert tail == Framed(b) + (b.last.trailer + rest);
      CompleteIffFramed(b, body, 0);
    }
  }

  /** Once a chunked reply has arrived, its body is the chunks' data. */
  lemma ArrivedIsWhole(frame: string -> Framing, head: string, b: Body, rest: string, n: nat)
    requires IsHead(head) && frame(head).chunked && b.Valid() && NulFree(Framed(b))
    requires ReplyEnd(head, b) <= n <= |ChunkedReply(head, b, rest)| && n <= ULONG_MAX
    ensures BodyText(frame, ChunkedReply(head, b, rest)[..n]) == Data(b.chunks)
  {
    hide Carries, Decoded, Framed, Data, NulFree, Find;
    var s := ChunkedReply(head, b, rest);
    var p, start := s[..n], head + HEAD_END + Framed(b);
    HeadArrives(head, Encode(b) + rest, n);
    assert s == start + (b.last.trailer + rest);
    NulFreeReply(head, Framed(b));
    NulFreeStart(s, start, n);
    var t := p[..StringEnd(p)];
    ReplyCarries(head + HEAD_END, Framed(b), b.last.trailer + rest, t);
    DecodedIsWholeData(b, t, |head| + 4);
  }

  lemma NulFreeReply(head: string, e: string)
    requires NulFree(head) && NulFree(e)
    ensures NulFree(head + HEAD_END + e)
  {
  }

  lemma ReplyCarries(before: string, e: string, after: string, t: string)
    requires t <= before + e + after && |before| <= |t|
    ensures Carries(t, |before|, e)
  {
  }

  lemma ChunkedReplyEnds(head: string, b: Body, rest: string)
    ensures ReplyEnd(head, b) <= |ChunkedReply(head, b, rest)|
  {
  }

  /** From the first byte to the body. */
  method Fetch(w: World, frame: string -> Framing) returns (body: string, ok: bool, waited: bool, got: nat)
    ensures NothingFails(w) ==> ok
    ensures ok ==> got <= |w.stream| && got < MAX_REPLY && body == BodyText(frame, w.stream[..got])
    ensures ok ==> Arrived(frame, w.stream[..got]) || got > MAX_REPLY - READ_ROOM || (waited && got == |w.stream|)
    ensures waited ==> !Arrived(frame, w.stream)
    ensures ok && ByteByByte(w) ==> got <= SURELY_READ
  {
    var r, waits, before := ReadReply(w, frame);
    waited := waits;
    if !r.Read? { return [], false, waited, 0; }
    body := ParseBody(r.buf, r.len, frame);
    ok, got := true, r.len;
  }

  /** What Fetch() promises, for a chunked reply that fits. */
  lemma FetchedWhole(frame: string -> Framing, head: string, b: Body, rest: string, waited: bool, got: nat)
    requires IsHead(head) && frame(head).chunked && b.Valid() && NulFree(Framed(b))
    requires ReplyEnd(head, b) <= SURELY_READ && got <= |ChunkedReply(head, b, rest)| && got < MAX_REPLY
    requires Arrived(frame, ChunkedReply(head, b, rest)[..got]) || got >= SURELY_READ
             || (waited && got == |ChunkedReply(head, b, rest)|)
    requires waited ==> !Arrived(frame, ChunkedReply(head, b, rest))
    ensures !waited && ReplyEnd(head, b) <= got && BodyText(frame, ChunkedReply(head, b, rest)[..got]) == Data(b.chunks)
  {
    hide Arrived, Framed, BodyText, NulFree, IsHead;
    var s := ChunkedReply(head, b, rest);
    FramedFits(b);
    ChunkedReplyEnds(head, b, rest);
    ArrivedIffEnded(frame, head, b, rest, |s|);
    assert s[..|s|] == s;
    ArrivedIffEnded(frame, head, b, rest, got);
    ArrivedIsWhole(frame, head, b, rest, got);
  }

  /** A chunked reply that fits, in whatever fragments it comes and whatever follows it: it is
      read to its end, without waiting for the peer to hang up, and the body is the chunks'
      data. */
  method FetchChunked(w: World, frame: string -> Framing, ghost head: string, ghost b: Body, ghost rest: string)
    returns (body: string, ok: bool, waited: bool, got: nat)
    requires w.stream == ChunkedReply(head, b, rest) && IsHead(head) && frame(head).chunked
    requires b.Valid() && NulFree(Framed(b)) && ReplyEnd(head, b) <= SURELY_READ
    ensures NothingFails(w) ==> ok
    ensures ok ==> !waited && ReplyEnd(head, b) <= got < MAX_REPLY && body == Data(b.chunks)
  {
    hide Arrived, Framed, BodyText, NulFree, IsHead;
    body, ok, waited, got := Fetch(w, frame);
    if ok { FetchedWhole(frame, head, b, rest, waited, got); }
  }

  /** And the bound is exact: byte by byte, with nothing failing, a chunked reply is read to
      its end if and only if it fits. */
  method FetchByteByByte(frame: string -> Framing, head: string, b: Body, rest: string)
    returns (body: string, ok: bool, waited: bool, got: nat)
    requires IsHead(head) && frame(head).chunked && b.Valid() && NulFree(Framed(b))
    ensures ok && (ReplyEnd(head, b) <= got <==> ReplyEnd(head, b) <= SURELY_READ)
    ensures |head| + 4 + |Framed(b)| <= got <==> |head| + 4 + |Framed(b)| <= 261121
  {
    hide Arrived, Framed, BodyText, NulFree, IsHead;
    var w := World(ChunkedReply(head, b, rest), _ => 1, _ => false, _ => true);
    body, ok, waited, got := Fetch(w, frame);
    if ReplyEnd(head, b) <= SURELY_READ { FetchedWhole(frame, head, b, rest, waited, got); }
  }

  lemma {:induction false} FramedFits(b: Body)
    requires b.Valid() && |Framed(b)| <= MAX_REPLY
    ensures Fits(b.chunks)
    decreases |b.chunks|
  {
    if b.chunks != [] {
      FramedFits(b.Tail());
      assert forall i :: 0 < i < |b.chunks| ==> b.chunks[i] == b.Tail().chunks[i - 1];
    }
  }

  /** The body of a reply that is not chunked: what follows the headers, up to a NUL. */
  lemma BodyIsData(frame: string -> Framing, head: string, data: string, rest: string)
    requires IsHead(head) && !frame(head).chunked && NulFree(data) && (rest == [] || rest[0] == NUL)
    ensures BodyText(frame, head + HEAD_END + (data + rest)) == data
  {
    hide Find, NulFree, Decoded;
    var s, start := head + HEAD_END + (data + rest), head + HEAD_END + data;
    HeadArrives(head, data + rest, |s|);
    assert s[..|s|] == s && s == start + rest && |start| == |head| + 4 + |data|;
    NulFreeReply(head, data);
    NulFreeStart(s, start, |s|);
    StringStops(start, rest);
    assert s[|head| + 4..|start|] == data;
  }

  lemma StringStops(start: string, rest: string)
    requires NulFree(start) && (rest == [] || rest[0] == NUL)
    ensures StringEnd(start + rest) == |start|
  {
    var s := start + rest;
    forall k: nat | 0 <= k < |start| ensures !At(s, k, [NUL]) {
      AtNul(s, k);
      assert s[k] == start[k];
    }
    if rest == [] {
      FindIsNone(s, 0, [NUL]);
    } else {
      assert At(s, |start|, [NUL]);
      FindIsLeast(s, 0, [NUL], |start|);
    }
  }

  lemma AtNul(s: string, k: nat)
    ensures At(s, k, [NUL]) ==> s[k] == NUL
  {
    if At(s, k, [NUL]) { assert s[k + 0] == [NUL][0]; }
  }

  /** Whatever else came along, the body begins with the data that was there. */
  lemma BodyStartsWithData(frame: string -> Framing, head: string, data: string, rest: string, n: nat)
    requires IsHead(head) && !frame(head).chunked && NulFree(data)
    requires |head| + 4 + |data| <= n <= |head + HEAD_END + (data + rest)|
    ensures data <= BodyText(frame, (head + HEAD_END + (data + rest))[..n])
  {
    hide Find, NulFree, Decoded;
    var s, start := head + HEAD_END + (data + rest), head + HEAD_END + data;
    HeadArrives(head, data + rest, n);
    assert s == start + rest;
    NulFreeReply(head, data);
    NulFreeStart(s, start, n);
    var p := s[..n];
    assert BodyText(frame, p) == p[|head| + 4..StringEnd(p)];
    assert forall k :: 0 <= k < |data| ==> p[|head| + 4 + k] == data[k];
  }

  /** A reply with a Content-Length that fits, in whatever fragments it comes: read without
      waiting for the peer to hang up, and its body is the data. */
  method FetchSized(w: World, frame: string -> Framing, ghost head: string, ghost data: string, ghost rest: string)
    returns (body: string, ok: bool, waited: bool, got: nat)
    requires w.stream == head + HEAD_END + (data + rest) && IsHead(head) && NulFree(data)
    requires !frame(head).chunked && frame(head).want == |data| && |head| + 4 + |data| <= 261121
    ensures NothingFails(w) ==> ok
    ensures ok ==> !waited && |head| + 4 + |data| <= got < 262144 && data <= body
    ensures ok && rest == [] ==> body == data
  {
    hide Arrived, BodyText, NulFree, IsHead;
    body, ok, waited, got := Fetch(w, frame);
    if ok {
      ghost var all := data + rest;
      ArrivedIffLength(frame, head, all, got);
      ArrivedIffLength(frame, head, all, |w.stream|);
      assert w.stream[..|w.stream|] == w.stream;
      BodyStartsWithData(frame, head, data, rest, got);
      if rest == [] {
        assert w.stream[..got] == w.stream;
        BodyIsData(frame, head, data, rest);
      }
    }
  }

  /** A reply with no framing of its own: the body is whatever the peer sent before it hung up. */
  method FetchUnframed(w: World, frame: string -> Framing, ghost head: string, ghost data: string)
    returns (body: string, ok: bool, waited: bool, got: nat)
    requires w.stream == head + HEAD_END + data && IsHead(head) && NulFree(data)
    requires !frame(head).chunked && frame(head).want < 0 && |head| + 4 + |data| < 261121
    ensures NothingFails(w) ==> ok
    ensures ok ==> waited && got == |w.stream| && body == data
  {
    hide Arrived, BodyText, NulFree, IsHead;
    body, ok, waited, got := Fetch(w, frame);
    if ok {
      NeverArrivedWithoutFraming(frame, head, data, got);
      assert w.stream[..got] == w.stream && data + [] == data;
      BodyIsData(frame, head, data, []);
    }
  }

  /** A reply with a Content-Length counts as arrived exactly when that many bytes of body
      have, so the read ends there too. */
  lemma ArrivedIffLength(frame: string -> Framing, head: string, rest: string, n: nat)
    requires IsHead(head) && !frame(head).chunked && frame(head).want >= 0
    requires n <= |head + HEAD_END + rest|
    ensures Arrived(frame, (head + HEAD_END + rest)[..n]) <==> n >= |head| + 4 + frame(head).want
  {
    HeadArrives(head, rest, n);
  }

  /** With neither, only the peer hanging up ends the reply. */
  lemma NeverArrivedWithoutFraming(frame: string -> Framing, head: string, rest: string, n: nat)
    requires IsHead(head) && !frame(head).chunked && frame(head).want < 0
    requires n <= |head + HEAD_END + rest|
    ensures !Arrived(frame, (head + HEAD_END + rest)[..n])
  {
    HeadArrives(head, rest, n);
  }
}
