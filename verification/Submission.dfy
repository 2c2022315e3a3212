/**
 The text of an upload in bench/src/bench.c: the label with its variant tag, the notes, and
 the URL they are percent-encoded into (sections 2.1 and 2.3 of RFC 3986).
 */
module Submission {
  import opened CText
  import opened Utf8
  import opened Wrappers

  // ----- url_encode() -----

  predicate Unreserved(c: char) {
    'a' <= c <= 'z' || 'A' <= c <= 'Z' || '0' <= c <= '9' || c == '-' || c == '.' || c == '_' || c == '~'
  }

  function Hex(d: nat): char
    requires d < 16
  {
    "0123456789ABCDEF"[d]
  }

  lemma HexIs(d: nat)
    requires d < 16
    ensures IsHex(Hex(d)) && HexDigit(Hex(d)) == d && Unreserved(Hex(d))
  {
  }

  function EncodedByte(c: char): string
    requires c as int < 256
  {
    if Unreserved(c) then [c] else ['%', Hex(c as int / 16), Hex(c as int % 16)]
  }

  function Encoded(s: string): string
    requires Bytes(s)
  {
    if s == [] then [] else Encoded(s[..|s| - 1]) + EncodedByte(s[|s| - 1])
  }

  lemma EncodedPush(s: string, i: nat)
    requires Bytes(s) && i < |s|
    ensures Encoded(s[..i + 1]) == Encoded(s[..i]) + EncodedByte(s[i])
  {
    assert s[..i + 1][..i] == s[..i];
  }

  lemma {:induction false} EncodedGrows(s: string, i: nat)
    requires Bytes(s) && i <= |s|
    ensures |Encoded(s[..i])| <= |Encoded(s)|
    decreases |s| - i
  {
    if i == |s| {
      assert s[..i] == s;
    } else {
      EncodedPush(s, i);
      EncodedGrows(s, i + 1);
    }
  }

  lemma {:induction false} EncodedAtMostTriples(s: string)
    requires Bytes(s)
    ensures |Encoded(s)| <= 3 * |s|
  {
    if s != [] { EncodedAtMostTriples(s[..|s| - 1]); }
  }

  /** memcpy() into a buffer. */
  method Put(out: array<char>, at: nat, piece: string)
    requires at + |piece| <= out.Length
    modifies out
    ensures out[..at] == old(out[..at]) && out[at..at + |piece|] == piece
    ensures out[..at + |piece|] == old(out[..at]) + piece
  {
    forall k | 0 <= k < |piece| { out[at + k] := piece[k]; }
  }

  /** url_encode(): it fits exactly when the encoded text and its NUL do. */
  method UrlEncode(s: string, out: array<char>, cap: nat) returns (ok: bool)
    requires Bytes(s) && 0 < cap <= out.Length
    modifies out
    ensures ok <==> |Encoded(s)| + 1 <= cap
    ensures ok ==> out[..|Encoded(s)|] == Encoded(s) && out[|Encoded(s)|] == NUL
  {
    hide EncodedByte;
    var n := 0;
    assert Encoded(s[..0]) == [];
    hide Encoded;
    for i := 0 to |s|
      invariant n == |Encoded(s[..i])| < cap && out[..n] == Encoded(s[..i])
    {
      var piece := EncodedByte(s[i]);
      EncodedPush(s, i);
      EncodedGrows(s, i + 1);
      if n + |piece| + 1 > cap { return false; }
      Put(out, n, piece);
      n := n + |piece|;
    }
    assert s[..|s|] == s;
    out[n] := NUL;
    assert out[..n] == Encoded(s);
    ok := true;
  }

  // ----- what a receiver makes of it -----

  /** Percent-decoding (section 2.1 of RFC 3986). */
  function Decoded(t: string): string {
    if t == [] then []
    else if |t| >= 3 && t[0] == '%' && IsHex(t[1]) && IsHex(t[2])
    then [(HexDigit(t[1]) * 16 + HexDigit(t[2])) as char] + Decoded(t[3..])
    else [t[0]] + Decoded(t[1..])
  }

  lemma {:induction false} EncodedFront(s: string)
    requires Bytes(s) && s != []
    ensures Encoded(s) == EncodedByte(s[0]) + Encoded(s[1..])
  {
    hide EncodedByte;
    var rest, last := s[..|s| - 1], s[|s| - 1];
    if |s| == 1 {
      assert rest == [] && Encoded(rest) == [] && s[1..] == [];
      assert [] + EncodedByte(s[0]) == EncodedByte(s[0]) + [];
    } else {
      EncodedFront(rest);
      assert s[1..][..|s| - 2] == rest[1..] && s[1..][|s| - 2] == last;
      var x, y, z := EncodedByte(s[0]), Encoded(rest[1..]), EncodedByte(last);
      assert (x + y) + z == x + (y + z);
    }
  }

  lemma DecodedFront(c: char, t: string)
    requires c as int < 256
    ensures Decoded(EncodedByte(c) + t) == [c] + Decoded(t)
  {
    var s := EncodedByte(c) + t;
    if Unreserved(c) {
      assert s[0] == c && s[1..] == t;
    } else {
      HexIs(c as int / 16);
      HexIs(c as int % 16);
      assert s[0] == '%' && s[1] == Hex(c as int / 16) && s[2] == Hex(c as int % 16) && s[3..] == t;
    }
  }

  /** Whatever the bytes, decoding gives them back. */
  lemma {:induction false} DecodedIsOriginal(s: string)
    requires Bytes(s)
    ensures Decoded(Encoded(s)) == s
  {
    if s != [] {
      EncodedFront(s);
      DecodedFront(s[0], Encoded(s[1..]));
      DecodedIsOriginal(s[1..]);
      assert [s[0]] + s[1..] == s;
    }
  }

  predicate QuerySafe(t: string) {
    forall i :: 0 <= i < |t| ==> Unreserved(t[i]) || t[i] == '%'
  }

  /** And no byte of it can end the query early or start another field. */
  lemma {:induction false} EncodedIsQuerySafe(s: string)
    requires Bytes(s)
    ensures QuerySafe(Encoded(s))
  {
    if s != [] {
      EncodedIsQuerySafe(s[..|s| - 1]);
      var c := s[|s| - 1];
      if !Unreserved(c) {
        HexIs(c as int / 16);
        HexIs(c as int % 16);
      }
    }
  }

  /** Which bytes stand for themselves, and how any other is spelled. */
  lemma EncodedByteIs(c: char)
    requires c as int < 256
    ensures EncodedByte(c) ==
            if || 65 <= c as int <= 90 || 97 <= c as int <= 122 || 48 <= c as int <= 57
               || c as int == 45 || c as int == 46 || c as int == 95 || c as int == 126
            then [c]
            else ['%', "0123456789ABCDEF"[c as int / 16], "0123456789ABCDEF"[c as int % 16]]
  {
  }

  // ----- submit_document() -----

  const MAX_LABEL: nat := 200
  const MAX_NOTES: nat := 2000

  /** snprintf(tag, sizeof(tag), "(%s)", variant). */
  function Tag(variant: string): (t: string)
    ensures |t| <= 31
  {
    if variant == [] then []
    else
      var t := "(" + variant + ")";
      if |t| <= 31 then t else t[..31]
  }

  /** Room the tag takes from the label, with a space to join. */
  function Reserve(tag: string): nat {
    if tag == [] then 0 else |tag| + 1
  }

  /** The label as it is sent. */
  function LabelText(title: string, variant: string): string {
    var tag := Tag(variant);
    var front := Trimmed(title, 201 - Reserve(tag));
    Joined(front, tag)
  }

  function Joined(front: string, tag: string): string {
    if tag == [] || front == [] then front + tag else front + " " + tag
  }

  function NotesText(notes: string): string {
    Trimmed(notes, 2001)
  }

  /** The hub's address without trailing slashes. */
  function Base(hub: string): (b: string)
    ensures |b| <= |hub|
  {
    if hub != [] && hub[|hub| - 1] == '/' then Base(hub[..|hub| - 1]) else hub
  }

  function Query(title: string, notes: string): string {
    (if title == [] then [] else "?label=" + title)
    + if notes == [] then [] else (if title == [] then "?notes=" else "&notes=") + notes
  }

  function Url(hub: string, title: string, notes: string, variant: string): string
    requires Bytes(title) && Bytes(notes) && Bytes(variant)
  {
    SentBytes(title, notes, variant);
    Base(hub) + "/api/runs" + Query(Encoded(LabelText(title, variant)), Encoded(NotesText(notes)))
  }

  lemma SentBytes(title: string, notes: string, variant: string)
    requires Bytes(title) && Bytes(notes) && Bytes(variant)
    ensures Bytes(LabelText(title, variant)) && Bytes(NotesText(notes))
  {
    PrefixBytes(title, 201 - Reserve(Tag(variant)));
    PrefixBytes(notes, 2001);
    assert Bytes(Tag(variant));
    hide Trimmed, Tag;
    BytesJoin(Trimmed(title, 201 - Reserve(Tag(variant))), Tag(variant));
  }

  lemma PrefixBytes(s: string, cap: nat)
    requires Bytes(s) && cap > 0
    ensures Bytes(Trimmed(s, cap))
  {
    hide CutAt;
  }

  lemma BytesJoin(front: string, tag: string)
    requires Bytes(front) && Bytes(tag)
    ensures Bytes(Joined(front, tag))
  {
  }

  // ----- what the hub reads in the query -----

  /** The text between the ampersands. */
  function Pieces(s: string): (p: seq<string>)
    decreases |s|
  {
    var i := Find(s, 0, "&");
    if i == |s| then [s] else [s[..i]] + Pieces(s[i + 1..])
  }

  /** The value under a name, decoded: that of the first piece that carries it. */
  function ValueOf(pieces: seq<string>, name: string): Option<string> {
    if pieces == [] then None
    else if name + "=" <= pieces[0] then Some(Decoded(pieces[0][|name| + 1..]))
    else ValueOf(pieces[1..], name)
  }

  lemma AtAmpersand(s: string, k: nat)
    ensures At(s, k, "&") ==> s[k] == '&'
  {
    if At(s, k, "&") { assert s[k + 0] == "&"[0]; }
  }

  lemma OnePiece(s: string)
    requires '&' !in s
    ensures Pieces(s) == [s]
  {
    forall k: nat | 0 <= k < |s| ensures !At(s, k, "&") {
      AtAmpersand(s, k);
    }
    FindIsNone(s, 0, "&");
  }

  lemma FirstPiece(a: string, b: string)
    requires '&' !in a
    ensures Pieces(a + "&" + b) == [a] + Pieces(b)
  {
    var s := a + "&" + b;
    forall k: nat | 0 <= k < |a| ensures !At(s, k, "&") {
      AtAmpersand(s, k);
      assert s[k] == a[k];
    }
    assert At(s, |a|, "&");
    FindIsLeast(s, 0, "&", |a|);
    assert s[..|a|] == a && s[|a| + 1..] == b;
  }

  lemma NoAmpersand(name: string, s: string)
    requires Bytes(s) && '&' !in name
    ensures '&' !in name + Encoded(s)
  {
    EncodedIsQuerySafe(s);
    var t := name + Encoded(s);
    forall k | 0 <= k < |t| ensures t[k] != '&' {
      if k < |name| { assert t[k] == name[k]; } else { assert t[k] == Encoded(s)[k - |name|]; }
    }
  }

  lemma {:induction false} EncodedIsSomething(s: string)
    requires Bytes(s) && s != []
    ensures Encoded(s) != []
  {
    EncodedPush(s, |s| - 1);
    assert s[..|s|] == s;
  }

  lemma ValueHere(pieces: seq<string>, name: string, s: string)
    requires Bytes(s) && pieces != [] && pieces[0] == name + "=" + Encoded(s)
    ensures ValueOf(pieces, name) == Some(s)
  {
    DecodedIsOriginal(s);
    assert pieces[0][|name| + 1..] == Encoded(s);
  }

  /** Splitting the query at its ampersands and decoding what follows each name gives the label
      under "label" and the notes under "notes"; a field with nothing to say is left out. */
  lemma QueryReads(title: string, notes: string)
    requires Bytes(title) && Bytes(notes)
    ensures var q := Query(Encoded(title), Encoded(notes));
            if title == [] && notes == [] then q == []
            else
              && q != [] && q[0] == '?'
              && ValueOf(Pieces(q[1..]), "label") == (if title == [] then None else Some(title))
              && ValueOf(Pieces(q[1..]), "notes") == (if notes == [] then None else Some(notes))
  {
    assert Encoded([]) == [];
    if title != [] { EncodedIsSomething(title); }
    if notes != [] { EncodedIsSomething(notes); }
    var t, n := Encoded(title), Encoded(notes);
    QueryForms(t, n);
    NoAmpersand("label=", title);
    NoAmpersand("notes=", notes);
    hide *;
    OnePiece("notes=" + n);
    OnePiece("label=" + t);
    FirstPiece("label=" + t, "notes=" + n);
    if title != [] { LabelAlone("label=" + t, title); }
    if notes != [] { NotesAlone("notes=" + n, notes); }
    if title != [] && notes != [] { LabelThenNotes("label=" + t, "notes=" + n, title, notes); }
  }

  lemma QueryForms(t: string, n: string)
    ensures t == [] && n == [] ==> Query(t, n) == []
    ensures t != [] || n != [] ==> Query(t, n) != [] && Query(t, n)[0] == '?'
    ensures t != [] && n == [] ==> Query(t, n)[1..] == "label=" + t
    ensures t == [] && n != [] ==> Query(t, n)[1..] == "notes=" + n
    ensures t != [] && n != [] ==> Query(t, n)[1..] == "label=" + t + "&" + ("notes=" + n)
  {
    QueryIs(t, n);
    hide Query;
    if t != [] && n != [] {
      Behind('?', "label=" + t + "&" + ("notes=" + n), Query(t, n));
    } else if t != [] {
      Behind('?', "label=" + t, Query(t, n));
    } else if n != [] {
      Behind('?', "notes=" + n, Query(t, n));
    }
  }

  lemma Behind(c: char, rest: string, all: string)
    requires all == [c] + rest
    ensures all != [] && all[0] == c && all[1..] == rest
  {
  }

  lemma QueryIs(t: string, n: string)
    ensures t == [] && n == [] ==> Query(t, n) == []
    ensures t != [] && n == [] ==> Query(t, n) == ['?'] + ("label=" + t)
    ensures t == [] && n != [] ==> Query(t, n) == ['?'] + ("notes=" + n)
    ensures t != [] && n != [] ==> Query(t, n) == ['?'] + ("label=" + t + "&" + ("notes=" + n))
  {
    Joins("?", "label=", "?label=", t);
    Joins("?", "notes=", "?notes=", n);
    Joins("&", "notes=", "&notes=", n);
    if t != [] && n != [] {
      assert ['?'] + ("label=" + t + "&" + ("notes=" + n)) == (['?'] + ("label=" + t)) + ("&" + ("notes=" + n));
    }
  }

  lemma Joins(c: string, name: string, both: string, t: string)
    requires both == c + name
    ensures both + t == c + (name + t)
  {
  }

  lemma LabelThenNotes(l: string, n: string, title: string, notes: string)
    requires Bytes(title) && Bytes(notes) && l == "label=" + Encoded(title) && n == "notes=" + Encoded(notes)
    ensures ValueOf([l] + [n], "label") == Some(title) && ValueOf([l] + [n], "notes") == Some(notes)
  {
    assert "label" + "=" == "label=" && "notes" + "=" == "notes=";
    ValueHere([l] + [n], "label", title);
    ValueHere([n], "notes", notes);
    assert l[0] == 'l' && ("notes" + "=")[0] == 'n';
    assert ([l] + [n])[1..] == [n];
  }

  lemma LabelAlone(l: string, title: string)
    requires Bytes(title) && l == "label=" + Encoded(title)
    ensures ValueOf([l], "label") == Some(title) && ValueOf([l], "notes") == None
  {
    assert "label" + "=" == "label=";
    ValueHere([l], "label", title);
    assert l[0] == 'l' && ("notes" + "=")[0] == 'n';
  }

  lemma NotesAlone(n: string, notes: string)
    requires Bytes(notes) && n == "notes=" + Encoded(notes)
    ensures ValueOf([n], "label") == None && ValueOf([n], "notes") == Some(notes)
  {
    assert "notes" + "=" == "notes=";
    ValueHere([n], "notes", notes);
    assert n[0] == 'n' && ("label" + "=")[0] == 'l';
  }

  // ----- the label -----

  /** The label fits the hub's limit with its tag at the end, and a variant name of up to 29
      bytes makes a whole tag. */
  lemma TagIsKept(title: string, variant: string)
    ensures var t := LabelText(title, variant);
            var tag := Tag(variant);
            && |t| <= MAX_LABEL && |tag| <= |t| && t[|t| - |tag|..] == tag
            && (variant != [] ==> (tag == "(" + variant + ")" <==> |variant| <= 29))
  {
  }

  /** Before the tag stands the longest prefix of whole characters there is room for. */
  lemma LabelKeepsWholeCharacters(chars: seq<string>, variant: string)
    requires AllCharacters(chars)
    ensures var room := MAX_LABEL - Reserve(Tag(variant));
            var k := WholeCharacters(chars, room);
            && Trimmed(Text(chars), room + 1) == Text(chars[..k])
            && |Text(chars[..k])| <= room && (k < |chars| ==> |Text(chars[..k + 1])| > room)
  {
    TrimmedIsLongestWhole(chars, MAX_LABEL - Reserve(Tag(variant)) + 1);
  }

  /** The label in full, for text in whole characters: as many as leave room for the tag and a
      space, and the tag in parentheses, cut at 31 bytes. */
  lemma LabelIs(chars: seq<string>, variant: string)
    requires AllCharacters(chars)
    ensures var whole := "(" + variant + ")";
            var tag := if variant == [] then [] else if |variant| <= 29 then whole else whole[..31];
            var room := if variant == [] then 200 else 199 - |tag|;
            var front := Text(chars[..WholeCharacters(chars, room)]);
            LabelText(Text(chars), variant) ==
              if variant == [] then front else if front == [] then tag else front + [' '] + tag
    ensures NotesText(Text(chars)) == Text(chars[..WholeCharacters(chars, 2000)])
  {
    hide Text, Trimmed, WholeCharacters, AllCharacters;
    TrimmedIsLongestWhole(chars, 201 - Reserve(Tag(variant)));
    TrimmedIsLongestWhole(chars, 2001);
    var front := Text(chars[..WholeCharacters(chars, 200 - Reserve(Tag(variant)))]);
    if variant == [] { assert front + [] == front; }
  }

  /** Trailing slashes go, and only they. */
  lemma {:induction false} BaseIs(address: string, slashes: nat)
    requires address == [] || address[|address| - 1] != '/'
    ensures Base(address + seq(slashes, _ => '/')) == address
  {
    var s := address + seq(slashes, _ => '/');
    if slashes == 0 {
      assert s == address;
    } else {
      BaseIs(address, slashes - 1);
      assert s[..|s| - 1] == address + seq(slashes - 1, _ => '/');
    }
  }

  /** The URL: the address, the path and the query of the two texts. */
  lemma UrlIs(hub: string, title: string, notes: string, variant: string)
    requires Bytes(title) && Bytes(notes) && Bytes(variant) && Bytes(LabelText(title, variant)) && Bytes(NotesText(notes))
    ensures Url(hub, title, notes, variant)
         == Base(hub) + "/api/runs" + Query(Encoded(LabelText(title, variant)), Encoded(NotesText(notes)))
  {
  }

  lemma Ended(all: string, before: string, tag: string)
    requires all == before + (tag + [NUL])
    ensures all[..|all| - 1] == before + tag && all[|all| - 1] == NUL
  {
  }

  /** The tag behind the label, a space between them where there is a label. */
  method WriteTag(out: array<char>, start: nat, tag: string, ghost front: string) returns (n: nat)
    requires tag != [] && start + 1 + |tag| < out.Length && out[..start] == front
    modifies out
    ensures n <= start + 1 + |tag| && out[..n] == Joined(front, tag) && out[n] == NUL
  {
    n := start;
    if n > 0 {
      Put(out, n, " ");
      n := n + 1;
    }
    ghost var before := out[..n];
    assert before + tag == Joined(front, tag);
    hide Joined;
    n := PutLast(out, n, tag);
  }

  /** A string and its NUL. */
  method PutLast(out: array<char>, at: nat, piece: string) returns (n: nat)
    requires at + |piece| < out.Length
    modifies out
    ensures n == at + |piece| && out[..n] == old(out[..at]) + piece && out[n] == NUL
  {
    ghost var before := out[..at];
    Put(out, at, piece + [NUL]);
    n := at + |piece|;
    Ended(out[..n + 1], before, piece);
    assert out[..n] == out[..n + 1][..n] && out[n] == out[..n + 1][n];
  }

  /** The label buffer: the trimmed label, then the tag. */
  method WriteLabel(title: string, variant: string) returns (out: array<char>, n: nat)
    ensures fresh(out) && out.Length == MAX_LABEL + 1 && n <= MAX_LABEL
    ensures out[..n] == LabelText(title, variant) && out[n] == NUL
  {
    var tag := Tag(variant);
    assert LabelText(title, variant) == Joined(Trimmed(title, 201 - Reserve(tag)), tag);
    hide Trimmed, Tag, LabelText;
    out := new char[201];
    var cap := 201 - Reserve(tag);
    var _ := CopyTrimmed(out, cap, title);
    ghost var front := Trimmed(title, cap);
    n := |Trimmed(title, cap)|;
    if tag != [] {
      n := WriteTag(out, n, tag, front);
    } else {
      assert front + [] == front;
    }
  }

  /** The base of the hub's address. */
  method BaseLength(hub: string) returns (n: nat)
    ensures n <= |hub| && hub[..n] == Base(hub)
  {
    n := |hub|;
    assert hub[..n] == hub;
    while n > 0 && hub[n - 1] == '/'
      invariant n <= |hub| && Base(hub[..n]) == Base(hub)
    {
      assert hub[..n][..n - 1] == hub[..n - 1];
      n := n - 1;
    }
    if n > 0 { assert hub[..n][n - 1] != '/'; }
  }

  /** snprintf() of a piece that fits. */
  method Print(out: array<char>, at: nat, piece: string) returns (n: nat)
    requires at + |piece| < out.Length
    modifies out
    ensures n == at + |piece| && out[..n] == old(out[..at]) + piece && out[n] == NUL
  {
    Put(out, at, piece);
    n := at + |piece|;
    out[n] := NUL;
  }

  /** How many bytes are allocated for the URL. */
  function UrlRoom(hub: string, title: string, notes: string): nat {
    |Base(hub)| + |title| + |notes| + 64
  }

  /** Writes the URL into its buffer. */
  method WriteUrl(hub: string, title: string, notes: string) returns (url: array<char>, n: nat)
    ensures fresh(url) && url.Length == UrlRoom(hub, title, notes) && n + 40 < url.Length
    ensures url[..n] == Base(hub) + "/api/runs" + Query(title, notes) && url[n] == NUL
  {
    var size := BaseLength(hub);
    url := new char[size + |title| + |notes| + 64];
    n := Print(url, 0, hub[..size] + "/api/runs");
    ghost var front := Base(hub) + "/api/runs";
    assert url[..n] == front;
    if title != [] { n := Print(url, n, "?label=" + title); }
    ghost var middle := url[..n];
    assert middle == front + if title == [] then [] else "?label=" + title;
    if notes != [] { n := Print(url, n, (if title != [] then "&notes=" else "?notes=") + notes); }
  }

  /** submit_document() up to the request: with memory for the URL it never gives up, and the
      URL is the one that says everything. `room` is the heap. */
  method SubmitText(hub: string, title: string, notes: string, variant: string, room: nat -> bool)
    returns (rc: int, url: array<char>, n: nat)
    requires Bytes(title) && Bytes(notes) && Bytes(variant)
    ensures rc == 0 || rc == -1
    ensures rc == -1 ==> exists cap :: !room(cap)
    ensures rc == 0 ==> n + 40 < url.Length && url[n] == NUL && url[..n] == Url(hub, title, notes, variant)
  {
    hide LabelText, NotesText, Encoded, Query, Base;
    url, n := new char[1], 0;
    var labelBuf, labelLen := WriteLabel(title, variant);
    var notesBuf := new char[2001];
    var _ := CopyTrimmed(notesBuf, 2001, notes);
    var sentLabel, sentNotes := labelBuf[..labelLen], NotesText(notes);
    SentBytes(title, notes, variant);
    EncodedAtMostTriples(sentLabel);
    EncodedAtMostTriples(sentNotes);
    SentLength(notes);
    var encLabel, encNotes := new char[601], new char[6001];
    var ok := UrlEncode(sentLabel, encLabel, 601);
    var ok' := UrlEncode(sentNotes, encNotes, 6001);
    assert ok && ok';
    var el, en := encLabel[..|Encoded(sentLabel)|], encNotes[..|Encoded(sentNotes)|];
    var base := BaseLength(hub);
    if !room(base + |el| + |en| + 64) { return -1, url, n; }
    url, n := WriteUrl(hub, el, en);
    rc := 0;
  }

  lemma SentLength(notes: string)
    ensures |NotesText(notes)| <= MAX_NOTES
  {
  }
}
