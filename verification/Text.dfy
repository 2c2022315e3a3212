/**
 The C string functions that bench/src/http.c relies on. A char is one byte.
 */
module CText {

  const NUL: char := '\0'
  const CR: char := '\r'
  const LF: char := '\n'
  const CRLF: string := [CR, LF]

  /** The largest unsigned long of the narrowest platform. */
  const ULONG_MAX: nat := 0xFFFF_FFFF

  predicate NulFree(s: string) {
    forall i :: 0 <= i < |s| ==> s[i] != NUL
  }

  // ----- strstr -----

  predicate At(s: string, i: nat, pat: string) {
    i + |pat| <= |s| && forall k :: 0 <= k < |pat| ==> s[i + k] == pat[k]
  }

  /** The least index from `from` on where pat begins, or |s| when there is none. */
  function Find(s: string, from: nat, pat: string): (i: nat)
    requires from <= |s|
    ensures from <= i <= |s|
    decreases |s| - from
  {
    if from == |s| || At(s, from, pat) then from else Find(s, from + 1, pat)
  }

  lemma {:induction false} FindFinds(s: string, from: nat, pat: string)
    requires from <= |s|
    ensures Find(s, from, pat) < |s| ==> At(s, Find(s, from, pat), pat)
    ensures forall k: nat :: from <= k < Find(s, from, pat) ==> !At(s, k, pat)
    decreases |s| - from
  {
    if from != |s| && !At(s, from, pat) { FindFinds(s, from + 1, pat); }
  }

  lemma FindIsLeast(s: string, from: nat, pat: string, i: nat)
    requires from <= i < |s| && At(s, i, pat) && forall k: nat :: from <= k < i ==> !At(s, k, pat)
    ensures Find(s, from, pat) == i
  {
    FindFinds(s, from, pat);
  }

  lemma FindIsNone(s: string, from: nat, pat: string)
    requires from <= |s| && forall k: nat :: from <= k < |s| ==> !At(s, k, pat)
    ensures Find(s, from, pat) == |s|
  {
    FindFinds(s, from, pat);
  }

  predicate LineEnds(s: string, i: nat) {
    i + 1 < |s| && s[i] == CR && s[i + 1] == LF
  }

  lemma AtCrlf(s: string, i: nat)
    ensures At(s, i, CRLF) <==> LineEnds(s, i)
  {
    if At(s, i, CRLF) { assert s[i + 0] == CRLF[0] && s[i + 1] == CRLF[1]; }
  }

  /** No line ends before i, and one ends there. */
  lemma LineEndIs(s: string, from: nat, i: nat)
    requires from <= i && LineEnds(s, i)
    requires forall k :: from <= k < i ==> !LineEnds(s, k)
    ensures Find(s, from, CRLF) == i
  {
    forall k: nat | from <= k <= i ensures At(s, k, CRLF) <==> k == i {
      AtCrlf(s, k);
    }
    FindIsLeast(s, from, CRLF, i);
  }

  lemma LineEndIsNone(s: string, from: nat)
    requires from <= |s|
    requires forall k :: from <= k < |s| - 1 ==> !LineEnds(s, k)
    ensures Find(s, from, CRLF) == |s|
  {
    forall k: nat | from <= k < |s| ensures !At(s, k, CRLF) {
      AtCrlf(s, k);
    }
    FindIsNone(s, from, CRLF);
  }

  // ----- strtoul(s + at, &end, 16) -----

  predicate IsHex(c: char) {
    '0' <= c <= '9' || 'a' <= c <= 'f' || 'A' <= c <= 'F'
  }

  function HexDigit(c: char): nat {
    if '0' <= c <= '9' then c as int - '0' as int
    else if 'A' <= c <= 'F' then c as int - 'A' as int + 10
    else if 'a' <= c <= 'f' then c as int - 'a' as int + 10 else 0
  }

  /** The digits, in their order, in either case. */
  lemma HexDigitsAre(d: nat, c: char)
    requires d < 16
    ensures HexDigit("0123456789ABCDEF"[d]) == HexDigit("0123456789abcdef"[d]) == d
    ensures IsHex("0123456789ABCDEF"[d]) && IsHex("0123456789abcdef"[d])
    ensures IsHex(c) ==> c == "0123456789ABCDEF"[HexDigit(c) % 16] || c == "0123456789abcdef"[HexDigit(c) % 16]
  {
    if IsHex(c) { DigitOf(c); }
  }

  lemma DigitOf(c: char)
    requires IsHex(c)
    ensures HexDigit(c) < 16
    ensures c == "0123456789ABCDEF"[HexDigit(c)] || c == "0123456789abcdef"[HexDigit(c)]
  {
    var d := HexDigit(c);
    if d < 10 {
      assert c as int == 48 + d;
    } else if c <= 'F' {
      assert c as int == 55 + d;
    } else {
      assert c as int == 87 + d;
    }
  }

  predicate IsSpace(c: char) {
    c == ' ' || '\t' <= c <= '\r'
  }

  /** Where the run of hex digits that starts at `at` ends. */
  function HexEnd(s: string, at: nat): (end: nat)
    requires at <= |s|
    ensures at <= end <= |s|
    decreases |s| - at
  {
    if at == |s| || !IsHex(s[at]) then at else HexEnd(s, at + 1)
  }

  function SpaceEnd(s: string, at: nat): (end: nat)
    requires at <= |s|
    ensures at <= end <= |s|
    decreases |s| - at
  {
    if at == |s| || !IsSpace(s[at]) then at else SpaceEnd(s, at + 1)
  }

  /** The number written in s[from..end]. */
  function HexValue(s: string, from: nat, end: nat): nat
    requires from <= end <= |s|
    decreases end
  {
    if from == end then 0 else HexValue(s, from, end - 1) * 16 + HexDigit(s[end - 1])
  }

  function AfterSign(s: string, at: nat): nat {
    if at < |s| && (s[at] == '+' || s[at] == '-') then at + 1 else at
  }

  /** "0x" counts as a prefix only with a digit behind it. */
  predicate PrefixAt(s: string, at: nat) {
    at + 2 < |s| && s[at] == '0' && (s[at + 1] == 'x' || s[at + 1] == 'X') && IsHex(s[at + 2])
  }

  function FirstDigit(s: string, sign: nat): (first: nat)
    requires sign <= |s|
    ensures sign <= first <= |s|
  {
    var zero := AfterSign(s, sign);
    if PrefixAt(s, zero) then zero + 2 else zero
  }

  function Saturated(n: nat): nat {
    if n > ULONG_MAX then ULONG_MAX else n
  }

  function Negated(n: nat): nat {
    if n > ULONG_MAX then ULONG_MAX else if n == 0 then 0 else ULONG_MAX + 1 - n
  }

  /** The number read and where it ends: at the start when there is no number. */
  datatype Scan = Scan(value: nat, end: nat)

  function Strtoul(s: string, at: nat): (r: Scan)
    requires at <= |s|
    ensures at <= r.end <= |s|
  {
    var sign := SpaceEnd(s, at);
    var first := FirstDigit(s, sign);
    var end := HexEnd(s, first);
    if end == first then Scan(0, at)
    else if sign < |s| && s[sign] == '-' then Scan(Negated(HexValue(s, first, end)), end)
    else Scan(Saturated(HexValue(s, first, end)), end)
  }

  predicate AllHex(s: string) {
    forall i :: 0 <= i < |s| ==> IsHex(s[i])
  }

  lemma {:induction false} HexEndIs(s: string, at: nat, end: nat)
    requires at <= end <= |s| && (forall k :: at <= k < end ==> IsHex(s[k])) && (end == |s| || !IsHex(s[end]))
    ensures HexEnd(s, at) == end
    decreases end - at
  {
    if at < end { HexEndIs(s, at + 1, end); }
  }

  lemma {:induction false} SpaceEndIs(s: string, at: nat, end: nat)
    requires at <= end <= |s| && (forall k :: at <= k < end ==> IsSpace(s[k])) && (end == |s| || !IsSpace(s[end]))
    ensures SpaceEnd(s, at) == end
    decreases end - at
  {
    if at < end { SpaceEndIs(s, at + 1, end); }
  }

  /** n bytes of s from `from` on stand in t from `at` on. */
  predicate Copied(s: string, from: nat, t: string, at: nat, n: nat) {
    from + n <= |s| && at + n <= |t| && forall k :: from <= k < from + n ==> s[k] == t[at + (k - from)]
  }

  lemma {:induction false} SameValue(s: string, from: nat, t: string, at: nat, n: nat)
    requires Copied(s, from, t, at, n)
    ensures HexValue(s, from, from + n) == HexValue(t, at, at + n)
  {
    if n > 0 {
      SameValue(s, from, t, at, n - 1);
      assert s[from + n - 1] == t[at + n - 1];
    }
  }

  /** What may not follow a spelled number, lest it be read as part of it. */
  predicate EndsNumber(s: string, at: nat) {
    at < |s| ==> !(IsHex(s[at]) || s[at] == 'x' || s[at] == 'X')
  }

  /** A number spelled in hex digits is read back. */
  lemma StrtoulReads(s: string, at: nat, end: nat)
    requires at < end <= |s| && (forall k :: at <= k < end ==> IsHex(s[k])) && EndsNumber(s, end)
    ensures Strtoul(s, at) == Scan(Saturated(HexValue(s, at, end)), end)
  {
    SpaceEndIs(s, at, at);
    HexEndIs(s, at, end);
    assert !PrefixAt(s, at);
  }

  // ----- reading does not depend on what lies before -----

  predicate SameFrom(s: string, t: string, at: nat) {
    |s| == |t| && forall k :: at <= k < |s| ==> s[k] == t[k]
  }

  lemma {:induction false} SameHexEnd(s: string, t: string, at: nat)
    requires at <= |s| && SameFrom(s, t, at)
    ensures HexEnd(s, at) == HexEnd(t, at)
    decreases |s| - at
  {
    if at < |s| { SameHexEnd(s, t, at + 1); }
  }

  lemma {:induction false} SameSpaceEnd(s: string, t: string, at: nat)
    requires at <= |s| && SameFrom(s, t, at)
    ensures SpaceEnd(s, at) == SpaceEnd(t, at)
    decreases |s| - at
  {
    if at < |s| { SameSpaceEnd(s, t, at + 1); }
  }

  lemma SameFirstDigit(s: string, t: string, sign: nat)
    requires sign <= |s| && SameFrom(s, t, sign)
    ensures FirstDigit(s, sign) == FirstDigit(t, sign)
  {
  }

  lemma SameStrtoul(s: string, t: string, at: nat)
    requires at <= |s| && SameFrom(s, t, at)
    ensures Strtoul(s, at) == Strtoul(t, at)
  {
    SameSpaceEnd(s, t, at);
    var sign := SpaceEnd(s, at);
    var first := FirstDigit(s, sign);
    SameFirstDigit(s, t, sign);
    SameHexEnd(s, t, first);
    SameValue(s, first, t, first, HexEnd(s, first) - first);
  }

  lemma {:induction false} SameFind(s: string, t: string, from: nat, pat: string)
    requires from <= |s| && SameFrom(s, t, from)
    ensures Find(s, from, pat) == Find(t, from, pat)
    decreases |s| - from
  {
    if from < |s| { SameFind(s, t, from + 1, pat); }
  }

  /** Spaces, a sign and a prefix may come first; a minus wraps, what is too large saturates, and
      "0x" alone is the number 0. */
  lemma StrtoulExamples()
    ensures Strtoul(" \t+0x1F;", 0) == Scan(31, 7)
    ensures Strtoul("-1", 0) == Scan(0xFFFF_FFFF, 2)
    ensures Strtoul("0xg", 0) == Scan(0, 1)
    ensures Strtoul(" g", 0) == Scan(0, 0)
    ensures Strtoul("100000000", 0) == Scan(0xFFFF_FFFF, 9)
  {
    hide *;
    Prefixed();
    Minus();
    NoDigitBehind();
    NoNumber();
    TooLarge();
  }

  lemma Prefixed()
    ensures Strtoul(" \t+0x1F;", 0) == Scan(31, 7)
  {
    SpaceEndIs(" \t+0x1F;", 0, 2);
    HexEndIs(" \t+0x1F;", 5, 7);
    assert HexValue(" \t+0x1F;", 5, 6) == 1;
    assert HexValue(" \t+0x1F;", 5, 7) == 31;
    hide HexEnd, SpaceEnd, HexValue;
  }

  lemma Minus()
    ensures Strtoul("-1", 0) == Scan(0xFFFF_FFFF, 2)
  {
    SpaceEndIs("-1", 0, 0);
    HexEndIs("-1", 1, 2);
    assert HexValue("-1", 1, 2) == 1;
    hide HexEnd, SpaceEnd, HexValue;
  }

  lemma NoDigitBehind()
    ensures Strtoul("0xg", 0) == Scan(0, 1)
  {
    SpaceEndIs("0xg", 0, 0);
    HexEndIs("0xg", 0, 1);
    assert HexValue("0xg", 0, 1) == 0;
    hide HexEnd, SpaceEnd, HexValue;
  }

  lemma NoNumber()
    ensures Strtoul(" g", 0) == Scan(0, 0)
  {
    SpaceEndIs(" g", 0, 1);
    HexEndIs(" g", 1, 1);
    hide HexEnd, SpaceEnd, HexValue;
  }

  lemma TooLarge()
    ensures Strtoul("100000000", 0) == Scan(0xFFFF_FFFF, 9)
  {
    SpaceEndIs("100000000", 0, 0);
    HexEndIs("100000000", 0, 9);
    LongValue();
    hide HexEnd, SpaceEnd, HexValue;
  }

  lemma LongValue()
    ensures HexValue("100000000", 0, 9) == 0x1_0000_0000
  {
    var s := "100000000";
    assert HexValue(s, 0, 1) == 1;
    assert HexValue(s, 0, 3) == 0x100;
    assert HexValue(s, 0, 5) == 0x1_0000;
    assert HexValue(s, 0, 7) == 0x100_0000;
  }
}
