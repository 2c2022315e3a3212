/**
 UTF-8 text (RFC 3629), and the copy of bench/src/bench.c that never cuts a character.
 */
module Utf8 {
  import opened CText

  predicate Bytes(s: string) {
    forall i :: 0 <= i < |s| ==> s[i] as int < 256
  }

  predicate InRange(c: char, low: int, high: int) {
    low <= c as int <= high
  }

  /** UTF8-tail. */
  predicate Tail(c: char) {
    InRange(c, 0x80, 0xBF)
  }

  predicate Lead2(s: string)
    requires |s| == 2
  {
    InRange(s[0], 0xC2, 0xDF)
  }

  predicate Lead3(s: string)
    requires |s| == 3
  {
    || (InRange(s[0], 0xE0, 0xE0) && InRange(s[1], 0xA0, 0xBF))
    || (InRange(s[0], 0xED, 0xED) && InRange(s[1], 0x80, 0x9F))
    || (InRange(s[0], 0xE1, 0xEF) && !InRange(s[0], 0xED, 0xED) && Tail(s[1]))
  }

  predicate Lead4(s: string)
    requires |s| == 4
  {
    || (InRange(s[0], 0xF0, 0xF0) && InRange(s[1], 0x90, 0xBF))
    || (InRange(s[0], 0xF1, 0xF3) && Tail(s[1]))
    || (InRange(s[0], 0xF4, 0xF4) && InRange(s[1], 0x80, 0x8F))
  }

  /** The bytes of one character (section 4 of RFC 3629); NUL cannot stand in a C string. */
  predicate IsCharacter(s: string) {
    || (|s| == 1 && InRange(s[0], 0x01, 0x7F))
    || (|s| == 2 && Lead2(s) && Tail(s[1]))
    || (|s| == 3 && Lead3(s) && Tail(s[2]))
    || (|s| == 4 && Lead4(s) && Tail(s[2]) && Tail(s[3]))
  }

  /** A, e acute, the euro sign and a face; not the overlong NUL, a surrogate, or what lies beyond
      U+10FFFF. */
  lemma SomeCharacters()
    ensures IsCharacter("A") && IsCharacter([0xC3 as char, 0xA9 as char])
    ensures IsCharacter([0xE2 as char, 0x82 as char, 0xAC as char])
    ensures IsCharacter([0xF0 as char, 0x9F as char, 0x98 as char, 0x80 as char])
    ensures !IsCharacter([0xC0 as char, 0x80 as char]) && !IsCharacter([0xA9 as char])
    ensures !IsCharacter([0xE0 as char, 0x80 as char, 0x80 as char]) && !IsCharacter([0xED as char, 0xA0 as char, 0x80 as char])
    ensures !IsCharacter([0xF4 as char, 0x90 as char, 0x80 as char, 0x80 as char])
  {
  }

  predicate AllCharacters(chars: seq<string>) {
    forall i :: 0 <= i < |chars| ==> IsCharacter(chars[i])
  }

  function Text(chars: seq<string>): string {
    if chars == [] then [] else chars[0] + Text(chars[1..])
  }

  lemma {:induction false} TextJoin(a: seq<string>, b: seq<string>)
    ensures Text(a + b) == Text(a) + Text(b)
  {
    if a == [] {
      assert a + b == b;
    } else {
      assert (a + b)[1..] == a[1..] + b;
      TextJoin(a[1..], b);
    }
  }

  // ----- where a string may be cut -----

  /** The test on s[n] in copy_trimmed(): a continuation byte. */
  predicate Continues(c: char) {
    0x80 <= c as int % 256 < 0xC0
  }

  /** Where copy_trimmed() cuts a string that does not fit: the last byte position up to n at
      which no character is under way. */
  function CutAt(s: string, n: nat): (k: nat)
    requires n < |s|
    ensures k <= n
  {
    if n > 0 && Continues(s[n]) then CutAt(s, n - 1) else n
  }

  lemma CharacterBytes(c: string, i: nat)
    requires IsCharacter(c) && i < |c|
    ensures Continues(c[i]) <==> i > 0
    ensures 0 < c[i] as int < 256
  {
  }

  /** From anywhere inside a character the cut falls back to where it begins. */
  lemma {:induction false} CutInside(s: string, start: nat, c: string, n: nat)
    requires IsCharacter(c) && start + |c| <= |s| && s[start..start + |c|] == c && start <= n < start + |c|
    ensures CutAt(s, n) == start
    decreases n
  {
    assert s[n] == c[n - start];
    CharacterBytes(c, n - start);
    if n > start { CutInside(s, start, c, n - 1); }
  }

  /** The characters that fit whole in n bytes. */
  function WholeCharacters(chars: seq<string>, n: nat): (k: nat)
    ensures k <= |chars|
  {
    if chars == [] || |chars[0]| > n then 0 else 1 + WholeCharacters(chars[1..], n - |chars[0]|)
  }

  /** They are as many as fit: not one more does. */
  lemma {:induction false} WholeCharactersAreMost(chars: seq<string>, n: nat)
    ensures var k := WholeCharacters(chars, n);
            |Text(chars[..k])| <= n && (k < |chars| ==> |Text(chars[..k + 1])| > n)
  {
    if chars != [] {
      if |chars[0]| <= n {
        var k := WholeCharacters(chars[1..], n - |chars[0]|);
        WholeCharactersAreMost(chars[1..], n - |chars[0]|);
        assert chars[..k + 1][1..] == chars[1..][..k];
        if k + 1 < |chars| { assert chars[..k + 2][1..] == chars[1..][..k + 1]; }
      } else {
        assert chars[..1][1..] == [] && Text(chars[..1]) == chars[0] + Text([]);
      }
    }
  }

  /** On UTF-8 text the cut keeps exactly the whole characters that fit. */
  lemma {:induction false} CutIsWholeCharacters(s: string, start: nat, chars: seq<string>, n: nat)
    requires AllCharacters(chars) && start <= n < |s| && s[start..] == Text(chars)
    ensures CutAt(s, n) == start + |Text(chars[..WholeCharacters(chars, n - start)])|
    decreases |chars|
  {
    if chars != [] {
      var c, rest := chars[0], chars[1..];
      var next := start + |c|;
      assert s[start..][..|c|] == c && s[start..][|c|..] == s[next..];
      if n < next {
        CutInside(s, start, c, n);
      } else {
        var k := WholeCharacters(rest, n - next);
        CutIsWholeCharacters(s, next, rest, n);
        assert chars[..k + 1][1..] == rest[..k];
      }
    }
  }

  // ----- copy_trimmed() -----

  /** What copy_trimmed() keeps of s in a buffer of `cap` bytes. */
  function Trimmed(s: string, cap: nat): (r: string)
    requires cap > 0
    ensures |r| < cap
  {
    if |s| < cap then s else s[..CutAt(s, cap - 1)]
  }

  method CopyTrimmed(out: array<char>, cap: nat, s: string) returns (fits: bool)
    requires 0 < cap <= out.Length
    modifies out
    ensures fits == (|s| < cap)
    ensures out[..|Trimmed(s, cap)|] == Trimmed(s, cap) && out[|Trimmed(s, cap)|] == NUL
    ensures forall k :: cap <= k < out.Length ==> out[k] == old(out[k])
  {
    var n := |s|;
    fits := n < cap;
    if !fits {
      n := cap - 1;
      while n > 0 && Continues(s[n])
        invariant n < cap && CutAt(s, n) == CutAt(s, cap - 1)
      {
        n := n - 1;
      }
    }
    forall k | 0 <= k < n { out[k] := s[k]; }
    out[n] := NUL;
    assert out[..n] == s[..n];
  }

  /** The longest prefix of whole characters that fits. */
  lemma TrimmedIsLongestWhole(chars: seq<string>, cap: nat)
    requires AllCharacters(chars) && cap > 0
    ensures var k := WholeCharacters(chars, cap - 1);
            && Trimmed(Text(chars), cap) == Text(chars[..k])
            && |Text(chars[..k])| < cap && (k < |chars| ==> |Text(chars[..k + 1])| >= cap)
  {
    hide *;
    WholeCharactersAreMost(chars, cap - 1);
    if |Text(chars)| < cap {
      TrimmedShort(chars, cap);
    } else {
      TrimmedLong(chars, cap);
    }
  }

  lemma TrimmedShort(chars: seq<string>, cap: nat)
    requires |Text(chars)| < cap
    ensures Trimmed(Text(chars), cap) == Text(chars[..WholeCharacters(chars, cap - 1)])
  {
    hide Text, WholeCharacters;
    AllFit(chars, cap - 1);
    assert chars[..|chars|] == chars;
  }

  lemma TrimmedLong(chars: seq<string>, cap: nat)
    requires AllCharacters(chars) && |Text(chars)| >= cap > 0
    ensures Trimmed(Text(chars), cap) == Text(chars[..WholeCharacters(chars, cap - 1)])
  {
    hide Text, WholeCharacters, CutAt, AllCharacters;
    var s, k := Text(chars), WholeCharacters(chars, cap - 1);
    TextJoin(chars[..k], chars[k..]);
    assert chars[..k] + chars[k..] == chars;
    assert s[0..] == s;
    CutIsWholeCharacters(s, 0, chars, cap - 1);
    assert s[..|Text(chars[..k])|] == Text(chars[..k]);
  }

  lemma {:induction false} AllFit(chars: seq<string>, n: nat)
    requires |Text(chars)| <= n
    ensures WholeCharacters(chars, n) == |chars|
  {
    if chars != [] { AllFit(chars[1..], n - |chars[0]|); }
  }
}
