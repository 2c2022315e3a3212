/**
 Which release a binary is named after: release_rank() of web/server.py and the table of
 verified builds it orders.
 */
module Releases {

  // ----- text -----

  predicate IsDigit(c: char) { '0' <= c <= '9' }

  predicate AllDigits(s: string) {
    forall i :: 0 <= i < |s| ==> IsDigit(s[i])
  }

  function Lower(c: char): char {
    if 'A' <= c <= 'Z' then (c as int + 32) as char else c
  }

  predicate IsSpace(c: char) {
    c == ' ' || '\t' <= c <= '\r' || '\U{001C}' <= c <= '\U{001F}'
  }

  /** How the rank column compares: byte by byte. */
  predicate Below(a: string, b: string) {
    if a == [] then b != []
    else if b == [] then false
    else a[0] < b[0] || (a[0] == b[0] && Below(a[1..], b[1..]))
  }

  function Stripped(s: string): string {
    if s != [] && IsSpace(s[0]) then Stripped(s[1..])
    else if s != [] && IsSpace(s[|s| - 1]) then Stripped(s[..|s| - 1]) else s
  }

  function Lowered(s: string): (r: string)
    ensures |r| == |s|
  {
    seq(|s|, i requires 0 <= i < |s| => Lower(s[i]))
  }

  /** Where the first '-' is, or the end. */
  function Dash(s: string): (i: nat)
    ensures i <= |s|
  {
    if s == [] || s[0] == '-' then 0 else 1 + Dash(s[1..])
  }

  function WithoutV(s: string): string {
    if s != [] && s[0] == 'v' then s[1..] else s
  }

  // ----- release_rank() -----

  function Number(digits: string): nat {
    if digits == [] then 0
    else Number(digits[..|digits| - 1]) * 10 + if IsDigit(digits[|digits| - 1]) then digits[|digits| - 1] as int - '0' as int else 0
  }

  function DigitRun(s: string): (n: nat)
    ensures n <= |s|
  {
    if s == [] || !IsDigit(s[0]) then 0 else 1 + DigitRun(s[1..])
  }

  /** The last `width` decimal digits of n. */
  function Fixed(n: nat, width: nat): (r: string)
    ensures |r| == width
  {
    if width == 0 then [] else Fixed(n / 10, width - 1) + [('0' as int + n % 10) as char]
  }

  function Component(digits: string): string {
    Fixed(if Number(digits) < 1000000000000 then Number(digits) else 999999999999, 12)
  }

  /** pad(): every run of digits to a fixed width, everything else as it is. */
  function Pad(s: string): string
    decreases |s|
  {
    if s == [] then []
    else if IsDigit(s[0]) then Component(s[..DigitRun(s)]) + Pad(s[DigitRun(s)..])
    else [s[0]] + Pad(s[1..])
  }

  function Core(s: string): string { s[..Dash(s)] }

  function Suffix(s: string): string {
    if Dash(s) < |s| then s[Dash(s) + 1..] else []
  }

  /** What puts a pre-release below the release it leads to. */
  function Mark(pre: string): string {
    if pre != [] then "!" + Pad(pre) else "~"
  }

  /** release_rank(). */
  function Rank(tag: string): string {
    var s := Lowered(Stripped(tag));
    Pad(WithoutV(Core(s))) + Mark(Suffix(s))
  }

  // ----- version tags -----

  /** A tag such as v1.10.0 or 0.4.0-rc1: dotted numeric components, and a pre-release suffix
      unless it is empty. */
  datatype Version = Version(v: string, nums: seq<string>, pre: string) {
    predicate Valid() {
      && (v == "" || v == "v" || v == "V") && nums != []
      && (forall i :: 0 <= i < |nums| ==> IsComponent(nums[i]))
      && (pre != [] ==> !IsSpace(pre[|pre| - 1]))
    }

    function Text(): string
      requires nums != []
    {
      v + Dotted(nums) + Tail()
    }

    function Tail(): string {
      if pre == [] then [] else "-" + pre
    }
  }

  predicate IsComponent(digits: string) {
    digits != [] && AllDigits(digits) && Number(digits) < 1000000000000
  }

  function Dotted(nums: seq<string>): string
    requires nums != []
  {
    if |nums| == 1 then nums[0] else nums[0] + "." + Dotted(nums[1..])
  }

  function Padded(nums: seq<string>): string
    requires nums != []
  {
    if |nums| == 1 then Component(nums[0]) else Component(nums[0]) + "." + Padded(nums[1..])
  }

  predicate Plain(s: string) {
    forall i :: 0 <= i < |s| ==> IsDigit(s[i]) || s[i] == '.'
  }

  lemma {:induction false} DottedIsPlain(nums: seq<string>)
    requires nums != [] && forall i :: 0 <= i < |nums| ==> IsComponent(nums[i])
    ensures Plain(Dotted(nums)) && Dotted(nums) != [] && IsDigit(Dotted(nums)[0])
    ensures IsDigit(Dotted(nums)[|Dotted(nums)| - 1])
  {
    if |nums| > 1 { DottedIsPlain(nums[1..]); }
  }

  lemma {:induction false} DigitRunOf(d: string, rest: string)
    requires AllDigits(d) && (rest == [] || !IsDigit(rest[0]))
    ensures DigitRun(d + rest) == |d|
  {
    if d == [] {
      assert d + rest == rest;
    } else {
      assert (d + rest)[1..] == d[1..] + rest;
      DigitRunOf(d[1..], rest);
    }
  }

  lemma PadComponent(d: string, rest: string)
    requires IsComponent(d) && (rest == [] || !IsDigit(rest[0]))
    ensures Pad(d + rest) == Component(d) + Pad(rest)
  {
    DigitRunOf(d, rest);
    assert (d + rest)[..|d|] == d && (d + rest)[|d|..] == rest;
    assert IsDigit((d + rest)[0]);
  }

  lemma {:induction false} PadDotted(nums: seq<string>)
    requires nums != [] && forall i :: 0 <= i < |nums| ==> IsComponent(nums[i])
    ensures Pad(Dotted(nums)) == Padded(nums)
  {
    if |nums| == 1 {
      PadComponent(nums[0], []);
      assert nums[0] + [] == nums[0];
    } else {
      var rest := Dotted(nums[1..]);
      PadDotted(nums[1..]);
      assert nums[0] + "." + rest == nums[0] + ("." + rest);
      PadComponent(nums[0], "." + rest);
      assert ("." + rest)[1..] == rest;
      assert Pad("." + rest) == "." + Pad(rest);
      assert Component(nums[0]) + ("." + Pad(rest)) == Component(nums[0]) + "." + Pad(rest);
    }
  }

  // ----- the rank of a version tag -----

  lemma {:induction false} DashAfter(core: string, rest: string)
    requires forall i :: 0 <= i < |core| ==> core[i] != '-'
    requires rest == [] || rest[0] == '-'
    ensures Dash(core + rest) == |core|
  {
    if core == [] {
      assert core + rest == rest;
    } else {
      assert (core + rest)[1..] == core[1..] + rest;
      DashAfter(core[1..], rest);
    }
  }

  lemma LoweredJoin(a: string, b: string)
    ensures Lowered(a + b) == Lowered(a) + Lowered(b)
  {
  }

  lemma StrippedText(w: Version)
    requires w.Valid()
    ensures Stripped(w.Text()) == w.Text()
  {
    var t := w.Text();
    DottedIsPlain(w.nums);
    hide Dotted, Plain, AllDigits, IsComponent;
    assert t[0] == if w.v == [] then Dotted(w.nums)[0] else w.v[0];
    assert t[|t| - 1] == if w.pre == [] then Dotted(w.nums)[|Dotted(w.nums)| - 1] else w.pre[|w.pre| - 1];
  }

  lemma LoweredText(w: Version)
    requires w.Valid()
    ensures Lowered(w.Text()) == (Lowered(w.v) + Dotted(w.nums)) + Lowered(w.Tail())
  {
    DottedIsPlain(w.nums);
    LoweredJoin(w.v + Dotted(w.nums), w.Tail());
    LoweredJoin(w.v, Dotted(w.nums));
  }

  lemma PartsOf(core: string, pre: string)
    requires forall i :: 0 <= i < |core| ==> core[i] != '-'
    ensures Core(core + if pre == [] then [] else "-" + pre) == core
    ensures Suffix(core + if pre == [] then [] else "-" + pre) == pre
  {
    var tail := if pre == [] then [] else "-" + pre;
    DashAfter(core, tail);
  }

  lemma CoreText(w: Version)
    requires w.Valid()
    ensures var core := Lowered(w.v) + Dotted(w.nums);
            WithoutV(core) == Dotted(w.nums) && forall i :: 0 <= i < |core| ==> core[i] != '-'
  {
    DottedIsPlain(w.nums);
  }

  lemma LoweredTail(pre: string)
    ensures Lowered(if pre == [] then [] else "-" + pre) == if Lowered(pre) == [] then [] else "-" + Lowered(pre)
  {
    if pre != [] { LoweredJoin("-", pre); }
  }

  /** The key: the padded components, then the mark. */
  lemma RankIs(w: Version)
    requires w.Valid()
    ensures Rank(w.Text()) == Padded(w.nums) + Mark(Lowered(w.pre))
  {
    hide Pad, Mark, Core, Suffix, Stripped, Lowered, WithoutV, Dotted;
    StrippedText(w);
    LoweredText(w);
    CoreText(w);
    LoweredTail(w.pre);
    PartsOf(Lowered(w.v) + Dotted(w.nums), Lowered(w.pre));
    PadDotted(w.nums);
  }

  // ----- the order of the keys -----

  lemma {:induction false} BelowJoin(x: string, u: string, y: string, w: string)
    requires |x| == |y|
    ensures Below(x + u, y + w) <==> Below(x, y) || (x == y && Below(u, w))
  {
    if x == [] {
      assert x + u == u && y + w == w;
    } else {
      assert (x + u)[1..] == x[1..] + u && (y + w)[1..] == y[1..] + w;
      BelowJoin(x[1..], u, y[1..], w);
    }
  }

  function Ten(n: nat): (t: nat)
    ensures t > 0
  {
    if n == 0 then 1 else 10 * Ten(n - 1)
  }

  /** Numbers of one width are ordered as their digits are. */
  lemma {:induction false} FixedOrder(n: nat, m: nat, width: nat)
    requires n < Ten(width) && m < Ten(width)
    ensures Below(Fixed(n, width), Fixed(m, width)) <==> n < m
    ensures Fixed(n, width) == Fixed(m, width) <==> n == m
  {
    if width > 0 {
      FixedOrder(n / 10, m / 10, width - 1);
      var c, d := ('0' as int + n % 10) as char, ('0' as int + m % 10) as char;
      BelowJoin(Fixed(n / 10, width - 1), [c], Fixed(m / 10, width - 1), [d]);
      LastDigits(Fixed(n / 10, width - 1), c, Fixed(m / 10, width - 1), d);
    }
  }

  lemma LastDigits(x: string, c: char, y: string, d: char)
    requires |x| == |y|
    ensures x + [c] == y + [d] <==> x == y && c == d
  {
    if x + [c] == y + [d] {
      assert (x + [c])[..|x|] == x && (y + [d])[..|y|] == y;
      assert (x + [c])[|x|] == c && (y + [d])[|y|] == d;
    }
  }

  lemma ComponentOrder(a: string, b: string)
    requires IsComponent(a) && IsComponent(b)
    ensures Below(Component(a), Component(b)) <==> Number(a) < Number(b)
    ensures Component(a) == Component(b) <==> Number(a) == Number(b)
  {
    assert Ten(6) == 1000000;
    assert Ten(12) == 1000000000000;
    FixedOrder(Number(a), Number(b), 12);
  }

  /** Component by component, as numbers. */
  predicate Earlier(a: seq<string>, b: seq<string>)
    requires |a| == |b|
  {
    a != [] && (Number(a[0]) < Number(b[0]) || (Number(a[0]) == Number(b[0]) && Earlier(a[1..], b[1..])))
  }

  predicate SameNumbers(a: seq<string>, b: seq<string>)
    requires |a| == |b|
  {
    forall i :: 0 <= i < |a| ==> Number(a[i]) == Number(b[i])
  }

  predicate Components(nums: seq<string>) {
    nums != [] && forall i :: 0 <= i < |nums| ==> IsComponent(nums[i])
  }

  lemma {:induction false} PaddedOrder(a: seq<string>, b: seq<string>)
    requires |a| == |b| && Components(a) && Components(b)
    ensures |Padded(a)| == |Padded(b)|
    ensures Below(Padded(a), Padded(b)) <==> Earlier(a, b)
    ensures Padded(a) == Padded(b) <==> SameNumbers(a, b)
  {
    ComponentOrder(a[0], b[0]);
    if |a| > 1 {
      var x, y, u, w := Component(a[0]) + ".", Component(b[0]) + ".", Padded(a[1..]), Padded(b[1..]);
      PaddedOrder(a[1..], b[1..]);
      BelowJoin(Component(a[0]), ".", Component(b[0]), ".");
      BelowJoin(x, u, y, w);
      SplitEqual(Component(a[0]), u, Component(b[0]), w);
      assert !Below(".", ".");
    }
  }

  lemma SplitEqual(x: string, u: string, y: string, w: string)
    requires |x| == |y| && |u| == |w|
    ensures x + "." + u == y + "." + w <==> x == y && u == w
    ensures x + "." == y + "." <==> x == y
  {
    LastDigits(x, '.', y, '.');
    var s, t := x + "." + u, y + "." + w;
    if s == t {
      assert s[..|x|] == x && t[..|y|] == y;
      assert s[|x| + 1..] == u && t[|y| + 1..] == w;
    }
  }

  lemma MarkOrder(p: string, q: string)
    ensures Below(Mark(p), Mark(q)) <==> p != [] && (q == [] || Below(Pad(p), Pad(q)))
  {
    if p != [] && q != [] {
      BelowJoin("!", Pad(p), "!", Pad(q));
    }
  }

  /** Newest means newest: between tags with equally many components the keys are ordered by
      the numbers, and among equal numbers every pre-release comes directly before its
      release. */
  lemma RankOrder(a: Version, b: Version)
    requires a.Valid() && b.Valid() && |a.nums| == |b.nums|
    ensures Below(Rank(a.Text()), Rank(b.Text())) <==>
            Earlier(a.nums, b.nums)
            || (SameNumbers(a.nums, b.nums) && a.pre != []
                && (b.pre == [] || Below(Pad(Lowered(a.pre)), Pad(Lowered(b.pre)))))
  {
    hide Mark, Padded, Rank, Pad, Lowered;
    RankIs(a);
    RankIs(b);
    PaddedOrder(a.nums, b.nums);
    BelowJoin(Padded(a.nums), Mark(Lowered(a.pre)), Padded(b.nums), Mark(Lowered(b.pre)));
    MarkOrder(Lowered(a.pre), Lowered(b.pre));
  }

  predicate NoDigits(s: string) {
    forall i :: 0 <= i < |s| ==> !IsDigit(s[i])
  }

  lemma {:induction false} PadNumbered(p: string, d: string)
    requires NoDigits(p) && IsComponent(d)
    ensures Pad(p + d) == p + Component(d)
  {
    if p == [] {
      PadComponent(d, []);
      assert p + d == d + [] && p + Component(d) == Component(d) + [];
    } else {
      PadNumbered(p[1..], d);
      assert (p + d)[1..] == p[1..] + d && (p + d)[0] == p[0];
      assert [p[0]] + (p[1..] + Component(d)) == p + Component(d);
    }
  }

  lemma SameIsNotEarlier(a: seq<string>, b: seq<string>)
    requires |a| == |b| && Components(a) && Components(b) && SameNumbers(a, b)
    ensures !Earlier(a, b)
  {
    PaddedOrder(a, b);
    BelowItself(Padded(a));
  }

  /** Pre-releases of one version that differ in their number alone come in the order of the
      numbers: rc2 before rc10. */
  lemma PreReleasesInOrder(a: Version, b: Version, p: string, d: string, e: string)
    requires a.Valid() && b.Valid() && |a.nums| == |b.nums| && SameNumbers(a.nums, b.nums)
    requires NoDigits(p) && IsComponent(d) && IsComponent(e)
    requires Lowered(a.pre) == p + d && Lowered(b.pre) == p + e
    ensures Below(Rank(a.Text()), Rank(b.Text())) <==> Number(d) < Number(e)
  {
    hide Below, Rank, Pad, Number, Component, Earlier;
    RankOrder(a, b);
    SameIsNotEarlier(a.nums, b.nums);
    PadNumbered(p, d);
    PadNumbered(p, e);
    BelowJoin(p, Component(d), p, Component(e));
    BelowItself(p);
    ComponentOrder(d, e);
  }

  // ----- tags with different numbers of components -----

  lemma Dot(x: string, y: string)
    ensures x + "." + y == x + ("." + y)
  {
  }

  lemma Chain(x: string, y: string, z: string)
    ensures x + (y + z) == (x + y) + z
  {
  }

  lemma {:induction false} PaddedSplit(nums: seq<string>, k: nat)
    requires Components(nums) && 0 < k < |nums|
    ensures Padded(nums) == Padded(nums[..k]) + ("." + Padded(nums[k..]))
  {
    assert Padded(nums) == Component(nums[0]) + "." + Padded(nums[1..]);
    assert nums[..k][0] == nums[0];
    if k == 1 {
      assert Padded(nums[..1]) == Component(nums[0]);
      hide *;
      Dot(Component(nums[0]), Padded(nums[1..]));
    } else {
      assert Padded(nums[..k]) == Component(nums[0]) + "." + Padded(nums[..k][1..]);
      assert Components(nums[1..]);
      hide *;
      PaddedSplit(nums[1..], k - 1);
      assert nums[1..][..k - 1] == nums[..k][1..] && nums[1..][k - 1..] == nums[k..];
      Chain(Component(nums[0]) + ".", Padded(nums[..k][1..]), "." + Padded(nums[k..]));
    }
  }

  lemma MarkAgainstDot(pre: string, rest: string)
    ensures Below(Mark(pre), "." + rest) <==> pre != []
    ensures Below("." + rest, Mark(pre)) <==> pre == []
  {
  }

  /** The key of a longer tag, cut behind its first k components. */
  lemma LongRank(b: Version, k: nat) returns (rest: string)
    requires b.Valid() && 0 < k < |b.nums|
    ensures Rank(b.Text()) == Padded(b.nums[..k]) + ("." + rest)
  {
    hide Mark, Padded, Rank, Pad, Lowered;
    RankIs(b);
    PaddedSplit(b.nums, k);
    var x, y, z := Padded(b.nums[..k]), Padded(b.nums[k..]), Mark(Lowered(b.pre));
    rest := y + z;
    Rejoin(x, y, z);
  }

  lemma Rejoin(x: string, y: string, z: string)
    ensures (x + ("." + y)) + z == x + ("." + (y + z))
  {
  }

  /** A shorter tag that agrees with the front of a longer one ranks above it, unless it is a
      pre-release: v1.0 above v1.0.1. Otherwise the common components decide. */
  lemma RankOrderMixed(a: Version, b: Version)
    requires a.Valid() && b.Valid() && |a.nums| < |b.nums|
    ensures var front := b.nums[..|a.nums|];
            Below(Rank(a.Text()), Rank(b.Text())) == (Earlier(a.nums, front) || (SameNumbers(a.nums, front) && a.pre != []))
    ensures Rank(a.Text()) != Rank(b.Text())
  {
    hide Mark, Padded, Rank, Pad, Lowered, Below;
    var front := b.nums[..|a.nums|];
    RankIs(a);
    var rest := LongRank(b, |a.nums|);
    PaddedOrder(a.nums, front);
    BelowJoin(Padded(a.nums), Mark(Lowered(a.pre)), Padded(front), "." + rest);
    MarkAgainstDot(Lowered(a.pre), rest);
    DifferAt(Padded(a.nums), Mark(Lowered(a.pre)), Padded(front), "." + rest);
  }

  lemma DifferAt(x: string, u: string, y: string, w: string)
    requires |x| == |y| && (Below(u, w) || Below(w, u))
    ensures x + u != y + w
  {
    if x + u == y + w {
      assert (x + u)[|x|..] == u && (y + w)[|y|..] == w;
      BelowItself(u);
    }
  }

  lemma VersionsThatGoBackwards()
    ensures Below(Rank("v1.0.1"), Rank("v1.0"))
  {
    var a, b := Version("v", ["1", "0"], ""), Version("v", ["1", "0", "1"], "");
    assert Number("0") == 0 && Number("1") == 1;
    assert a.Valid() && b.Valid();
    assert Dotted(["0"]) == "0" && Dotted(["1"]) == "1";
    assert ["1", "0"][1..] == ["0"] && ["1", "0", "1"][1..] == ["0", "1"] && ["0", "1"][1..] == ["1"];
    assert a.Text() == "v1.0" && b.Text() == "v1.0.1";
    hide Mark, Padded, Rank, Pad, Lowered;
    RankOrderMixed(a, b);
    assert ["1", "0", "1"][..2] == ["1", "0"];
    assert !Earlier(["1", "0"], ["1", "0"]);
    BelowTotal(Rank("v1.0"), Rank("v1.0.1"));
  }

  /** A key in full: twelve digits for a number, "~" behind a release and "!" before the suffix
      of a pre-release. */
  lemma RankInFull()
    ensures Rank("v1.20-RC3") == "000000000001" + "." + "000000000020" + ("!" + ("rc" + "000000000003"))
    ensures Rank("V0.7") == "000000000000" + "." + "000000000007" + "~"
  {
    var a, b := Version("v", ["1", "20"], "RC3"), Version("V", ["0", "7"], "");
    TwoTags(a, b);
    PaddedTags();
    assert Lowered("RC3") == "rc3" && Lowered("") == "";
    PadSuffix();
    assert Mark("rc3") == "!" + Pad("rc3") && Mark("") == "~";
    hide *;
    RankIs(a);
    RankIs(b);
    NumbersInFull();
  }

  lemma PaddedTags()
    ensures Padded(["1", "20"]) == Component("1") + "." + Component("20")
    ensures Padded(["0", "7"]) == Component("0") + "." + Component("7")
  {
    hide Component;
    assert ["1", "20"][1..] == ["20"] && ["0", "7"][1..] == ["7"];
    assert Padded(["20"]) == Component("20") && Padded(["7"]) == Component("7");
  }

  lemma TwoTags(a: Version, b: Version)
    requires a == Version("v", ["1", "20"], "RC3") && b == Version("V", ["0", "7"], "")
    ensures a.Valid() && b.Valid() && a.Text() == "v1.20-RC3" && b.Text() == "V0.7"
  {
    assert Number("0") == 0 && Number("1") == 1 && Number("7") == 7 && Number("20") == 20;
    assert ["1", "20"][1..] == ["20"] && ["0", "7"][1..] == ["7"];
    assert Dotted(["20"]) == "20" && Dotted(["7"]) == "7";
  }

  lemma PadSuffix()
    ensures Pad("rc3") == "rc" + Component("3")
  {
    hide Component;
    assert "rc3"[1..] == "c3" && "c3"[1..] == "3" && "3"[..1] == "3" && "3"[1..] == "";
    assert DigitRun("3") == 1;
    assert Pad("3") == Component("3") + Pad("");
    assert Pad("c3") == "c" + Pad("3");
    assert Pad("rc3") == "r" + Pad("c3");
  }

  lemma NumbersInFull()
    ensures Component("0") == "000000000000" && Component("1") == "000000000001"
    ensures Component("3") == "000000000003" && Component("7") == "000000000007"
    ensures Component("20") == "000000000020" && Component("1000000000000") == "999999999999"
  {
    assert Number("0") == 0 && Number("1") == 1 && Number("3") == 3 && Number("7") == 7 && Number("20") == 20;
    LongNumber();
    hide Number, Fixed;
    OneDigit(0);
    OneDigit(1);
    OneDigit(3);
    OneDigit(7);
    Twenty();
    FixedNines();
  }

  lemma OneDigit(d: nat)
    requires d < 10
    ensures Fixed(d, 12) == "00000000000" + [('0' as int + d) as char]
  {
    FixedZero();
  }

  lemma Twenty()
    ensures Fixed(20, 12) == "000000000020"
  {
    FixedZero();
    assert Fixed(2, 11) == Fixed(0, 10) + "2";
  }

  lemma FixedZero()
    ensures Fixed(0, 10) == "0000000000" && Fixed(0, 11) == "00000000000"
  {
    assert Fixed(0, 3) == "000";
    assert Fixed(0, 6) == "000000";
    assert Fixed(0, 9) == "000000000";
  }

  lemma FixedNines()
    ensures Fixed(999999999999, 12) == "999999999999"
  {
    assert Fixed(9, 1) == "9";
    assert Fixed(99, 2) == "99";
    assert Fixed(999, 3) == "999";
    assert Fixed(9999, 4) == "9999";
    assert Fixed(99999, 5) == "99999";
    assert Fixed(999999, 6) == "999999";
    assert Fixed(9999999, 7) == "9999999";
    assert Fixed(99999999, 8) == "99999999";
    assert Fixed(999999999, 9) == "999999999";
    assert Fixed(9999999999, 10) == "9999999999";
    assert Fixed(99999999999, 11) == "99999999999";
  }

  lemma LongNumber()
    ensures Number("1000000000000") == 1000000000000
  {
    assert Number("1") == 1;
    assert "10"[..1] == "1";
    assert Number("10") == 10;
    assert "100"[..2] == "10";
    assert Number("100") == 100;
    assert "1000"[..3] == "100";
    assert Number("1000") == 1000;
    assert "10000"[..4] == "1000";
    assert Number("10000") == 10000;
    assert "100000"[..5] == "10000";
    assert Number("100000") == 100000;
    assert "1000000"[..6] == "100000";
    assert Number("1000000") == 1000000;
    assert "10000000"[..7] == "1000000";
    assert Number("10000000") == 10000000;
    assert "100000000"[..8] == "10000000";
    assert Number("100000000") == 100000000;
    assert "1000000000"[..9] == "100000000";
    assert Number("1000000000") == 1000000000;
    assert "10000000000"[..10] == "1000000000";
    assert Number("10000000000") == 10000000000;
    assert "100000000000"[..11] == "10000000000";
    assert Number("100000000000") == 100000000000;
    assert "1000000000000"[..12] == "100000000000";
    assert Number("1000000000000") == 1000000000000;
  }

  // ----- byte order is a strict total order -----

  lemma {:induction false} BelowTotal(a: string, b: string)
    ensures Below(a, b) || a == b || Below(b, a)
    ensures !(Below(a, b) && Below(b, a)) && !Below(a, a)
  {
    if a != [] && b != [] && a[0] == b[0] {
      BelowTotal(a[1..], b[1..]);
      assert a == [a[0]] + a[1..] && b == [b[0]] + b[1..];
    }
    if a != [] { BelowItself(a); }
  }

  lemma {:induction false} BelowItself(a: string)
    ensures !Below(a, a)
  {
    if a != [] { BelowItself(a[1..]); }
  }

  lemma {:induction false} BelowTransitive(a: string, b: string, c: string)
    requires Below(a, b) && Below(b, c)
    ensures Below(a, c)
  {
    if a != [] && a[0] == b[0] && b[0] == c[0] { BelowTransitive(a[1..], b[1..], c[1..]); }
  }
}
