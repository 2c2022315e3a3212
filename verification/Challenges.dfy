/**
 The store of registration challenges of web/server.py, over whole sequences of calls.
 */
module ChallengeStore {

  datatype Entry = Entry(token: string, expires: real)

  /** The dictionary in its insertion order. */
  type Live = seq<Entry>

  datatype Event =
    | Issue(token: string, at: real)
    | Spend(token: string, at: real, ok: bool)

  // ----- the store as a function of its history -----

  function Filter(keep: Entry -> bool, live: Live): (r: Live)
    ensures |r| <= |live|
  {
    if live == [] then []
    else
      var last := live[|live| - 1];
      Filter(keep, live[..|live| - 1]) + if keep(last) then [last] else []
  }

  function Unexpired(now: real): Entry -> bool {
    (e: Entry) => e.expires > now
  }

  function Other(token: string): Entry -> bool {
    (e: Entry) => e.token != token
  }

  /** The n youngest. */
  function Youngest(live: Live, n: nat): Live {
    if |live| <= n then live else live[|live| - n..]
  }

  /** What is left when room has been made for one more. */
  function Admit(live: Live, cap: nat, now: real): Live {
    if |live| < cap || cap == 0 then live else Youngest(Filter(Unexpired(now), live), cap - 1)
  }

  /** What one call leaves. */
  function After(live: Live, cap: nat, ttl: real, e: Event): Live {
    if e.Issue? then Admit(live, cap, e.at) + [Entry(e.token, e.at + ttl)] else Filter(Other(e.token), live)
  }

  function Contents(cap: nat, ttl: real, log: seq<Event>): Live {
    if log == [] then [] else After(Contents(cap, ttl, log[..|log| - 1]), cap, ttl, log[|log| - 1])
  }

  /** Whether a spend succeeds: the token is there and its time is not up. */
  predicate Spendable(live: Live, token: string, now: real) {
    exists i :: 0 <= i < |live| && live[i].token == token && live[i].expires > now
  }

  /** Room for two, ten seconds each: the third in drops the oldest, one whose time is up goes
      first, and at the very moment of its expiry a token is worth nothing. */
  lemma RoomForTwo()
    ensures Contents(2, 10.0, [Issue("a", 0.0), Issue("b", 1.0), Issue("c", 5.0)]) == [Entry("b", 11.0), Entry("c", 15.0)]
    ensures Contents(2, 10.0, [Issue("a", 0.0), Issue("b", 1.0), Issue("c", 11.0)]) == [Entry("c", 21.0)]
    ensures Spendable([Entry("b", 11.0)], "b", 10.9) && !Spendable([Entry("b", 11.0)], "b", 11.0)
  {
    assert Spendable([Entry("b", 11.0)], "b", 10.9) by { assert [Entry("b", 11.0)][0].token == "b"; }
    hide Contents, Spendable;
    Third(5.0);
    Third(11.0);
  }

  lemma Third(at: real)
    requires at == 5.0 || at == 11.0
    ensures Contents(2, 10.0, [Issue("a", 0.0), Issue("b", 1.0), Issue("c", at)])
         == if at == 5.0 then [Entry("b", 11.0), Entry("c", 15.0)] else [Entry("c", 21.0)]
  {
    hide *;
    var x, y := Entry("a", 10.0), Entry("b", 11.0);
    TwoLeft(x, y);
    TwoIn();
    var left := if at == 5.0 then [y] else [];
    var log := [Issue("a", 0.0), Issue("b", 1.0)];
    Issued(2, 10.0, log, "c", at, [x, y], left);
    assert log + [Issue("c", at)] == [Issue("a", 0.0), Issue("b", 1.0), Issue("c", at)];
  }

  lemma TwoIn()
    ensures Contents(2, 10.0, [Issue("a", 0.0), Issue("b", 1.0)]) == [Entry("a", 10.0), Entry("b", 11.0)]
  {
    hide *;
    var a, b := Issue("a", 0.0), Issue("b", 1.0);
    var x, y := Entry("a", 10.0), Entry("b", 11.0);
    TwoLeft(x, y);
    NoneYet(2, 10.0);
    Issued(2, 10.0, [], "a", 0.0, [], []);
    assert [] + [a] == [a] && [] + [x] == [x];
    Issued(2, 10.0, [a], "b", 1.0, [x], [x]);
    assert [a] + [b] == [a, b] && [x] + [y] == [x, y];
  }

  lemma NoneYet(cap: nat, ttl: real)
    ensures Contents(cap, ttl, []) == []
  {
  }

  lemma Issued(cap: nat, ttl: real, log: seq<Event>, token: string, at: real, live: Live, left: Live)
    requires Contents(cap, ttl, log) == live && Admit(live, cap, at) == left
    ensures Contents(cap, ttl, log + [Issue(token, at)]) == left + [Entry(token, at + ttl)]
  {
    hide Contents, Admit;
    ContentsPush(cap, ttl, log, Issue(token, at));
  }

  lemma TwoLeft(x: Entry, y: Entry)
    requires x == Entry("a", 10.0) && y == Entry("b", 11.0)
    ensures Admit([], 2, 0.0) == [] && Admit([x], 2, 1.0) == [x]
    ensures Admit([x, y], 2, 5.0) == [y] && Admit([x, y], 2, 11.0) == []
  {
    assert [x, y][..1] == [x] && [x][..0] == [];
    assert Filter(Unexpired(5.0), [x]) == [x];
    assert Filter(Unexpired(5.0), [x, y]) == [x, y];
    assert Filter(Unexpired(11.0), [x]) == [];
    assert Filter(Unexpired(11.0), [x, y]) == [];
    assert [x, y][1..] == [y];
  }

  lemma ContentsPush(cap: nat, ttl: real, log: seq<Event>, e: Event)
    ensures Contents(cap, ttl, log + [e]) == After(Contents(cap, ttl, log), cap, ttl, e)
  {
    var all := log + [e];
    assert all[..|all| - 1] == log;
  }

  // ----- which histories there are -----

  predicate Chronological(log: seq<Event>) {
    forall i, j :: 0 <= i <= j < |log| ==> log[i].at <= log[j].at
  }

  /** No token is ever issued twice. */
  predicate FreshTokens(log: seq<Event>) {
    forall i, j :: 0 <= i < j < |log| && log[i].Issue? && log[j].Issue? ==> log[i].token != log[j].token
  }

  /** Every answer in the history is the one the store gave. */
  predicate Answered(cap: nat, ttl: real, log: seq<Event>) {
    forall i :: 0 <= i < |log| && log[i].Spend? ==> log[i].ok == Spendable(Contents(cap, ttl, log[..i]), log[i].token, log[i].at)
  }

  // ----- never more than the cap -----

  lemma {:induction false} NeverMoreThanCap(cap: nat, ttl: real, log: seq<Event>)
    requires cap >= 1
    ensures |Contents(cap, ttl, log)| <= cap
  {
    if log != [] {
      var rest, last := log[..|log| - 1], log[|log| - 1];
      assert Contents(cap, ttl, log) == After(Contents(cap, ttl, rest), cap, ttl, last);
      hide After, Contents;
      NeverMoreThanCap(cap, ttl, rest);
    }
  }

  // ----- spent at most once, and in time -----

  lemma {:induction false} FilterIs(keep: Entry -> bool, live: Live, e: Entry)
    ensures e in Filter(keep, live) <==> e in live && keep(e)
  {
    if live != [] {
      FilterIs(keep, live[..|live| - 1], e);
      assert live == live[..|live| - 1] + [live[|live| - 1]];
    }
  }

  lemma AdmitKeeps(live: Live, cap: nat, now: real, e: Entry)
    requires e in Admit(live, cap, now)
    ensures e in live
  {
    FilterIs(Unexpired(now), live, e);
  }

  /** A token issued at that moment and not asked for since. */
  ghost predicate Outstanding(log: seq<Event>, token: string, at: real) {
    exists k :: 0 <= k < |log| && OutstandingFrom(log, token, at, k)
  }

  ghost predicate OutstandingFrom(log: seq<Event>, token: string, at: real, k: nat)
    requires k < |log|
  {
    log[k] == Issue(token, at) && forall j :: k < j < |log| ==> !(log[j].Spend? && log[j].token == token)
  }

  /** Everything in the store was issued, expires a ttl later and has not been asked for. */
  lemma {:induction false} EntriesAreOutstanding(cap: nat, ttl: real, log: seq<Event>, e: Entry)
    requires e in Contents(cap, ttl, log)
    ensures Outstanding(log, e.token, e.expires - ttl)
  {
    if log != [] {
      hide *;
      var rest, last := log[..|log| - 1], log[|log| - 1];
      assert rest + [last] == log;
      if e in Contents(cap, ttl, rest) { EntriesAreOutstanding(cap, ttl, rest, e); }
      OutstandingPush(cap, ttl, rest, last, e);
    }
  }

  lemma OutstandingPush(cap: nat, ttl: real, rest: seq<Event>, last: Event, e: Entry)
    requires e in Contents(cap, ttl, rest) ==> Outstanding(rest, e.token, e.expires - ttl)
    requires e in Contents(cap, ttl, rest + [last])
    ensures Outstanding(rest + [last], e.token, e.expires - ttl)
  {
    hide *;
    ContentsPush(cap, ttl, rest, last);
    AfterEntries(Contents(cap, ttl, rest), cap, ttl, last, e);
    if last.Issue? && e == Entry(last.token, last.at + ttl) {
      OutstandingNow(rest, last.token, last.at);
      assert e.expires - ttl == last.at;
    } else {
      OutstandingStill(rest, last, e.token, e.expires - ttl);
    }
  }

  /** Where an entry of the new contents comes from. */
  lemma AfterEntries(live: Live, cap: nat, ttl: real, e: Event, entry: Entry)
    requires entry in After(live, cap, ttl, e)
    ensures (e.Issue? && entry == Entry(e.token, e.at + ttl)) || (entry in live && (e.Spend? ==> e.token != entry.token))
  {
    if e.Issue? {
      if entry != Entry(e.token, e.at + ttl) { AdmitKeeps(live, cap, e.at, entry); }
    } else {
      FilterIs(Other(e.token), live, entry);
    }
  }

  lemma OutstandingNow(rest: seq<Event>, token: string, at: real)
    ensures Outstanding(rest + [Issue(token, at)], token, at)
  {
    assert OutstandingFrom(rest + [Issue(token, at)], token, at, |rest|);
  }

  lemma OutstandingStill(rest: seq<Event>, last: Event, token: string, at: real)
    requires Outstanding(rest, token, at) && (last.Spend? ==> last.token != token)
    ensures Outstanding(rest + [last], token, at)
  {
    var k :| 0 <= k < |rest| && OutstandingFrom(rest, token, at, k);
    assert OutstandingFrom(rest + [last], token, at, k);
  }

  /** A spend succeeds only for a token that was issued, less than a ttl ago, and that nobody
      has tried to spend before. */
  lemma SpendsAreIssuedAndInTime(cap: nat, ttl: real, log: seq<Event>, i: nat)
    requires Answered(cap, ttl, log) && i < |log| && log[i].Spend? && log[i].ok
    ensures exists at :: Outstanding(log[..i], log[i].token, at) && log[i].at < at + ttl
  {
    var live := Contents(cap, ttl, log[..i]);
    var p :| 0 <= p < |live| && live[p].token == log[i].token && live[p].expires > log[i].at;
    EntriesAreOutstanding(cap, ttl, log[..i], live[p]);
  }

  /** Each token is spent at most once. */
  lemma SpentAtMostOnce(cap: nat, ttl: real, log: seq<Event>, i: nat, j: nat)
    requires Answered(cap, ttl, log) && FreshTokens(log) && i < j < |log|
    requires log[i].Spend? && log[i].ok && log[j].Spend? && log[j].token == log[i].token
    ensures !log[j].ok
  {
    if log[j].ok {
      hide *;
      SpendsAreIssuedAndInTime(cap, ttl, log, i);
      SpendsAreIssuedAndInTime(cap, ttl, log, j);
      var a :| Outstanding(log[..i], log[i].token, a);
      var b :| Outstanding(log[..j], log[j].token, b);
      NotOutstandingTwice(log, i, j, a, b);
    }
  }

  /** A spend ends a token for good. */
  lemma NotOutstandingTwice(log: seq<Event>, i: nat, j: nat, a: real, b: real)
    requires FreshTokens(log) && i < j < |log| && log[i].Spend? && log[j].token == log[i].token
    requires Outstanding(log[..i], log[i].token, a)
    ensures !Outstanding(log[..j], log[j].token, b)
  {
    var k :| 0 <= k < i && OutstandingFrom(log[..i], log[i].token, a, k);
    forall m | 0 <= m < j ensures !OutstandingFrom(log[..j], log[j].token, b, m) {
      if m < i {
        assert log[..j][i] == log[i];
      } else {
        assert log[..i][k] == log[k] && log[..j][m] == log[m];
      }
    }
  }

  // ----- an honest client has time for cap - 1 others -----

  /** The entry is there with at most n younger ones behind it. */
  ghost predicate Holds(live: Live, e: Entry, n: nat) {
    exists p: nat :: p < |live| && live[p] == e && |live| - 1 - p <= n
  }

  lemma {:induction false} FilterHolds(keep: Entry -> bool, live: Live, e: Entry, n: nat)
    requires Holds(live, e, n) && keep(e)
    ensures Holds(Filter(keep, live), e, n)
  {
    var p: nat :| p < |live| && live[p] == e && |live| - 1 - p <= n;
    var r := Filter(keep, live);
    if p == |live| - 1 {
      assert r[|r| - 1] == e;
    } else {
      assert live[..|live| - 1][p] == e;
      FilterHolds(keep, live[..|live| - 1], e, n - 1);
      var r' := Filter(keep, live[..|live| - 1]);
      var q: nat :| q < |r'| && r'[q] == e && |r'| - 1 - q <= n - 1;
      assert r[q] == e;
    }
  }

  lemma AdmitHolds(live: Live, cap: nat, now: real, e: Entry, n: nat)
    requires Holds(live, e, n) && n + 1 < cap && now < e.expires
    ensures Holds(Admit(live, cap, now), e, n)
  {
    FilterHolds(Unexpired(now), live, e, n);
  }

  lemma PushHolds(live: Live, e: Entry, n: nat, other: Entry)
    requires Holds(live, e, n)
    ensures Holds(live + [other], e, n + 1)
  {
    var p: nat :| p < |live| && live[p] == e && |live| - 1 - p <= n;
    assert (live + [other])[p] == e;
  }

  function Issues(log: seq<Event>): nat {
    if log == [] then 0 else Issues(log[..|log| - 1]) + if log[|log| - 1].Issue? then 1 else 0
  }

  /** Nobody asks for the token in these events, and they all happen before its time is up. */
  predicate Undisturbed(events: seq<Event>, token: string, expires: real) {
    forall i :: 0 <= i < |events| ==> events[i].at < expires && !(events[i].Spend? && events[i].token == token)
  }

  /** A token survives the next cap - 1 issues, as long as nobody asks for it. */
  lemma {:induction false} SurvivesCapLessOne(cap: nat, ttl: real, before: seq<Event>, token: string, at: real, since: seq<Event>)
    requires Issues(since) < cap && Undisturbed(since, token, at + ttl)
    ensures Holds(Contents(cap, ttl, before + [Issue(token, at)] + since), Entry(token, at + ttl), Issues(since))
  {
    hide Contents, After, Admit, Filter, Holds;
    var e, start := Entry(token, at + ttl), before + [Issue(token, at)];
    if since == [] {
      assert start + since == start;
      JustIssued(cap, ttl, before, token, at);
    } else {
      var rest, last := since[..|since| - 1], since[|since| - 1];
      SurvivesCapLessOne(cap, ttl, before, token, at, rest);
      assert start + since == (start + rest) + [last];
      ContentsPush(cap, ttl, start + rest, last);
      AfterHolds(Contents(cap, ttl, start + rest), cap, ttl, last, e, Issues(rest));
    }
  }

  lemma JustIssued(cap: nat, ttl: real, before: seq<Event>, token: string, at: real)
    ensures Holds(Contents(cap, ttl, before + [Issue(token, at)]), Entry(token, at + ttl), 0)
  {
    ContentsPush(cap, ttl, before, Issue(token, at));
    var live := Contents(cap, ttl, before + [Issue(token, at)]);
    assert live[|live| - 1] == Entry(token, at + ttl);
  }

  lemma AfterHolds(live: Live, cap: nat, ttl: real, e: Event, entry: Entry, n: nat)
    requires Holds(live, entry, n) && e.at < entry.expires && !(e.Spend? && e.token == entry.token)
    requires e.Issue? ==> n + 1 < cap
    ensures Holds(After(live, cap, ttl, e), entry, if e.Issue? then n + 1 else n)
  {
    if e.Issue? {
      AdmitHolds(live, cap, e.at, entry, n);
      PushHolds(Admit(live, cap, e.at), entry, n, Entry(e.token, e.at + ttl));
    } else {
      FilterHolds(Other(e.token), live, entry, n);
    }
  }

  /** So a spend in time succeeds however many were issued before and fewer than cap since. */
  lemma SpendInTimeSucceeds(cap: nat, ttl: real, before: seq<Event>, token: string, at: real, since: seq<Event>, now: real)
    requires Issues(since) < cap && Undisturbed(since, token, at + ttl) && now < at + ttl
    ensures Spendable(Contents(cap, ttl, before + [Issue(token, at)] + since), token, now)
  {
    SurvivesCapLessOne(cap, ttl, before, token, at, since);
    var live := Contents(cap, ttl, before + [Issue(token, at)] + since);
    var p: nat :| p < |live| && live[p] == Entry(token, at + ttl) && |live| - 1 - p <= Issues(since);
    assert live[p].token == token && live[p].expires > now;
  }

  // ----- the object -----

  predicate Sorted(live: Live) {
    forall i, j :: 0 <= i <= j < |live| ==> live[i].expires <= live[j].expires
  }

  /** In order of expiry, the last no later than `latest`. */
  predicate SortedUpTo(live: Live, latest: real) {
    Sorted(live) && forall i :: 0 <= i < |live| ==> live[i].expires <= latest
  }

  lemma PushSorted(live: Live, latest: real, e: Entry)
    requires SortedUpTo(live, latest) && latest <= e.expires
    ensures SortedUpTo(live + [e], e.expires)
  {
  }

  lemma {:induction false} FilterSorted(keep: Entry -> bool, live: Live, latest: real)
    requires SortedUpTo(live, latest)
    ensures SortedUpTo(Filter(keep, live), latest)
  {
    if live != [] {
      var rest, last := live[..|live| - 1], live[|live| - 1];
      FilterSorted(keep, rest, last.expires);
      if keep(last) { PushSorted(Filter(keep, rest), last.expires, last); }
    }
  }

  lemma YoungestSorted(live: Live, n: nat, latest: real)
    requires SortedUpTo(live, latest)
    ensures SortedUpTo(Youngest(live, n), latest)
  {
  }

  lemma AdmitSorted(live: Live, cap: nat, now: real, latest: real)
    requires SortedUpTo(live, latest)
    ensures SortedUpTo(Admit(live, cap, now), latest)
  {
    hide SortedUpTo, Filter, Youngest;
    FilterSorted(Unexpired(now), live, latest);
    YoungestSorted(Filter(Unexpired(now), live), if cap > 0 then cap - 1 else 0, latest);
  }

  /** The store's order of insertion is the order in which its entries expire. */
  lemma {:induction false} ContentsSorted(cap: nat, ttl: real, log: seq<Event>, now: real)
    requires Chronological(log) && forall i :: 0 <= i < |log| ==> log[i].at <= now
    ensures SortedUpTo(Contents(cap, ttl, log), now + ttl)
  {
    if log != [] {
      hide Admit, Filter, SortedUpTo;
      var rest, last := log[..|log| - 1], log[|log| - 1];
      var live, latest := Contents(cap, ttl, rest), last.at + ttl;
      ContentsSorted(cap, ttl, rest, last.at);
      if last.Issue? {
        AdmitSorted(live, cap, last.at, latest);
        PushSorted(Admit(live, cap, last.at), latest, Entry(last.token, latest));
      } else {
        FilterSorted(Other(last.token), live, latest);
      }
      SortedFurther(Contents(cap, ttl, log), latest, now + ttl);
    } else {
      assert SortedUpTo([], now + ttl);
    }
  }

  lemma SortedFurther(live: Live, latest: real, later: real)
    requires SortedUpTo(live, latest) && latest <= later
    ensures SortedUpTo(live, later)
  {
  }

  lemma FilterPush(keep: Entry -> bool, live: Live, e: Entry)
    ensures Filter(keep, live + [e]) == if keep(e) then Filter(keep, live) + [e] else Filter(keep, live)
  {
    var all := live + [e];
    assert all[..|all| - 1] == live;
    assert Filter(keep, live) + [] == Filter(keep, live);
  }

  /** Deleting every expired entry. */
  method Purge(live: Live, now: real) returns (kept: Live)
    ensures kept == Filter(Unexpired(now), live)
  {
    hide Filter;
    kept := [];
    for i := 0 to |live|
      invariant kept == Filter(Unexpired(now), live[..i])
    {
      FilterPush(Unexpired(now), live[..i], live[i]);
      assert live[..i] + [live[i]] == live[..i + 1];
      if live[i].expires > now { kept := kept + [live[i]]; }
    }
    assert live[..|live|] == live;
  }

  /** min() by expiry: the first entry that expires no later than any other. */
  method Oldest(live: Live) returns (i: nat)
    requires live != []
    ensures i < |live| && forall j :: 0 <= j < |live| ==> live[i].expires <= live[j].expires
    ensures forall j :: 0 <= j < i ==> live[i].expires < live[j].expires
  {
    i := 0;
    for k := 1 to |live|
      invariant i < k && forall j :: 0 <= j < k ==> live[i].expires <= live[j].expires
      invariant forall j :: 0 <= j < i ==> live[i].expires < live[j].expires
    {
      if live[k].expires < live[i].expires { i := k; }
    }
  }

  /** Deleting the oldest until fewer than cap are left. */
  method Evict(live: Live, cap: nat) returns (left: Live)
    requires cap >= 1 && Sorted(live)
    ensures left == Youngest(live, cap - 1)
  {
    left := live;
    while |left| >= cap
      invariant |left| <= |live| && left == live[|live| - |left|..]
      invariant |left| >= cap - 1 || left == live
    {
      var i := Oldest(left);
      assert left[0] == live[|live| - |left|];
      left := left[..i] + left[i + 1..];
    }
  }

  class Challenges {
    const ttl: real
    const cap: nat
    var live: Live
    ghost var log: seq<Event>

    ghost predicate Valid()
      reads this
    {
      && cap >= 1 && live == Contents(cap, ttl, log)
      && Chronological(log) && FreshTokens(log) && Answered(cap, ttl, log)
    }

    constructor (ttl: real, cap: nat)
      requires cap >= 1
      ensures Valid() && log == [] && this.ttl == ttl && this.cap == cap
    {
      this.ttl, this.cap := ttl, cap;
      live, log := [], [];
    }

    /** issue(), for a token never issued before. */
    method Issue(token: string, now: real)
      requires Valid()
      requires (forall i :: 0 <= i < |log| ==> log[i].at <= now && (log[i].Issue? ==> log[i].token != token))
      modifies this
      ensures Valid() && log == old(log) + [Event.Issue(token, now)] && |live| <= cap
    {
      hide Contents, After, Filter, Youngest;
      ghost var e := Event.Issue(token, now);
      ContentsSorted(cap, ttl, log, now);
      ContentsPush(cap, ttl, log, e);
      StillProper(cap, ttl, log, e);
      NeverMoreThanCap(cap, ttl, log + [e]);
      AfterIssue(live, cap, ttl, token, now);
      if |live| >= cap {
        var kept := Purge(live, now);
        FilterSorted(Unexpired(now), live, now + ttl);
        live := Evict(kept, cap);
      }
      live := live + [Entry(token, now + ttl)];
      log := log + [e];
    }

    /** spend(). */
    method Spend(token: string, now: real) returns (ok: bool)
      requires Valid() && forall i :: 0 <= i < |log| ==> log[i].at <= now
      modifies this
      ensures Valid() && log == old(log) + [Event.Spend(token, now, ok)]
      ensures ok == Spendable(Contents(cap, ttl, old(log)), token, now)
    {
      hide Contents, After;
      ok := exists i :: 0 <= i < |live| && live[i].token == token && live[i].expires > now;
      ghost var e := Event.Spend(token, now, ok);
      ContentsPush(cap, ttl, log, e);
      StillProper(cap, ttl, log, e);
      AfterSpend(live, cap, ttl, token, now, ok);
      live := Filter(Other(token), live);
      log := log + [e];
    }
  }

  lemma AfterIssue(live: Live, cap: nat, ttl: real, token: string, now: real)
    requires cap >= 1
    ensures After(live, cap, ttl, Event.Issue(token, now)) ==
            (if |live| >= cap then Youngest(Filter(Unexpired(now), live), cap - 1) else live) + [Entry(token, now + ttl)]
  {
    hide Filter, Youngest;
  }

  lemma AfterSpend(live: Live, cap: nat, ttl: real, token: string, now: real, ok: bool)
    ensures After(live, cap, ttl, Event.Spend(token, now, ok)) == Filter(Other(token), live)
  {
  }

  lemma StillProper(cap: nat, ttl: real, log: seq<Event>, e: Event)
    requires Chronological(log) && FreshTokens(log) && Answered(cap, ttl, log)
    requires forall i :: 0 <= i < |log| ==> log[i].at <= e.at && (e.Issue? && log[i].Issue? ==> log[i].token != e.token)
    requires e.Spend? ==> e.ok == Spendable(Contents(cap, ttl, log), e.token, e.at)
    ensures Chronological(log + [e]) && FreshTokens(log + [e]) && Answered(cap, ttl, log + [e])
  {
    hide Contents, Spendable;
    var all := log + [e];
    forall i | 0 <= i < |all| && all[i].Spend?
      ensures all[i].ok == Spendable(Contents(cap, ttl, all[..i]), all[i].token, all[i].at)
    {
      if i < |log| { assert all[..i] == log[..i]; } else { assert all[..i] == log; }
    }
  }
}
