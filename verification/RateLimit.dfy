/**
 The sliding-window rate limiter of web/server.py, over whole sequences of calls.
 */
module RateLimit {

  // ----- what the limiter promises, said on the history alone -----

  datatype Request = Request(key: string, limit: int, at: real)

  datatype Call = Call(key: string, at: real, allowed: bool)

  /** When calls of this key were allowed, in order. */
  function AllowedTimes(log: seq<Call>, key: string): seq<real> {
    if log == [] then []
    else
      var last := log[|log| - 1];
      AllowedTimes(log[..|log| - 1], key) + if last.key == key && last.allowed then [last.at] else []
  }

  /** Those of the times that lie in from..end. */
  function Within(times: seq<real>, from: real, end: real): seq<real> {
    if times == [] then []
    else
      var last := times[|times| - 1];
      Within(times[..|times| - 1], from, end) + if from <= last <= end then [last] else []
  }

  /** Fewer than the limit were allowed in the window that ends now. */
  predicate Decides(window: real, log: seq<Call>, r: Request) {
    |Within(AllowedTimes(log, r.key), r.at - window, r.at)| < r.limit
  }

  /** The calls a sequence of requests turns into. */
  function Replay(window: real, asked: seq<Request>): (log: seq<Call>)
    ensures |log| == |asked|
  {
    if asked == [] then []
    else
      var log := Replay(window, asked[..|asked| - 1]);
      var r := asked[|asked| - 1];
      log + [Call(r.key, r.at, Decides(window, log, r))]
  }

  /** Both ends count. */
  lemma {:induction false} WithinIs(times: seq<real>, from: real, end: real, t: real)
    ensures multiset(Within(times, from, end))[t] == if from <= t <= end then multiset(times)[t] else 0
  {
    if times != [] {
      var rest, last := times[..|times| - 1], times[|times| - 1];
      assert times == rest + [last];
      assert Within(times, from, end) == Within(rest, from, end) + if from <= last <= end then [last] else [];
      hide Within;
      WithinIs(rest, from, end, t);
      Counted(rest, [last], t);
      Counted(Within(rest, from, end), if from <= last <= end then [last] else [], t);
    }
  }

  lemma Counted(a: seq<real>, b: seq<real>, t: real)
    ensures multiset(a + b)[t] == multiset(a)[t] + multiset(b)[t]
  {
  }

  /** One call in ten seconds: a second exactly ten seconds later is denied, and as it was not
      allowed it does not count against the one after it. */
  lemma WindowIsClosed(k: string)
    ensures Replay(10.0, [Request(k, 1, 0.0), Request(k, 1, 10.0), Request(k, 1, 10.5)])
         == [Call(k, 0.0, true), Call(k, 10.0, false), Call(k, 10.5, true)]
  {
    var r0, r1, r2 := Request(k, 1, 0.0), Request(k, 1, 10.0), Request(k, 1, 10.5);
    var c0, c1 := Call(k, 0.0, true), Call(k, 10.0, false);
    OneAllowed(k);
    hide *;
    NothingReplayed(10.0);
    assert [] + [r0] == [r0] && [r0] + [r1] == [r0, r1] && [r0, r1] + [r2] == [r0, r1, r2];
    ReplayOne(10.0, [], r0, [], true);
    assert [] + [c0] == [c0];
    ReplayOne(10.0, [r0], r1, [c0], false);
    assert [c0] + [c1] == [c0, c1];
    ReplayOne(10.0, [r0, r1], r2, [c0, c1], true);
    assert [c0, c1] + [Call(k, 10.5, true)] == [c0, c1, Call(k, 10.5, true)];
  }

  lemma NothingReplayed(window: real)
    ensures Replay(window, []) == []
  {
  }

  lemma ReplayOne(window: real, asked: seq<Request>, r: Request, log: seq<Call>, ok: bool)
    requires Replay(window, asked) == log && Decides(window, log, r) == ok
    ensures Replay(window, asked + [r]) == log + [Call(r.key, r.at, ok)]
  {
    hide Decides;
    assert (asked + [r])[..|asked|] == asked;
  }

  /** The three answers. */
  lemma OneAllowed(k: string)
    ensures Decides(10.0, [], Request(k, 1, 0.0))
    ensures !Decides(10.0, [Call(k, 0.0, true)], Request(k, 1, 10.0))
    ensures Decides(10.0, [Call(k, 0.0, true), Call(k, 10.0, false)], Request(k, 1, 10.5))
  {
    hide *;
    var c0, c1 := Call(k, 0.0, true), Call(k, 10.0, false);
    NoneAllowed(k, -10.0, 0.0);
    DecidesFrom(10.0, [], Request(k, 1, 0.0), [], -10.0, 0);
    AllowedPush([], c0, k);
    assert [] + [c0] == [c0] && [] + [0.0] == [0.0];
    WithinOne(0.0, 0.0, 10.0);
    DecidesFrom(10.0, [c0], Request(k, 1, 10.0), [0.0], 0.0, 1);
    AllowedPush([c0], c1, k);
    assert [c0] + [c1] == [c0, c1] && [0.0] + [] == [0.0];
    WithinOne(0.0, 0.5, 10.5);
    DecidesFrom(10.0, [c0, c1], Request(k, 1, 10.5), [0.0], 0.5, 0);
  }

  lemma DecidesFrom(window: real, log: seq<Call>, r: Request, times: seq<real>, from: real, n: nat)
    requires AllowedTimes(log, r.key) == times && from == r.at - window && |Within(times, from, r.at)| == n
    ensures Decides(window, log, r) <==> n < r.limit
  {
    hide AllowedTimes, Within;
  }

  lemma NoneAllowed(k: string, from: real, end: real)
    ensures AllowedTimes([], k) == [] && Within([], from, end) == []
  {
  }

  lemma AllowedPush(log: seq<Call>, c: Call, k: string)
    ensures AllowedTimes(log + [c], k) == AllowedTimes(log, k) + if c.key == k && c.allowed then [c.at] else []
  {
    assert (log + [c])[..|log|] == log;
  }

  lemma WithinOne(t: real, from: real, end: real)
    ensures |Within([t], from, end)| == if from <= t <= end then 1 else 0
  {
    assert [t][..0] == [] && Within([], from, end) == [];
  }

  predicate Ordered(times: seq<real>) {
    forall i, j :: 0 <= i <= j < |times| ==> times[i] <= times[j]
  }

  predicate Chronological(asked: seq<Request>) {
    forall i, j :: 0 <= i <= j < |asked| ==> asked[i].at <= asked[j].at
  }

  // ----- at most the limit in any window -----

  /** Every request of this key asks under the same limit. */
  predicate ConstantLimit(asked: seq<Request>, key: string, limit: int) {
    forall i :: 0 <= i < |asked| && asked[i].key == key ==> asked[i].limit == limit
  }

  /** Widening the interval loses nothing. */
  lemma {:induction false} WithinGrows(times: seq<real>, from: real, end: real, from': real, end': real)
    requires forall i :: 0 <= i < |times| && from <= times[i] <= end ==> from' <= times[i] <= end'
    ensures |Within(times, from, end)| <= |Within(times, from', end')|
  {
    if times != [] {
      WithinGrows(times[..|times| - 1], from, end, from', end');
    }
  }

  lemma {:induction false} AllowedBefore(window: real, asked: seq<Request>, key: string, now: real)
    requires forall k :: 0 <= k < |asked| ==> asked[k].at <= now
    ensures forall i :: 0 <= i < |AllowedTimes(Replay(window, asked), key)| ==> AllowedTimes(Replay(window, asked), key)[i] <= now
  {
    if asked != [] {
      AllowedBefore(window, asked[..|asked| - 1], key, now);
      LogUnfold(window, asked, key);
    }
  }

  lemma OneMoreCall(times: seq<real>, at: real, allowed: bool, window: real, from: real, limit: int)
    requires forall i :: 0 <= i < |times| ==> times[i] <= at
    requires allowed ==> |Within(times, at - window, at)| < limit
    requires |Within(times, from, from + window)| <= limit
    ensures |Within(times + if allowed then [at] else [], from, from + window)| <= limit
  {
    if allowed {
      WithinPush(times, at, from, from + window);
      if from <= at <= from + window {
        WithinGrows(times, from, from + window, at - window, at);
      }
    } else {
      assert times + [] == times;
    }
  }

  /** At most `limit` calls of a key are allowed in any closed interval as long as the
      window, wherever it lies. */
  lemma {:induction false} AtMostLimitInAnyWindow(window: real, asked: seq<Request>, key: string, limit: int, from: real)
    requires Chronological(asked) && ConstantLimit(asked, key, limit) && limit >= 0
    ensures |Within(AllowedTimes(Replay(window, asked), key), from, from + window)| <= limit
  {
    if asked == [] {
      assert AllowedTimes(Replay(window, []), key) == [];
    } else {
      hide *;
      var r, rest := asked[|asked| - 1], asked[..|asked| - 1];
      Prefix(asked, key, limit);
      AtMostLimitInAnyWindow(window, rest, key, limit, from);
      var times := AllowedTimes(Replay(window, rest), key);
      LogUnfold(window, asked, key);
      AllowedBefore(window, rest, key, r.at);
      var allowed := r.key == key && Decides(window, Replay(window, rest), r);
      if allowed { DecidesMeans(window, Replay(window, rest), r); }
      OneMoreCall(times, r.at, allowed, window, from, limit);
    }
  }

  lemma DecidesMeans(window: real, log: seq<Call>, r: Request)
    requires Decides(window, log, r)
    ensures |Within(AllowedTimes(log, r.key), r.at - window, r.at)| < r.limit
  {
  }

  lemma Prefix(asked: seq<Request>, key: string, limit: int)
    requires asked != [] && Chronological(asked) && ConstantLimit(asked, key, limit)
    ensures var r, rest := asked[|asked| - 1], asked[..|asked| - 1];
            && Chronological(rest) && ConstantLimit(rest, key, limit) && (r.key == key ==> r.limit == limit)
            && forall k :: 0 <= k < |rest| ==> rest[k].at <= r.at
  {
  }

  lemma WithinPush(times: seq<real>, t: real, from: real, end: real)
    ensures Within(times + [t], from, end) == Within(times, from, end) + if from <= t <= end then [t] else []
  {
    var all := times + [t];
    assert all[..|all| - 1] == times;
  }

  lemma LogUnfold(window: real, asked: seq<Request>, key: string)
    requires asked != []
    ensures var r, rest := asked[|asked| - 1], asked[..|asked| - 1];
            AllowedTimes(Replay(window, asked), key) ==
              AllowedTimes(Replay(window, rest), key)
              + if r.key == key && Decides(window, Replay(window, rest), r) then [r.at] else []
  {
    var log := Replay(window, asked);
    assert log[..|log| - 1] == Replay(window, asked[..|asked| - 1]);
  }

  /** A denied call is one for which the limit is used up to the last one. */
  lemma DeniedOnlyWhenUsedUp(window: real, asked: seq<Request>, r: Request)
    requires Chronological(asked + [r]) && ConstantLimit(asked, r.key, r.limit) && r.limit >= 0
    requires !Decides(window, Replay(window, asked), r)
    ensures |Within(AllowedTimes(Replay(window, asked), r.key), r.at - window, r.at)| == r.limit
  {
    hide Within, AllowedTimes, Replay;
    assert Chronological(asked) by {
      forall i, j | 0 <= i <= j < |asked| ensures asked[i].at <= asked[j].at {
        assert (asked + [r])[i] == asked[i] && (asked + [r])[j] == asked[j];
      }
    }
    AtMostLimitInAnyWindow(window, asked, r.key, r.limit, r.at - window);
    assert r.at - window + window == r.at;
  }

  // ----- keys do not affect each other -----

  function OfKey(asked: seq<Request>, key: string): seq<Request> {
    if asked == [] then []
    else OfKey(asked[..|asked| - 1], key) + if asked[|asked| - 1].key == key then [asked[|asked| - 1]] else []
  }

  function CallsOf(log: seq<Call>, key: string): seq<Call> {
    if log == [] then []
    else CallsOf(log[..|log| - 1], key) + if log[|log| - 1].key == key then [log[|log| - 1]] else []
  }

  function Answer(window: real, log: seq<Call>, r: Request): Call {
    Call(r.key, r.at, Decides(window, log, r))
  }

  lemma ReplayPush(window: real, asked: seq<Request>, r: Request)
    ensures Replay(window, asked + [r]) == Replay(window, asked) + [Answer(window, Replay(window, asked), r)]
  {
    var all := asked + [r];
    assert all[..|all| - 1] == asked;
  }

  lemma OfKeyPush(asked: seq<Request>, r: Request, key: string)
    ensures OfKey(asked + [r], key) == if r.key == key then OfKey(asked, key) + [r] else OfKey(asked, key)
  {
    var all := asked + [r];
    assert all[..|all| - 1] == asked;
  }

  lemma LogPush(log: seq<Call>, c: Call, key: string)
    ensures CallsOf(log + [c], key) == if c.key == key then CallsOf(log, key) + [c] else CallsOf(log, key)
    ensures AllowedTimes(log + [c], key) == AllowedTimes(log, key) + if c.key == key && c.allowed then [c.at] else []
  {
    var all := log + [c];
    assert all[..|all| - 1] == log;
  }

  lemma SameAnswer(window: real, log: seq<Call>, log': seq<Call>, r: Request)
    requires AllowedTimes(log, r.key) == AllowedTimes(log', r.key)
    ensures Answer(window, log, r) == Answer(window, log', r) && Answer(window, log, r).key == r.key
  {
  }

  /** Leaving out every request of the other keys changes no answer of this one. */
  lemma {:induction false} KeysAreIndependent(window: real, asked: seq<Request>, key: string)
    ensures CallsOf(Replay(window, asked), key) == Replay(window, OfKey(asked, key))
    ensures AllowedTimes(Replay(window, asked), key) == AllowedTimes(Replay(window, OfKey(asked, key)), key)
  {
    if asked != [] {
      hide *;
      var r, rest := asked[|asked| - 1], asked[..|asked| - 1];
      KeysAreIndependent(window, rest, key);
      assert rest + [r] == asked;
      var log, mine := Replay(window, rest), OfKey(rest, key);
      ReplayPush(window, rest, r);
      OfKeyPush(rest, r, key);
      LogPush(log, Answer(window, log, r), key);
      SameAnswer(window, log, log, r);
      if r.key == key {
        SameAnswer(window, log, Replay(window, mine), r);
        ReplayPush(window, mine, r);
        LogPush(Replay(window, mine), Answer(window, Replay(window, mine), r), key);
      } else {
        assert AllowedTimes(log, key) + [] == AllowedTimes(log, key);
      }
    }
  }

  // ----- the object -----

  /** The latest moment anybody asked. */
  function LastAt(asked: seq<Request>): real
    requires asked != []
  {
    asked[|asked| - 1].at
  }

  /** q holds the times that still count: only ones older than the window are missing, at
      the front. */
  ghost predicate Kept(times: seq<real>, q: seq<real>, window: real, now: real) {
    exists d: nat :: KeptFrom(times, q, window, now, d)
  }

  ghost predicate KeptFrom(times: seq<real>, q: seq<real>, window: real, now: real, d: nat) {
    d <= |times| && q == times[d..] && forall i :: 0 <= i < d ==> now - times[i] > window
  }

  function Queue(hits: map<string, seq<real>>, key: string): seq<real> {
    if key in hits then hits[key] else []
  }

  /** Every queue is what still counts of its key's history. */
  ghost predicate Tracks(hits: map<string, seq<real>>, log: seq<Call>, window: real, now: real) {
    forall key :: Kept(AllowedTimes(log, key), Queue(hits, key), window, now)
  }

  lemma {:induction false} TimesOrdered(window: real, asked: seq<Request>, key: string)
    requires Chronological(asked)
    ensures Ordered(AllowedTimes(Replay(window, asked), key))
  {
    if asked != [] {
      var r, rest := asked[|asked| - 1], asked[..|asked| - 1];
      TimesOrdered(window, rest, key);
      AllowedBefore(window, rest, key, r.at);
      LogUnfold(window, asked, key);
    }
  }

  lemma {:induction false} WithinAll(times: seq<real>, from: real, end: real)
    requires forall i :: 0 <= i < |times| ==> from <= times[i] <= end
    ensures Within(times, from, end) == times
  {
    if times != [] {
      WithinAll(times[..|times| - 1], from, end);
      assert times[..|times| - 1] + [times[|times| - 1]] == times;
    }
  }

  lemma {:induction false} WithinNone(times: seq<real>, from: real, end: real)
    requires forall i :: 0 <= i < |times| ==> times[i] < from
    ensures Within(times, from, end) == []
  {
    if times != [] { WithinNone(times[..|times| - 1], from, end); }
  }

  lemma {:induction false} WithinJoin(a: seq<real>, b: seq<real>, from: real, end: real)
    ensures Within(a + b, from, end) == Within(a, from, end) + Within(b, from, end)
  {
    assert Within([], from, end) == [];
    hide Within;
    if b == [] {
      assert a + b == a && Within(a, from, end) + [] == Within(a, from, end);
    } else {
      var b', t := b[..|b| - 1], b[|b| - 1];
      WithinJoin(a, b', from, end);
      assert a + b == (a + b') + [t] && b == b' + [t];
      WithinPush(a + b', t, from, end);
      WithinPush(b', t, from, end);
    }
  }

  /** With the old hits gone from its front the queue is exactly the window. */
  lemma QueueIsWindow(times: seq<real>, q: seq<real>, window: real, now: real, d: nat)
    requires KeptFrom(times, q, window, now, d) && Ordered(times)
    requires forall i :: 0 <= i < |times| ==> times[i] <= now
    requires q == [] || now - q[0] <= window
    ensures Within(times, now - window, now) == q
  {
    hide Within;
    assert times == times[..d] + q;
    WithinJoin(times[..d], q, now - window, now);
    WithinNone(times[..d], now - window, now);
    KeptInside(times, q, window, now, d);
    WithinAll(q, now - window, now);
    assert [] + q == q;
  }

  lemma KeptInside(times: seq<real>, q: seq<real>, window: real, now: real, d: nat)
    requires KeptFrom(times, q, window, now, d) && Ordered(times)
    requires forall i :: 0 <= i < |times| ==> times[i] <= now
    requires q == [] || now - q[0] <= window
    ensures forall i :: 0 <= i < |q| ==> now - window <= q[i] <= now
  {
    forall i | 0 <= i < |q| ensures now - window <= q[i] <= now {
      assert q[i] == times[d + i] && q[0] == times[d];
    }
  }

  lemma KeptLater(times: seq<real>, q: seq<real>, window: real, now: real, later: real)
    requires Kept(times, q, window, now) && now <= later
    ensures Kept(times, q, window, later)
  {
    var d: nat :| KeptFrom(times, q, window, now, d);
    assert KeptFrom(times, q, window, later, d);
  }

  /** What one call leaves behind, for every key. */
  lemma TracksOn(hits: map<string, seq<real>>, log: seq<Call>, window: real, now: real,
                 hits': map<string, seq<real>>, c: Call, d: nat, q: seq<real>)
    requires Tracks(hits, log, window, now) && now <= c.at
    requires KeptFrom(AllowedTimes(log, c.key), q, window, c.at, d)
    requires Queue(hits', c.key) == if c.allowed then q + [c.at] else q
    requires forall key :: key != c.key ==> Queue(hits', key) == Queue(hits, key)
    ensures Tracks(hits', log + [c], window, c.at)
  {
    hide AllowedTimes, Queue, Kept, KeptFrom;
    forall key ensures Kept(AllowedTimes(log + [c], key), Queue(hits', key), window, c.at) {
      LogPush(log, c, key);
      if key == c.key {
        KeptGrows(AllowedTimes(log, key), q, window, c.at, d, c.allowed);
      } else {
        assert AllowedTimes(log, key) + [] == AllowedTimes(log, key);
        KeptLater(AllowedTimes(log, key), Queue(hits, key), window, now, c.at);
      }
    }
  }

  lemma KeptGrows(times: seq<real>, q: seq<real>, window: real, now: real, d: nat, allowed: bool)
    requires KeptFrom(times, q, window, now, d)
    ensures Kept(times + if allowed then [now] else [], if allowed then q + [now] else q, window, now)
  {
    var times' := times + if allowed then [now] else [];
    var q' := if allowed then q + [now] else q;
    assert KeptFrom(times', q', window, now, d);
  }

  /** The length test on the queue answers the question about the history. */
  lemma AnswerIs(window: real, asked: seq<Request>, r: Request, q: seq<real>, d: nat)
    requires Chronological(asked) && (asked != [] ==> LastAt(asked) <= r.at)
    requires KeptFrom(AllowedTimes(Replay(window, asked), r.key), q, window, r.at, d)
    requires q == [] || r.at - q[0] <= window
    ensures Decides(window, Replay(window, asked), r) <==> |q| < r.limit
  {
    hide AllowedTimes, Replay, KeptFrom;
    var times := AllowedTimes(Replay(window, asked), r.key);
    TimesOrdered(window, asked, r.key);
    AllowedBefore(window, asked, r.key, r.at);
    QueueIsWindow(times, q, window, r.at, d);
  }

  lemma TracksThis(hits: map<string, seq<real>>, log: seq<Call>, window: real, before: real, now: real, key: string)
    requires Tracks(hits, log, window, before) && before <= now
    ensures Kept(AllowedTimes(log, key), Queue(hits, key), window, now)
  {
    KeptLater(AllowedTimes(log, key), Queue(hits, key), window, before, now);
  }

  // ----- what the table holds -----

  function KeysAsked(asked: seq<Request>): set<string> {
    if asked == [] then {} else KeysAsked(asked[..|asked| - 1]) + {asked[|asked| - 1].key}
  }

  /** The key was asked about, and the last time under a positive limit. */
  predicate LastPositive(asked: seq<Request>, key: string) {
    if asked == [] then false
    else if asked[|asked| - 1].key == key then asked[|asked| - 1].limit > 0
    else LastPositive(asked[..|asked| - 1], key)
  }

  predicate PositiveLimits(asked: seq<Request>) {
    forall i :: 0 <= i < |asked| ==> asked[i].limit > 0
  }

  function Idle(hits: map<string, seq<real>>): set<string> {
    set key | key in hits && hits[key] == []
  }

  const BUSY: nat := 10000
  const MOST_DROPPED: nat := 5000

  /** How many of the idle keys a sweep takes out of a table of this size. */
  function Dropped(size: nat, idle: nat): nat {
    if size <= BUSY then 0 else if idle < MOST_DROPPED then idle else MOST_DROPPED
  }

  lemma DroppedIs(size: nat, idle: nat)
    ensures Dropped(size, idle) == if size <= 10000 then 0 else if idle <= 5000 then idle else 5000
  {
  }

  /** No key was invented, and one last asked about under a positive limit has hits. */
  ghost predicate Remembers(hits: map<string, seq<real>>, asked: seq<Request>) {
    && hits.Keys <= KeysAsked(asked)
    && forall key :: LastPositive(asked, key) ==> Queue(hits, key) != []
  }

  /** What one call does to the table. The key is in it, and when the call is allowed the
      sweep takes as many of the other keys' empty queues as it may; nothing else changes. */
  ghost predicate TableStep(hits: map<string, seq<real>>, hits': map<string, seq<real>>, key: string, ok: bool) {
    && hits'.Keys <= hits.Keys + {key}
    && hits.Keys + {key} - hits'.Keys <= Idle(hits) - {key}
    && (forall k :: k != key ==> Queue(hits', k) == Queue(hits, k))
    && |hits.Keys + {key}| - |hits'| == if ok then Dropped(|hits.Keys + {key}|, |Idle(hits) - {key}|) else 0
  }

  lemma WithKey(hits: map<string, seq<real>>, key: string, q: seq<real>)
    ensures hits[key := q].Keys == hits.Keys + {key} && |hits[key := q]| == |hits.Keys + {key}|
    ensures q != [] ==> Idle(hits[key := q]) == Idle(hits) - {key}
    ensures Queue(hits[key := q], key) == q
    ensures forall k :: k != key ==> Queue(hits[key := q], k) == Queue(hits, k)
  {
    assert |hits[key := q]| == |hits[key := q].Keys|;
  }

  /** Dropping empty queues changes none that anybody can observe. */
  lemma WithoutIdle(hits: map<string, seq<real>>, gone: set<string>)
    requires gone <= Idle(hits)
    ensures (hits - gone).Keys == hits.Keys - gone && |hits - gone| == |hits| - |gone|
    ensures forall k :: Queue(hits - gone, k) == Queue(hits, k)
  {
    assert (hits - gone).Keys == hits.Keys - gone;
    assert |hits.Keys - gone| + |gone| == |hits.Keys| == |hits|;
    assert |hits - gone| == |(hits - gone).Keys|;
  }

  lemma TableStepIs(hits: map<string, seq<real>>, key: string, q: seq<real>, gone: set<string>, ok: bool)
    requires gone <= Idle(hits[key := q]) && (ok ==> q != []) && (!ok ==> gone == {})
    requires ok ==> |gone| == Dropped(|hits[key := q]|, |Idle(hits[key := q])|)
    ensures TableStep(hits, hits[key := q] - gone, key, ok)
    ensures Queue(hits[key := q] - gone, key) == q
    ensures forall k :: k != key ==> Queue(hits[key := q] - gone, k) == Queue(hits, k)
  {
    hide Dropped, Queue, Idle;
    WithKey(hits, key, q);
    WithoutIdle(hits[key := q], gone);
  }

  lemma RememberMore(hits: map<string, seq<real>>, asked: seq<Request>, r: Request, hits': map<string, seq<real>>, ok: bool)
    requires Remembers(hits, asked) && TableStep(hits, hits', r.key, ok)
    requires r.limit > 0 ==> Queue(hits', r.key) != []
    ensures Remembers(hits', asked + [r])
  {
    assert (asked + [r])[..|asked|] == asked;
  }

  lemma {:induction false} PositiveThroughout(asked: seq<Request>)
    requires PositiveLimits(asked)
    ensures forall key :: LastPositive(asked, key) <==> key in KeysAsked(asked)
  {
    if asked != [] { PositiveThroughout(asked[..|asked| - 1]); }
  }

  /** A queue can only be empty when its key was last asked about under a non-positive limit.
      So under positive limits there is nothing to sweep, and the table holds every key ever
      asked about, however long ago. Valid() carries the premise through every run of calls. */
  lemma TableIsKeysAsked(hits: map<string, seq<real>>, asked: seq<Request>)
    requires Remembers(hits, asked)
    ensures forall key :: key in Idle(hits) ==> key in KeysAsked(asked) && !LastPositive(asked, key)
    ensures PositiveLimits(asked) ==> hits.Keys == KeysAsked(asked) && Idle(hits) == {} && |hits| == |KeysAsked(asked)|
  {
    hide LastPositive, KeysAsked;
    if PositiveLimits(asked) {
      PositiveThroughout(asked);
      assert |hits| == |hits.Keys|;
    }
  }

  // ----- one call -----

  /** The table is the one these requests leave. */
  ghost predicate Follows(hits: map<string, seq<real>>, asked: seq<Request>, window: real) {
    && Chronological(asked)
    && (asked != [] ==> Tracks(hits, Replay(window, asked), window, LastAt(asked)))
    && (asked == [] ==> hits == map[])
    && Remembers(hits, asked)
  }

  /** Nothing was asked after `now`. */
  predicate Past(asked: seq<Request>, now: real) {
    asked != [] ==> LastAt(asked) <= now
  }

  lemma TracksNow(hits: map<string, seq<real>>, asked: seq<Request>, window: real, now: real) returns (before: real)
    requires Follows(hits, asked, window) && Past(asked, now)
    ensures before <= now && Tracks(hits, Replay(window, asked), window, before)
  {
    before := if asked == [] then now else LastAt(asked);
    if asked == [] {
      forall key ensures Kept(AllowedTimes(Replay(window, asked), key), Queue(hits, key), window, now) {
        assert KeptFrom(AllowedTimes(Replay(window, asked), key), Queue(hits, key), window, now, 0);
      }
    }
  }

  lemma QueueNow(hits: map<string, seq<real>>, asked: seq<Request>, window: real, key: string, now: real)
    requires Follows(hits, asked, window) && Past(asked, now)
    ensures Kept(AllowedTimes(Replay(window, asked), key), Queue(hits, key), window, now)
  {
    hide *;
    var before := TracksNow(hits, asked, window, now);
    TracksThis(hits, Replay(window, asked), window, before, now, key);
  }

  lemma StillChronological(asked: seq<Request>, r: Request)
    requires Chronological(asked) && Past(asked, r.at)
    ensures Chronological(asked + [r])
  {
    forall i | 0 <= i < |asked| ensures asked[i].at <= r.at {
      assert asked[i].at <= asked[|asked| - 1].at;
    }
  }

  lemma FollowsOn(hits: map<string, seq<real>>, asked: seq<Request>, window: real)
    requires asked != [] && Chronological(asked) && Remembers(hits, asked)
    requires Tracks(hits, Replay(window, asked), window, LastAt(asked))
    ensures Follows(hits, asked, window)
  {
  }

  /** What a call answers and leaves behind, once the old hits are gone from the front of the
      key's queue and the queue has been tested. */
  lemma CallMade(hits: map<string, seq<real>>, asked: seq<Request>, window: real, r: Request,
                 q: seq<real>, d: nat, ok: bool, q': seq<real>, gone: set<string>)
    requires Follows(hits, asked, window) && Past(asked, r.at)
    requires KeptFrom(AllowedTimes(Replay(window, asked), r.key), q, window, r.at, d) && (q == [] || r.at - q[0] <= window)
    requires ok == (|q| < r.limit) && q' == (if ok then q + [r.at] else q)
    requires gone <= Idle(hits[r.key := q']) && (!ok ==> gone == {})
    requires ok ==> |gone| == Dropped(|hits[r.key := q']|, |Idle(hits[r.key := q'])|)
    ensures ok == Decides(window, Replay(window, asked), r)
    ensures TableStep(hits, hits[r.key := q'] - gone, r.key, ok)
    ensures Follows(hits[r.key := q'] - gone, asked + [r], window)
  {
    var hits', log := hits[r.key := q'] - gone, Replay(window, asked);
    assert Chronological(asked) && Remembers(hits, asked);
    assert r.limit > 0 ==> q' != [];
    var all := asked + [r];
    assert LastAt(all) == r.at;
    hide *;
    AnswerIs(window, asked, r, q, d);
    TableStepIs(hits, r.key, q', gone, ok);
    var before := TracksNow(hits, asked, window, r.at);
    TracksOn(hits, log, window, before, hits', Call(r.key, r.at, ok), d, q);
    RememberMore(hits, asked, r, hits', ok);
    AnswerPush(window, asked, r, ok);
    StillChronological(asked, r);
    FollowsOn(hits', all, window);
  }

  lemma AnswerPush(window: real, asked: seq<Request>, r: Request, ok: bool)
    requires ok == Decides(window, Replay(window, asked), r)
    ensures Replay(window, asked + [r]) == Replay(window, asked) + [Call(r.key, r.at, ok)]
  {
    ReplayPush(window, asked, r);
  }

  datatype Limit = Default | Override(n: int)

  class RateLimiter {
    const limit: int
    const window: real
    var hits: map<string, seq<real>>
    ghost var asked: seq<Request>

    ghost predicate Valid()
      reads this
    {
      Follows(hits, asked, window)
    }

    constructor (limit: int, window: real)
      ensures Valid() && asked == [] && this.limit == limit && this.window == window
    {
      this.limit, this.window := limit, window;
      hits, asked := map[], [];
    }

    /** Dropping what is older than the window from the front of one queue. */
    method Popped(key: string, now: real, ghost times: seq<real>) returns (q: seq<real>, ghost d: nat)
      requires Kept(times, Queue(hits, key), window, now)
      ensures KeptFrom(times, q, window, now, d) && (q == [] || now - q[0] <= window)
    {
      q := Queue(hits, key);
      d :| KeptFrom(times, q, window, now, d);
      while q != [] && now - q[0] > window
        invariant KeptFrom(times, q, window, now, d)
        decreases |q|
      {
        assert times[d..][1..] == times[d + 1..];
        q, d := q[1..], d + 1;
      }
    }

    /** In a table of more than 10000 keys, up to 5000 of the empty queues are dropped. */
    method Sweep() returns (ghost gone: set<string>)
      modifies this`hits
      ensures gone <= old(Idle(hits)) && hits == old(hits) - gone
      ensures |gone| == old(Dropped(|hits|, |Idle(hits)|))
      ensures gone != {} <==> old(|hits| > BUSY && Idle(hits) != {})
    {
      gone := {};
      assert hits - gone == hits;
      if |hits| <= BUSY { return; }
      var idle := Idle(hits);
      var n := 0;
      while idle != {} && n < MOST_DROPPED
        invariant n == |gone| <= MOST_DROPPED && gone <= old(Idle(hits)) && hits == old(hits) - gone
        invariant idle == old(Idle(hits)) - gone && |idle| + |gone| == |old(Idle(hits))|
      {
        var key :| key in idle;
        hits := hits - {key};
        idle := idle - {key};
        gone := gone + {key};
        n := n + 1;
      }
    }

    /** allow(): with the limiter on, the answer is the one the history of requests alone
        determines. A denied call adds at most its key to the table; an allowed one drops as
        many of the other keys' empty queues as the sweep takes. */
    method Allow(key: string, lim: Limit, now: real) returns (ok: bool)
      requires Valid() && Past(asked, now)
      modifies this
      ensures Valid()
      ensures limit <= 0 ==> ok && asked == old(asked) && hits == old(hits)
      ensures limit > 0 ==> asked == old(asked) + [Request(key, if lim.Default? then limit else lim.n, now)]
      ensures limit > 0 ==> ok == Decides(window, Replay(window, old(asked)), asked[|asked| - 1])
      ensures limit > 0 ==> TableStep(old(hits), hits, key, ok)
    {
      hide Follows, Past, Replay, AllowedTimes, Kept, KeptFrom, Decides, Queue, TableStep, Idle, Dropped;
      var most := if lim.Default? then limit else lim.n;
      if limit <= 0 { return true; }
      QueueNow(hits, asked, window, key, now);
      var q;
      ghost var d;
      q, d := Popped(key, now, AllowedTimes(Replay(window, asked), key));
      ok := |q| < most;
      var q' := if ok then q + [now] else q;
      ghost var was, r, gone := hits, Request(key, most, now), {};
      hits := hits[key := q'];
      assert hits - gone == hits;
      if ok { gone := Sweep(); }
      CallMade(was, asked, window, r, q, d, ok, q', gone);
      asked := asked + [r];
    }
  }

  function Moment(gap: real, i: nat): real {
    i as real * gap
  }

  lemma MomentsRise(gap: real, i: nat)
    requires gap >= 0.0
    ensures Moment(gap, i) <= Moment(gap, i + 1)
  {
  }

  /** n callers, each asking once, `gap` after the one before it. */
  function Callers(limit: int, gap: real, n: nat): seq<Request> {
    if n == 0 then [] else Callers(limit, gap, n - 1) + [Request(seq(n - 1, _ => 'a'), limit, Moment(gap, n - 1))]
  }

  lemma {:induction false} CallersDiffer(limit: int, gap: real, n: nat)
    requires limit > 0
    ensures |Callers(limit, gap, n)| == n && PositiveLimits(Callers(limit, gap, n))
    ensures |KeysAsked(Callers(limit, gap, n))| == n
    ensures forall key :: key in KeysAsked(Callers(limit, gap, n)) ==> |key| < n
  {
    if n > 0 {
      CallersDiffer(limit, gap, n - 1);
      var rest, all := Callers(limit, gap, n - 1), Callers(limit, gap, n);
      assert all[..n - 1] == rest;
      assert KeysAsked(all) == KeysAsked(rest) + {all[n - 1].key};
    }
  }

  /** Where bounding memory fails: n callers leave n entries behind, however large n is and
      however long after one another they came. */
  method Crowd(limit: int, window: real, gap: real, n: nat) returns (r: RateLimiter)
    requires limit > 0 && gap >= 0.0
    ensures fresh(r) && r.Valid() && r.limit == limit && r.window == window
    ensures r.asked == Callers(limit, gap, n)
    ensures |r.hits| == n
  {
    hide Moment, Replay, Tracks, Decides, TableStep, LastPositive, Remembers, Chronological, KeysAsked;
    r := new RateLimiter(limit, window);
    for i := 0 to n
      invariant fresh(r) && r.Valid() && r.window == window && r.limit == limit
      invariant r.asked == Callers(limit, gap, i)
    {
      if i > 0 { MomentsRise(gap, i - 1); }
      var _ := r.Allow(seq(i, _ => 'a'), Default, Moment(gap, i));
    }
    CallersDiffer(limit, gap, n);
    TableIsKeysAsked(r.hits, r.asked);
  }
}
