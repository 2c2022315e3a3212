/**
 The table of verified builds of web/server.py: loading and forgetting releases, and the
 release a digest is named after.
 */
module BuildTable {
  import opened Releases

  datatype Build = Build(sha256: string, filename: string, target: string, march: string)

  datatype Row = Row(rank: string, url: string, build: Build, addedAt: string)

  datatype Key = Key(sha256: string, release: string)

  type Table = map<Key, Row>

  // ----- the manifest -----

  predicate DistinctDigests(builds: seq<Build>) {
    forall i, j :: 0 <= i < j < |builds| ==> builds[i].sha256 != builds[j].sha256
  }

  function Digests(builds: seq<Build>): set<string> {
    set i | 0 <= i < |builds| :: builds[i].sha256
  }

  lemma DigestsPush(builds: seq<Build>, b: Build)
    ensures Digests(builds + [b]) == Digests(builds) + {b.sha256}
  {
    var all := builds + [b];
    forall d | d in Digests(builds) ensures d in Digests(all) {
      var i :| 0 <= i < |builds| && builds[i].sha256 == d;
      assert all[i] == builds[i];
    }
    assert all[|builds|] == b;
  }

  /** Of several entries with one digest only the first. */
  function FirstOnly(entries: seq<Build>): seq<Build> {
    if entries == [] then []
    else
      var rest, last := entries[..|entries| - 1], entries[|entries| - 1];
      FirstOnly(rest) + if last.sha256 in Digests(rest) then [] else [last]
  }

  /** Every digest once. */
  lemma {:induction false} FirstOnlyKeepsDigests(entries: seq<Build>)
    ensures Digests(FirstOnly(entries)) == Digests(entries)
    ensures DistinctDigests(FirstOnly(entries))
  {
    if entries != [] {
      var rest, last := entries[..|entries| - 1], entries[|entries| - 1];
      FirstOnlyKeepsDigests(rest);
      DigestsPush(rest, last);
      DigestsPush(FirstOnly(rest), last);
      assert rest + [last] == entries;
      if last.sha256 in Digests(rest) {
        assert FirstOnly(entries) == FirstOnly(rest);
      }
    }
  }

  predicate FirstOfItsDigest(entries: seq<Build>, i: nat)
    requires i < |entries|
  {
    forall j :: 0 <= j < i ==> entries[j].sha256 != entries[i].sha256
  }

  lemma FirstInFront(entries: seq<Build>, i: nat)
    requires i < |entries| - 1
    ensures entries[..|entries| - 1][i] == entries[i]
    ensures FirstOfItsDigest(entries[..|entries| - 1], i) <==> FirstOfItsDigest(entries, i)
  {
  }

  lemma LastIsFirst(entries: seq<Build>)
    requires entries != []
    ensures FirstOfItsDigest(entries, |entries| - 1) <==> entries[|entries| - 1].sha256 !in Digests(entries[..|entries| - 1])
  {
  }

  /** An entry with no other of its digest before it is kept. */
  lemma {:induction false} FirstIsKept(entries: seq<Build>, i: nat)
    requires i < |entries| && FirstOfItsDigest(entries, i)
    ensures entries[i] in FirstOnly(entries)
  {
    hide Digests, FirstOfItsDigest;
    LastIsFirst(entries);
    if i < |entries| - 1 {
      FirstInFront(entries, i);
      FirstIsKept(entries[..|entries| - 1], i);
    }
  }

  /** And nothing else is. */
  lemma {:induction false} KeptIsFirst(entries: seq<Build>, b: Build) returns (i: nat)
    requires b in FirstOnly(entries)
    ensures i < |entries| && entries[i] == b && FirstOfItsDigest(entries, i)
  {
    hide Digests, FirstOfItsDigest;
    var rest := entries[..|entries| - 1];
    LastIsFirst(entries);
    if b in FirstOnly(rest) {
      i := KeptIsFirst(rest, b);
      FirstInFront(entries, i);
    } else {
      i := |rest|;
    }
  }

  /** The loop of parse_builds_manifest(). */
  method DistinctBuilds(entries: seq<Build>) returns (out: seq<Build>)
    ensures out == FirstOnly(entries)
  {
    out := [];
    var seen: set<string> := {};
    for i := 0 to |entries|
      invariant seen == Digests(entries[..i]) && out == FirstOnly(entries[..i])
    {
      assert entries[..i + 1][..i] == entries[..i] && entries[..i + 1] == entries[..i] + [entries[i]];
      DigestsPush(entries[..i], entries[i]);
      if entries[i].sha256 !in seen {
        seen := seen + {entries[i].sha256};
        out := out + [entries[i]];
      }
    }
    assert entries[..|entries|] == entries;
  }

  // ----- what loading and forgetting do -----

  function Without(rows: Table, release: string): Table {
    map k | k in rows && k.release != release :: rows[k]
  }

  /** INSERT OR REPLACE of a list of builds of one release. */
  function Inserted(rows: Table, release: string, url: string, builds: seq<Build>, now: string): Table {
    if builds == [] then rows
    else
      var last := builds[|builds| - 1];
      Inserted(rows, release, url, builds[..|builds| - 1], now)[Key(last.sha256, release) := Row(Rank(release), url, last, now)]
  }

  function Loaded(rows: Table, release: string, url: string, builds: seq<Build>, now: string): Table {
    Inserted(Without(rows, release), release, url, builds, now)
  }

  /** The row of one of the builds with this digest. */
  predicate RowOf(row: Row, release: string, url: string, builds: seq<Build>, now: string, sha256: string) {
    row.build in builds && row.build.sha256 == sha256 && row == Row(Rank(release), url, row.build, now)
  }

  lemma {:induction false} InsertedKeys(rows: Table, release: string, url: string, builds: seq<Build>, now: string, k: Key)
    ensures k in Inserted(rows, release, url, builds, now) <==>
            k in rows || (k.release == release && k.sha256 in Digests(builds))
    ensures k in Inserted(rows, release, url, builds, now) ==>
              var row := Inserted(rows, release, url, builds, now)[k];
              if k.release == release && k.sha256 in Digests(builds) then RowOf(row, release, url, builds, now, k.sha256)
              else row == rows[k]
  {
    hide Rank;
    if builds != [] {
      var rest := builds[..|builds| - 1];
      InsertedKeys(rows, release, url, rest, now, k);
      DigestsPush(rest, builds[|builds| - 1]);
      assert rest + [builds[|builds| - 1]] == builds;
    }
  }

  lemma InsertedNone(rows: Table, release: string, url: string, builds: seq<Build>, now: string)
    ensures Inserted(rows, release, url, builds[..0], now) == rows
  {
  }

  lemma InsertedPush(rows: Table, release: string, url: string, builds: seq<Build>, now: string, i: nat)
    requires i < |builds|
    ensures Inserted(rows, release, url, builds[..i + 1], now) ==
            Inserted(rows, release, url, builds[..i], now)[Key(builds[i].sha256, release) := Row(Rank(release), url, builds[i], now)]
  {
    hide Rank;
    assert builds[..i + 1][..i] == builds[..i];
  }

  /** A reload replaces what that release published and touches no other. */
  lemma LoadedIs(rows: Table, release: string, url: string, builds: seq<Build>, now: string, k: Key)
    ensures k in Loaded(rows, release, url, builds, now) <==>
            if k.release == release then k.sha256 in Digests(builds) else k in rows
    ensures k in Loaded(rows, release, url, builds, now) ==>
              var row := Loaded(rows, release, url, builds, now)[k];
              if k.release == release then RowOf(row, release, url, builds, now, k.sha256) else row == rows[k]
  {
    InsertedKeys(Without(rows, release), release, url, builds, now, k);
  }

  predicate HasRow(rows: Table, release: string, url: string, b: Build, now: string) {
    var k := Key(b.sha256, release);
    k in rows && rows[k] == Row(Rank(release), url, b, now)
  }

  /** From a manifest in which every digest stands once, each build gets its own row. */
  lemma LoadedRows(rows: Table, release: string, url: string, builds: seq<Build>, now: string, i: nat)
    requires DistinctDigests(builds) && i < |builds|
    ensures HasRow(Loaded(rows, release, url, builds, now), release, url, builds[i], now)
  {
    hide Loaded, Rank;
    LoadedIs(rows, release, url, builds, now, Key(builds[i].sha256, release));
  }

  // ----- the newest release of a digest -----

  /** The order of the query: by rank, then by when it was added. */
  predicate Outranks(x: Row, y: Row) {
    Below(y.rank, x.rank) || (x.rank == y.rank && Below(y.addedAt, x.addedAt))
  }

  /** Rank first; between equal ranks the one added later. */
  lemma OutranksIs(x: Row, y: Row)
    ensures x.rank != y.rank ==> (Outranks(x, y) <==> Below(y.rank, x.rank))
    ensures x.rank == y.rank ==> (Outranks(x, y) <==> Below(y.addedAt, x.addedAt))
  {
    BelowTotal(x.rank, y.rank);
  }

  /** A row the query may name: no other of that digest comes before it. */
  ghost predicate Newest(rows: Table, sha256: string, release: string) {
    && Key(sha256, release) in rows
    && forall r :: Key(sha256, r) in rows ==> !Outranks(rows[Key(sha256, r)], rows[Key(sha256, release)])
  }

  lemma OutranksStep(x: Row, y: Row, z: Row)
    requires !Outranks(x, y) && Outranks(z, y)
    ensures !Outranks(x, z)
  {
    if Outranks(x, z) {
      BelowTotal(x.rank, y.rank);
      BelowTotal(y.rank, z.rank);
      BelowTotal(z.rank, x.rank);
      BelowTotal(x.addedAt, z.addedAt);
      BelowTotal(z.addedAt, y.addedAt);
      if Below(y.rank, z.rank) && Below(z.rank, x.rank) { BelowTransitive(y.rank, z.rank, x.rank); }
      if Below(y.addedAt, z.addedAt) && Below(z.addedAt, x.addedAt) { BelowTransitive(y.addedAt, z.addedAt, x.addedAt); }
    }
  }

  lemma OutranksNotItself(x: Row)
    ensures !Outranks(x, x)
  {
    BelowItself(x.rank);
    BelowItself(x.addedAt);
  }

  datatype Named = Nothing | Release(tag: string)

  /** ORDER BY release_rank DESC, added_at DESC LIMIT 1, in whatever order the rows come. */
  method NewestFor(rows: Table, sha256: string) returns (best: Named)
    ensures best.Release? ==> Newest(rows, sha256, best.tag)
    ensures best.Nothing? ==> forall r :: Key(sha256, r) !in rows
  {
    hide Outranks;
    best := Nothing;
    var left := set k | k in rows && k.sha256 == sha256;
    while left != {}
      invariant forall k :: k in left ==> k in rows && k.sha256 == sha256
      invariant best.Release? ==> Key(sha256, best.tag) in rows
      invariant forall r :: Key(sha256, r) in rows && Key(sha256, r) !in left ==>
                  best.Release? && !Outranks(rows[Key(sha256, r)], rows[Key(sha256, best.tag)])
    {
      var k :| k in left;
      assert k == Key(sha256, k.release);
      OutranksNotItself(rows[k]);
      if best.Nothing? || Outranks(rows[k], rows[Key(sha256, best.tag)]) {
        if best.Release? {
          forall r | Key(sha256, r) in rows && Key(sha256, r) !in left ensures !Outranks(rows[Key(sha256, r)], rows[k]) {
            OutranksStep(rows[Key(sha256, r)], rows[Key(sha256, best.tag)], rows[k]);
          }
        }
        best := Release(k.release);
      }
      left := left - {k};
    }
  }

  // ----- whole histories -----

  datatype Change =
    | Load(release: string, url: string, builds: seq<Build>, now: string)
    | Forget(release: string)

  function Applied(rows: Table, c: Change): Table {
    if c.Load? then Loaded(rows, c.release, c.url, c.builds, c.now) else Without(rows, c.release)
  }

  function Replay(history: seq<Change>): Table {
    if history == [] then map[] else Applied(Replay(history[..|history| - 1]), history[|history| - 1])
  }

  /** The digests a release publishes: those of its last manifest, unless forgotten since. */
  function Published(history: seq<Change>, release: string): set<string> {
    if history == [] then {}
    else
      var last := history[|history| - 1];
      if last.release != release then Published(history[..|history| - 1], release)
      else if last.Load? then Digests(last.builds) else {}
  }

  /** The table holds exactly what is published, under the release's own rank. */
  lemma {:induction false} TableIsPublished(history: seq<Change>, k: Key)
    ensures k in Replay(history) <==> k.sha256 in Published(history, k.release)
    ensures k in Replay(history) ==> Replay(history)[k].rank == Rank(k.release)
  {
    hide Loaded, Rank;
    if history != [] {
      var rest, last := history[..|history| - 1], history[|history| - 1];
      TableIsPublished(rest, k);
      if last.Load? { LoadedIs(Replay(rest), last.release, last.url, last.builds, last.now, k); }
    }
  }

  /** Different releases of the digest have different ranks. */
  ghost predicate DistinctRanks(history: seq<Change>, sha256: string) {
    forall r, q :: sha256 in Published(history, r) && sha256 in Published(history, q) && r != q ==> Rank(r) != Rank(q)
  }

  /** The release with the highest rank among those that publish the digest. */
  ghost predicate HighestRank(history: seq<Change>, sha256: string, release: string) {
    && sha256 in Published(history, release)
    && forall r :: sha256 in Published(history, r) && r != release ==> Below(Rank(r), Rank(release))
  }

  /** With distinct ranks a digest is named after the highest-ranked release that publishes
      it; when and in which order manifests were loaded, or how often, makes no difference. */
  lemma NewestIsHighestRank(history: seq<Change>, sha256: string, release: string)
    requires DistinctRanks(history, sha256)
    ensures Newest(Replay(history), sha256, release) <==> HighestRank(history, sha256, release)
  {
    hide Published, Replay, Rank, Outranks;
    var rows := Replay(history);
    TableIsPublished(history, Key(sha256, release));
    forall r ensures Key(sha256, r) in rows <==> sha256 in Published(history, r) {
      TableIsPublished(history, Key(sha256, r));
    }
    if Key(sha256, release) in rows {
      forall r | Key(sha256, r) in rows && r != release
        ensures !Outranks(rows[Key(sha256, r)], rows[Key(sha256, release)]) <==> Below(Rank(r), Rank(release))
      {
        TableIsPublished(history, Key(sha256, r));
        DistinctIsBelow(rows[Key(sha256, r)], rows[Key(sha256, release)]);
      }
      OutranksNotItself(rows[Key(sha256, release)]);
    }
  }

  lemma DistinctIsBelow(x: Row, y: Row)
    requires x.rank != y.rank
    ensures !Outranks(x, y) <==> Below(x.rank, y.rank)
  {
    BelowTotal(x.rank, y.rank);
  }

  lemma OneHighestRank(history: seq<Change>, sha256: string, r: string, q: string)
    requires HighestRank(history, sha256, r) && HighestRank(history, sha256, q)
    ensures r == q
  {
    if r != q { BelowTotal(Rank(r), Rank(q)); }
  }

  /** So two histories that leave the same manifests in force name every digest alike: a
      newest release of the one is the newest of the other, and there is no second. */
  lemma LoadOrderDoesNotMatter(history: seq<Change>, other: seq<Change>, sha256: string, r: string, q: string)
    requires DistinctRanks(history, sha256) && forall r :: Published(history, r) == Published(other, r)
    ensures Newest(Replay(history), sha256, r) <==> Newest(Replay(other), sha256, r)
    ensures Newest(Replay(history), sha256, r) && Newest(Replay(other), sha256, q) ==> r == q
  {
    hide Replay, Newest, Rank;
    NewestIsHighestRank(history, sha256, r);
    NewestIsHighestRank(other, sha256, r);
    NewestIsHighestRank(other, sha256, q);
    if Newest(Replay(history), sha256, r) && Newest(Replay(other), sha256, q) { OneHighestRank(other, sha256, q, r); }
  }

  /** Forgetting a release exposes the next newest: the highest rank among the others. */
  lemma ForgettingExposesTheNext(history: seq<Change>, gone: string, sha256: string, release: string)
    requires DistinctRanks(history, sha256)
    ensures Newest(Replay(history + [Forget(gone)]), sha256, release) <==>
            release != gone && sha256 in Published(history, release)
            && forall r :: sha256 in Published(history, r) && r != release && r != gone ==> Below(Rank(r), Rank(release))
  {
    var after := history + [Forget(gone)];
    forall r ensures Published(after, r) == if r == gone then {} else Published(history, r) {
      assert after[..|after| - 1] == history;
    }
    NewestIsHighestRank(after, sha256, release);
  }

  // ----- the object -----

  class Store {
    var rows: Table
    ghost var history: seq<Change>

    ghost predicate Valid()
      reads this
    {
      rows == Replay(history)
    }

    constructor ()
      ensures Valid() && history == []
    {
      rows, history := map[], [];
    }

    /** add_verified_builds(): the manifest's entries, duplicates and all. */
    method AddVerifiedBuilds(release: string, url: string, entries: seq<Build>, now: string) returns (count: nat)
      requires Valid()
      modifies this
      ensures Valid() && history == old(history) + [Load(release, url, FirstOnly(entries), now)]
      ensures count == |FirstOnly(entries)|
      ensures forall i :: 0 <= i < count ==> HasRow(rows, release, url, FirstOnly(entries)[i], now)
    {
      hide Rank, Replay, Inserted, Without, FirstOnly, HasRow, DistinctDigests;
      var builds := DistinctBuilds(entries);
      ghost var start := Without(rows, release);
      rows := Without(rows, release);
      InsertedNone(start, release, url, builds, now);
      for i := 0 to |builds|
        invariant history == old(history)
        invariant rows == Inserted(start, release, url, builds[..i], now)
      {
        InsertedPush(start, release, url, builds, now, i);
        rows := rows[Key(builds[i].sha256, release) := Row(Rank(release), url, builds[i], now)];
      }
      assert builds[..|builds|] == builds;
      FirstOnlyKeepsDigests(entries);
      forall i | 0 <= i < |builds| ensures HasRow(rows, release, url, builds[i], now) {
        LoadedRows(old(rows), release, url, builds, now, i);
      }
      ReplayPush(history, Load(release, url, builds, now));
      history := history + [Load(release, url, builds, now)];
      count := |builds|;
    }

    /** forget_release(): how many rows it took away. */
    method ForgetRelease(release: string) returns (count: nat)
      requires Valid()
      modifies this
      ensures Valid() && history == old(history) + [Forget(release)]
      ensures count == |set k | k in old(rows) && k.release == release|
    {
      count := |set k | k in rows && k.release == release|;
      ReplayPush(history, Forget(release));
      rows := Without(rows, release);
      history := history + [Forget(release)];
    }

    /** The release a board row is labelled with. */
    method ReleaseBuild(sha256: string) returns (best: Named)
      requires Valid()
      ensures best.Release? ==> Newest(Replay(history), sha256, best.tag)
      ensures best.Nothing? ==> forall r :: sha256 !in Published(history, r)
    {
      best := NewestFor(rows, sha256);
      forall r ensures Key(sha256, r) in rows <==> sha256 in Published(history, r) {
        TableIsPublished(history, Key(sha256, r));
      }
    }
  }

  lemma ReplayPush(history: seq<Change>, c: Change)
    ensures Replay(history + [c]) == Applied(Replay(history), c)
  {
    var all := history + [c];
    assert all[..|all| - 1] == history;
  }
}
