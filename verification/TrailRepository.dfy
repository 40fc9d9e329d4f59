/** The trail store: supersede, insert and prune in one transaction, and its reads (repository.py). */
module TrailRepository {
  import opened Common
  import opened TrailModels
  import opened ManagedObjectIds

  const SNAPSHOT_CURRENT := "current"
  const SNAPSHOT_PREVIOUS := "previous"

  datatype TrailRow = TrailRow(trail: Trail, builtAt: int)

  datatype MemberRow = MemberRow(trailId: string, domain: string, managedObjectId: string)

  /** The `trail` table by its primary key. */
  type TrailTable = map<string, TrailRow>

  // ---- The statements of a build ----

  predicate InSnapshot(row: TrailRow, domain: string, snapshotId: string) {
    row.trail.domain == domain && row.trail.snapshotId == snapshotId
  }

  function Supersede(table: TrailTable, domain: string, snapshotId: string): TrailTable {
    map id | id in table && !InSnapshot(table[id], domain, snapshotId) :: table[id]
  }

  /** Member rows exist, are distinct and well-formed: otherwise the insert fails. */
  predicate Storable(t: Trail) {
    t.members != [] && |Elements(t.members)| == |t.members| && forall m :: m in t.members ==> IsValid(m)
  }

  lemma StorableExactly(t: Trail)
    ensures Storable(t) <==> t.members != [] && NoDuplicates(t.members) && forall m :: m in t.members ==> IsValid(m)
  {
    CountMeansDistinct(t.members);
  }

  lemma {:induction false} CountMeansDistinct(xs: seq<string>)
    ensures |Elements(xs)| <= |xs|
    ensures |Elements(xs)| == |xs| <==> NoDuplicates(xs)
  {
    hide NoDuplicates;
    if xs == [] {
      NothingRepeats();
    } else {
      var front, last := xs[..|xs| - 1], xs[|xs| - 1];
      assert xs == front + [last];
      CountMeansDistinct(front);
      ElementsAppend(front, last);
      NoDuplicatesAppend(front, last);
    }
  }

  lemma NothingRepeats()
    ensures NoDuplicates<string>([])
  {
  }

  /** The table after inserting the trails one by one, or None when an insert fails. */
  function InsertAll(table: TrailTable, trails: seq<Trail>, at: int): Option<TrailTable> {
    if trails == [] then Some(table)
    else
      var prior, last := InsertAll(table, trails[..|trails|-1], at), trails[|trails|-1];
      if prior.None? || last.trailId in prior.value || !Storable(last) then None
      else Some(prior.value[last.trailId := TrailRow(last, at)])
  }

  function TrailIds(trails: seq<Trail>): seq<string> {
    seq(|trails|, i requires 0 <= i < |trails| => trails[i].trailId)
  }

  /** A build inserts exactly when its trail ids are distinct and free and every trail is storable; each
      trail then has its row and no other row changes. */
  lemma {:induction false} InsertsExactly(table: TrailTable, trails: seq<Trail>, at: int)
    ensures var ids := TrailIds(trails);
            var fits := NoDuplicates(ids) && Elements(ids) !! table.Keys && forall t :: t in trails ==> Storable(t);
            InsertAll(table, trails, at).Some? <==> fits
    ensures InsertAll(table, trails, at).Some? ==>
              var ids, after := TrailIds(trails), InsertAll(table, trails, at).value;
              && after.Keys == table.Keys + Elements(ids)
              && (forall id :: id in table ==> after[id] == table[id])
              && (forall i :: 0 <= i < |trails| ==> ids[i] in after && after[ids[i]] == TrailRow(trails[i], at))
  {
    hide Storable;
    if trails != [] {
      var front, last := trails[..|trails| - 1], trails[|trails| - 1];
      var ids, prior := TrailIds(trails), TrailIds(front);
      InsertsExactly(table, front, at);
      assert trails == front + [last] && ids == prior + [last.trailId];
      ElementsAppend(prior, last.trailId);
      NoDuplicatesConcat(prior, [last.trailId]);
      assert Elements([last.trailId]) == {last.trailId};
    }
  }

  /** A trail id already taken under another snapshot or domain blocks the whole build. */
  lemma TakenIdBlocksBuild(table: TrailTable, domain: string, snapshotId: string, trails: seq<Trail>, at: int, t: Trail)
    requires t in trails && t.trailId in table && !InSnapshot(table[t.trailId], domain, snapshotId)
    ensures InsertAll(Supersede(table, domain, snapshotId), trails, at).None?
  {
    hide InsertAll;
    InsertsExactly(Supersede(table, domain, snapshotId), trails, at);
    var i :| 0 <= i < |trails| && trails[i] == t;
    assert TrailIds(trails)[i] in Elements(TrailIds(trails));
  }

  function Snapshots(table: TrailTable, domain: string): set<string> {
    set id | id in table && table[id].trail.domain == domain :: table[id].trail.snapshotId
  }

  /** `max(built_at)` of a snapshot's rows. */
  ghost predicate LatestAt(table: TrailTable, domain: string, snapshotId: string, at: int) {
    && (exists id :: id in table && InSnapshot(table[id], domain, snapshotId) && table[id].builtAt == at)
    && (forall id :: id in table && InSnapshot(table[id], domain, snapshotId) ==> table[id].builtAt <= at)
  }

  /** Snapshot `a` was built at least as recently as `b`. */
  ghost predicate NotOlder(table: TrailTable, domain: string, a: string, b: string) {
    forall s, t :: LatestAt(table, domain, a, s) && LatestAt(table, domain, b, t) ==> s >= t
  }

  /** `order` lists the domain's snapshots, most recently built first. */
  ghost predicate NewestFirst(table: TrailTable, domain: string, order: seq<string>) {
    && NoDuplicates(order) && Elements(order) == Snapshots(table, domain)
    && forall i, j :: 0 <= i < j < |order| ==> NotOlder(table, domain, order[i], order[j])
  }

  function Keep(table: TrailTable, domain: string, keep: set<string>): TrailTable {
    map id | id in table && (table[id].trail.domain != domain || table[id].trail.snapshotId in keep) :: table[id]
  }

  function Take(xs: seq<string>, n: nat): seq<string> {
    if |xs| <= n then xs else xs[..n]
  }

  /** A committed build: for some newest-first order (ties are the database's choice) the first
      `retention` snapshots of the domain stay. */
  ghost predicate Built(before: TrailTable, domain: string, snapshotId: string, trails: seq<Trail>, at: int,
                        retention: nat, after: TrailTable) {
    var inserted := InsertAll(Supersede(before, domain, snapshotId), trails, at);
    inserted.Some? &&
    exists order ::
        NewestFirst(inserted.value, domain, order) &&
            after == Keep(inserted.value, domain, Elements(Take(order, retention)))
  }

  class TrailRepository {
    const retention: nat
    var trails: TrailTable
    var members: set<MemberRow>

    /** The member table holds exactly the members of the stored trails. */
    ghost predicate Valid()
      reads this
    {
      && (forall id :: id in trails ==> trails[id].trail.trailId == id)
      && forall m :: m in members <==>
           m.trailId in trails && m.domain == trails[m.trailId].trail.domain &&
               m.managedObjectId in trails[m.trailId].trail.members
    }

    constructor (retentionSnapshots: int)
      ensures Valid() && trails == map[] && retention == if retentionSnapshots < 1 then 1 else retentionSnapshots
    {
      retention := if retentionSnapshots < 1 then 1 else retentionSnapshots;
      trails := map[];
      members := {};
    }

    /** Deleting trails cascades to their members. */
    method DeleteTrails(remaining: TrailTable)
      requires Valid() && forall id :: id in remaining ==> id in trails && remaining[id] == trails[id]
      modifies this`trails, this`members
      ensures Valid() && trails == remaining
    {
      members := set m | m in members && m.trailId in remaining;
      trails := remaining;
    }

    method InsertTrail(t: Trail, now: int) returns (ok: bool)
      requires Valid()
      modifies this`trails, this`members
      ensures ok <==> t.trailId !in old(trails) && Storable(t)
      ensures ok ==> t.members != [] && NoDuplicates(t.members) && forall m :: m in t.members ==> IsValid(m)
      ensures Valid() && trails == if ok then old(trails)[t.trailId := TrailRow(t, now)] else old(trails)
    {
      ok := t.trailId !in trails && Storable(t);
      StorableExactly(t);
      if ok {
        members := members + set m | m in t.members :: MemberRow(t.trailId, t.domain, m);
        trails := trails[t.trailId := TrailRow(t, now)];
      }
    }

    /** One transaction: a failed insert rolls everything back. */
    method PersistBuild(domain: string, snapshotId: string, build: seq<Trail>, now: int) returns (ok: bool)
      requires Valid()
      modifies this`trails, this`members
      ensures Valid()
      ensures ok <==> InsertAll(Supersede(old(trails), domain, snapshotId), build, now).Some?
      ensures ok ==> Built(old(trails), domain, snapshotId, build, now, retention, trails)
      ensures !ok ==> trails == old(trails)
    {
      var trailsBefore, membersBefore := trails, members;
      DeleteTrails(Supersede(trails, domain, snapshotId));
      ghost var superseded := trails;
      for i := 0 to |build|
        invariant Valid()
        invariant InsertAll(superseded, build[..i], now) == Some(trails)
      {
        assert build[..i+1][..i] == build[..i];
        var inserted := InsertTrail(build[i], now);
        if !inserted {
          FailedInsertStays(superseded, build, now, i + 1);
          trails, members := trailsBefore, membersBefore;
          return false;
        }
      }
      assert build[..|build|] == build;
      PruneOldSnapshots(domain);
      ok := true;
    }

    method PruneOldSnapshots(domain: string)
      requires Valid()
      modifies this`trails, this`members
      ensures Valid()
      ensures exists order :: NewestFirst(old(trails), domain, order)
                              && trails == Keep(old(trails), domain, Elements(Take(order, retention)))
    {
      var order := SnapshotsNewestFirst(domain);
      var keep := Elements(Take(order, retention));
      DeleteTrails(Keep(trails, domain, keep));
    }

    /** Group by snapshot, order by `max(built_at)` descending. */
    method SnapshotsNewestFirst(domain: string) returns (order: seq<string>)
      ensures NewestFirst(trails, domain, order)
    {
      order := [];
      var rest := Snapshots(trails, domain);
      while rest != {}
        invariant NoDuplicates(order) && Elements(order) !! rest && Elements(order) + rest == Snapshots(trails, domain)
        invariant forall i, j :: 0 <= i < j < |order| ==> NotOlder(trails, domain, order[i], order[j])
        invariant forall i, x :: 0 <= i < |order| && x in rest ==> NotOlder(trails, domain, order[i], x)
      {
        var newest := NewestOf(trails, domain, rest);
        ElementsAppend(order, newest);
        order := order + [newest];
        rest := rest - {newest};
      }
    }

    method ResolveSnapshotId(token: string, domain: string) returns (r: Option<string>)
      ensures token != SNAPSHOT_CURRENT && token != SNAPSHOT_PREVIOUS ==> r == Some(token)
      ensures token == SNAPSHOT_CURRENT || token == SNAPSHOT_PREVIOUS ==>
                exists order ::
                    NewestFirst(trails, domain, order) && r == At(order, if token == SNAPSHOT_CURRENT then 0 else 1)
    {
      if token != SNAPSHOT_CURRENT && token != SNAPSHOT_PREVIOUS { return Some(token); }
      var order := SnapshotsNewestFirst(domain);
      r := At(order, if token == SNAPSHOT_CURRENT then 0 else 1);
    }

    method TrailIdsForObject(managedObjectId: string, domain: string) returns (ids: seq<string>)
      requires Valid()
      ensures StrictlySorted(ids)
      ensures forall id :: id in ids <==>
                id in trails && trails[id].trail.domain == domain && managedObjectId in trails[id].trail.members
    {
      var rows := set m | m in members && m.domain == domain && m.managedObjectId == managedObjectId;
      var found := set m | m in rows :: m.trailId;
      ids := Sorted(found);
      forall id
          ensures id in ids <==>
            id in trails && trails[id].trail.domain == domain && managedObjectId in trails[id].trail.members {
        assert id in ids <==> id in Elements(ids);
        if id in trails && trails[id].trail.domain == domain && managedObjectId in trails[id].trail.members {
          assert MemberRow(id, domain, managedObjectId) in rows;
        }
      }
    }
  }

  function At(order: seq<string>, index: nat): Option<string> {
    if index < |order| then Some(order[index]) else None
  }

  lemma {:induction false} FailedInsertStays(table: TrailTable, trails: seq<Trail>, at: int, n: nat)
    requires n <= |trails| && InsertAll(table, trails[..n], at).None?
    ensures InsertAll(table, trails, at).None?
    decreases |trails| - n
  {
    if n == |trails| {
      assert trails[..n] == trails;
    } else {
      assert trails[..n+1][..n] == trails[..n];
      FailedInsertStays(table, trails, at, n + 1);
    }
  }

  /** `max(built_at)` over a snapshot's rows. */
  method LatestOf(table: TrailTable, domain: string, snapshotId: string) returns (at: int)
    requires snapshotId in Snapshots(table, domain)
    ensures LatestAt(table, domain, snapshotId, at)
  {
    var rows := set id | id in table && InSnapshot(table[id], domain, snapshotId);
    assert exists id :: id in rows by {
      var id :| id in table && table[id].trail.domain == domain && table[id].trail.snapshotId == snapshotId;
      assert id in rows;
    }
    var first :| first in rows;
    at := table[first].builtAt;
    var rest := rows - {first};
    while rest != {}
      invariant rest <= rows
      invariant exists id :: id in rows && table[id].builtAt == at
      invariant forall id :: id in rows - rest ==> table[id].builtAt <= at
    {
      var id :| id in rest;
      if table[id].builtAt > at { at := table[id].builtAt; }
      rest := rest - {id};
    }
    assert forall id :: id in table && InSnapshot(table[id], domain, snapshotId) ==> id in rows;
  }

  method NewestOf(table: TrailTable, domain: string, among: set<string>) returns (newest: string)
    requires among != {} && among <= Snapshots(table, domain)
    ensures newest in among
    ensures forall x :: x in among ==> NotOlder(table, domain, newest, x)
  {
    newest :| newest in among;
    var best := LatestOf(table, domain, newest);
    var rest := among - {newest};
    while rest != {}
      invariant rest <= among && newest in among && LatestAt(table, domain, newest, best)
      invariant forall x, t :: x in among - rest && LatestAt(table, domain, x, t) ==> best >= t
    {
      var x :| x in rest;
      var at := LatestOf(table, domain, x);
      LatestIsUnique(table, domain, x);
      if at > best { newest, best := x, at; }
      rest := rest - {x};
    }
    LatestIsUnique(table, domain, newest);
  }

  lemma LatestIsUnique(table: TrailTable, domain: string, snapshotId: string)
    ensures forall s, t :: LatestAt(table, domain, snapshotId, s) && LatestAt(table, domain, snapshotId, t) ==> s == t
  {
  }
}
