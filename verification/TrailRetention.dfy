/** The pruned trail store against the full, never-pruned build history. */
module TrailRetention {
  import opened Common
  import opened TrailModels
  import opened TrailRepository

  datatype Build = Build(domain: string, snapshotId: string, trails: seq<Trail>, at: int)

  /** A build as the build service makes it: some trails, all of its own domain and snapshot. */
  ghost predicate Proper(b: Build) {
    b.trails != [] && forall t :: t in b.trails ==> t.domain == b.domain && t.snapshotId == b.snapshotId
  }

  /** Committed builds at strictly increasing times, and the table after each. */
  ghost predicate IsRun(history: seq<Build>, tables: seq<TrailTable>, retention: nat) {
    && |tables| == |history| + 1 && tables[0] == map[]
    && (forall b :: b in history ==> Proper(b))
    && (forall i, j :: 0 <= i < j < |history| ==> history[i].at < history[j].at)
    && (forall i :: 0 <= i < |history| ==>
          Built(tables[i], history[i].domain, history[i].snapshotId, history[i].trails, history[i].at, retention,
              tables[i+1]))
  }

  // ---- The full history, by recency ----

  function Without(builds: seq<Build>, snapshotId: string): seq<Build> {
    if builds == [] then []
    else (if builds[0].snapshotId == snapshotId then [] else [builds[0]]) + Without(builds[1..], snapshotId)
  }

  /** The last build of every snapshot of the domain, newest first; nothing is pruned. */
  function Recency(history: seq<Build>, domain: string): seq<Build> {
    if history == [] then []
    else
      var prior, last := Recency(history[..|history|-1], domain), history[|history|-1];
      if last.domain == domain then [last] + Without(prior, last.snapshotId) else prior
  }

  function First(builds: seq<Build>, n: nat): seq<Build> {
    if |builds| <= n then builds else builds[..n]
  }

  function Ids(builds: seq<Build>): seq<string> {
    seq(|builds|, i requires 0 <= i < |builds| => builds[i].snapshotId)
  }

  /** Snapshots distinct, times strictly falling and below `bound`. */
  ghost predicate Falling(builds: seq<Build>, domain: string, bound: int) {
    && (forall i :: 0 <= i < |builds| ==> builds[i].domain == domain && Proper(builds[i]) && builds[i].at < bound)
    && (forall i, j ::
         0 <= i < j < |builds| ==> builds[i].at > builds[j].at && builds[i].snapshotId != builds[j].snapshotId)
  }

  lemma {:induction false} WithoutKeeps(builds: seq<Build>, snapshotId: string, domain: string, bound: int)
    requires Falling(builds, domain, bound)
    ensures Falling(Without(builds, snapshotId), domain, bound)
    ensures forall b :: b in Without(builds, snapshotId) <==> b in builds && b.snapshotId != snapshotId
  {
    if builds != [] {
      assert builds == [builds[0]] + builds[1..];
      WithoutKeeps(builds[1..], snapshotId, domain, bound);
      var rest, r := Without(builds[1..], snapshotId), Without(builds, snapshotId);
      if builds[0].snapshotId != snapshotId {
        assert r == [builds[0]] + rest;
        forall j | 0 <= j < |rest| ensures builds[0].at > rest[j].at && builds[0].snapshotId != rest[j].snapshotId {
          assert rest[j] in builds[1..];
        }
      }
    }
  }

  /** Pruning before or after the next build makes no difference. */
  lemma {:induction false} FirstOfWithout(builds: seq<Build>, snapshotId: string, n: nat)
    requires forall i, j :: 0 <= i < j < |builds| ==> builds[i].snapshotId != builds[j].snapshotId
    ensures First(Without(First(builds, n + 1), snapshotId), n) == First(Without(builds, snapshotId), n)
  {
    if |builds| > n + 1 {
      if builds[0].snapshotId == snapshotId {
        AbsentWithout(builds[1..], snapshotId);
        AbsentWithout(builds[1..n+1], snapshotId);
        assert First(builds, n + 1)[1..] == builds[1..n+1];
        assert Without(First(builds, n + 1), snapshotId) == builds[1..n+1];
        assert Without(builds, snapshotId) == builds[1..];
      } else if n > 0 {
        FirstOfWithout(builds[1..], snapshotId, n - 1);
        assert First(builds, n + 1)[1..] == First(builds[1..], n);
        var a, b := Without(First(builds[1..], n), snapshotId), Without(builds[1..], snapshotId);
        assert First([builds[0]] + a, n) == [builds[0]] + First(a, n - 1);
        assert First([builds[0]] + b, n) == [builds[0]] + First(b, n - 1);
      }
    }
  }

  lemma {:induction false} AbsentWithout(builds: seq<Build>, snapshotId: string)
    requires forall b :: b in builds ==> b.snapshotId != snapshotId
    ensures Without(builds, snapshotId) == builds
  {
    if builds != [] { AbsentWithout(builds[1..], snapshotId); }
  }

  // ---- Table and list agree ----

  /** The domain's rows are exactly the trails of the listed builds, stamped with their times. */
  ghost predicate Agrees(table: TrailTable, domain: string, builds: seq<Build>) {
    && (forall id :: id in table && table[id].trail.domain == domain ==>
          exists b :: b in builds && table[id].trail in b.trails && table[id].builtAt == b.at)
    && (forall b, t :: b in builds && t in b.trails ==> t.trailId in table && table[t.trailId] == TrailRow(t, b.at))
  }

  lemma {:induction false} InsertedRows(table: TrailTable, trails: seq<Trail>, at: int)
    requires InsertAll(table, trails, at).Some?
    ensures var after := InsertAll(table, trails, at).value;
      && (forall id :: id in table ==> id in after && after[id] == table[id])
      && (forall t :: t in trails ==> t.trailId in after && after[t.trailId] == TrailRow(t, at))
      && (forall id :: id in after && id !in table ==> after[id].trail in trails && after[id].builtAt == at)
  {
    if trails != [] {
      InsertedRows(table, trails[..|trails|-1], at);
      assert trails == trails[..|trails|-1] + [trails[|trails|-1]];
    }
  }

  lemma NextFalls(b: Build, builds: seq<Build>)
    requires Proper(b) && Falling(builds, b.domain, b.at)
    ensures Falling([b] + Without(builds, b.snapshotId), b.domain, b.at + 1)
    ensures forall k :: k in [b] + Without(builds, b.snapshotId) <==>
      k == b || (k in builds && k.snapshotId != b.snapshotId)
  {
    hide Without;
    WithoutKeeps(builds, b.snapshotId, b.domain, b.at);
    var rest := Without(builds, b.snapshotId);
    forall j | 0 <= j < |rest| ensures rest[j].at < b.at && rest[j].snapshotId != b.snapshotId {
      assert rest[j] in rest;
    }
  }

  lemma InsertedAgrees(before: TrailTable, b: Build, builds: seq<Build>, inserted: TrailTable)
    requires Proper(b) && Falling(builds, b.domain, b.at) && Agrees(before, b.domain, builds)
    requires InsertAll(Supersede(before, b.domain, b.snapshotId), b.trails, b.at) == Some(inserted)
    ensures Agrees(inserted, b.domain, [b] + Without(builds, b.snapshotId))
  {
    var superseded, next := Supersede(before, b.domain, b.snapshotId), [b] + Without(builds, b.snapshotId);
    InsertedRows(superseded, b.trails, b.at);
    NextFalls(b, builds);
    hide Without, InsertAll, Falling;
    forall id | id in inserted && inserted[id].trail.domain == b.domain
      ensures exists k :: k in next && inserted[id].trail in k.trails && inserted[id].builtAt == k.at
    {
      if id in superseded {
        var k :| k in builds && before[id].trail in k.trails && before[id].builtAt == k.at;
        BuildIsProper(builds, k, b.domain, b.at);
        assert k in next;
      } else {
        assert b in next;
      }
    }
    forall k, t | k in next && t in k.trails ensures t.trailId in inserted && inserted[t.trailId] == TrailRow(t, k.at) {
      if k != b {
        assert before[t.trailId] == TrailRow(t, k.at);
        BuildIsProper(builds, k, b.domain, b.at);
        assert t.trailId in superseded;
      }
    }
  }

  lemma BuildIsProper(builds: seq<Build>, k: Build, domain: string, bound: int)
    requires Falling(builds, domain, bound) && k in builds
    ensures Proper(k) && k.domain == domain && k.at < bound
  {
  }

  lemma LatestOfBuild(table: TrailTable, domain: string, builds: seq<Build>, bound: int, i: nat)
    requires Agrees(table, domain, builds) && Falling(builds, domain, bound) && i < |builds|
    ensures LatestAt(table, domain, builds[i].snapshotId, builds[i].at)
  {
    var b := builds[i];
    assert b in builds && b.trails[0] in b.trails;
    var first := b.trails[0].trailId;
    assert InSnapshot(table[first], domain, b.snapshotId) && table[first].builtAt == b.at;
    forall id | id in table && InSnapshot(table[id], domain, b.snapshotId) ensures table[id].builtAt <= b.at {
      var k :| k in builds && table[id].trail in k.trails && table[id].builtAt == k.at;
      var j :| 0 <= j < |builds| && builds[j] == k;
      assert Proper(k);
    }
  }

  lemma {:induction false} SameOrder(xs: seq<string>, ys: seq<string>, rank: map<string, int>)
    requires Elements(xs) == Elements(ys) && Elements(ys) <= rank.Keys
    requires forall i, j :: 0 <= i < j < |xs| ==> rank[xs[i]] > rank[xs[j]]
    requires forall i, j :: 0 <= i < j < |ys| ==> rank[ys[i]] > rank[ys[j]]
    ensures xs == ys
    decreases |xs|
  {
    NoElements(xs);
    NoElements(ys);
    if xs != [] && ys != [] {
      assert xs[0] in Elements(ys) && ys[0] in Elements(xs);
      assert xs[0] == ys[0];
      assert Elements(xs[1..]) == Elements(xs) - {xs[0]} by { assert xs == [xs[0]] + xs[1..]; }
      assert Elements(ys[1..]) == Elements(ys) - {ys[0]} by { assert ys == [ys[0]] + ys[1..]; }
      SameOrder(xs[1..], ys[1..], rank);
    }
  }

  lemma NoElements<T>(xs: seq<T>)
    ensures Elements(xs) == {} <==> xs == []
  {
    if xs != [] { assert xs[0] in Elements(xs); }
  }

  lemma {:induction false} Ranks(builds: seq<Build>, domain: string, bound: int) returns (rank: map<string, int>)
    requires Falling(builds, domain, bound)
    ensures forall i :: 0 <= i < |builds| ==> builds[i].snapshotId in rank && rank[builds[i].snapshotId] == builds[i].at
    ensures forall s :: s in rank <==> s in Ids(builds)
  {
    if builds == [] {
      rank := map[];
    } else {
      var front, last := builds[..|builds|-1], builds[|builds|-1];
      var prior := Ranks(front, domain, bound);
      rank := prior[last.snapshotId := last.at];
      assert Ids(builds) == Ids(front) + [last.snapshotId];
      forall i | 0 <= i < |builds| ensures builds[i].snapshotId in rank && rank[builds[i].snapshotId] == builds[i].at {
        if i < |front| { assert builds[i] == front[i]; }
      }
    }
  }

  lemma SnapshotsAreIds(table: TrailTable, domain: string, builds: seq<Build>, bound: int)
    requires Agrees(table, domain, builds) && Falling(builds, domain, bound)
    ensures Snapshots(table, domain) == Elements(Ids(builds))
  {
    var ids := Ids(builds);
    forall s | s in Snapshots(table, domain) ensures s in Elements(ids) {
      var id :| id in table && table[id].trail.domain == domain && table[id].trail.snapshotId == s;
      var k :| k in builds && table[id].trail in k.trails && table[id].builtAt == k.at;
      var j :| 0 <= j < |builds| && builds[j] == k;
      BuildIsProper(builds, k, domain, bound);
      assert ids[j] == s;
    }
    forall s | s in Elements(ids) ensures s in Snapshots(table, domain) {
      var i :| 0 <= i < |ids| && ids[i] == s;
      LatestOfBuild(table, domain, builds, bound, i);
    }
  }

  lemma NotOlderMeansLater(table: TrailTable, domain: string, builds: seq<Build>, bound: int, k: nat, l: nat)
    requires Agrees(table, domain, builds) && Falling(builds, domain, bound) && k < |builds| && l < |builds| && k != l
    requires NotOlder(table, domain, builds[k].snapshotId, builds[l].snapshotId)
    ensures builds[k].at > builds[l].at
  {
    LatestOfBuild(table, domain, builds, bound, k);
    LatestOfBuild(table, domain, builds, bound, l);
  }

  /** The query's order is the list's order. */
  lemma OrderIsRecency(table: TrailTable, domain: string, builds: seq<Build>, bound: int, order: seq<string>)
    requires Agrees(table, domain, builds) && Falling(builds, domain, bound) && NewestFirst(table, domain, order)
    ensures order == Ids(builds)
  {
    var ids := Ids(builds);
    var rank := Ranks(builds, domain, bound);
    SnapshotsAreIds(table, domain, builds, bound);
    assert forall i, j :: 0 <= i < j < |ids| ==> rank[ids[i]] > rank[ids[j]];
    hide Agrees, Falling, NotOlder, Snapshots;
    forall i, j | 0 <= i < j < |order| ensures order[i] in rank && order[j] in rank && rank[order[i]] > rank[order[j]] {
      assert order[i] in Elements(order) && order[j] in Elements(order);
      var k :| 0 <= k < |ids| && ids[k] == order[i];
      var l :| 0 <= l < |ids| && ids[l] == order[j];
      NotOlderMeansLater(table, domain, builds, bound, k, l);
    }
    assert Elements(ids) <= rank.Keys;
    SameOrder(order, ids, rank);
  }

  // ---- The step and the whole run ----

  lemma {:induction false} AgreesKept(table: TrailTable, domain: string, builds: seq<Build>, bound: int, n: nat)
    requires Agrees(table, domain, builds) && Falling(builds, domain, bound)
    ensures Agrees(Keep(table, domain, Elements(Take(Ids(builds), n))), domain, First(builds, n))
  {
    var kept, keep := First(builds, n), Elements(Take(Ids(builds), n));
    var after := Keep(table, domain, keep);
    assert Take(Ids(builds), n) == Ids(kept);
    forall id | id in after && after[id].trail.domain == domain
      ensures exists b :: b in kept && after[id].trail in b.trails && after[id].builtAt == b.at
    {
      var k :| k in builds && table[id].trail in k.trails && table[id].builtAt == k.at;
      var j :| 0 <= j < |builds| && builds[j] == k;
      BuildIsProper(builds, k, domain, bound);
      var i :| 0 <= i < |kept| && Ids(kept)[i] == k.snapshotId;
      assert kept[i] == builds[i];
      if i != j { assert builds[i].snapshotId != builds[j].snapshotId; }
      assert k in kept;
    }
    forall b, t | b in kept && t in b.trails ensures t.trailId in after && after[t.trailId] == TrailRow(t, b.at) {
      var i :| 0 <= i < |kept| && kept[i] == b;
      assert kept[i] == builds[i] && b in builds;
      BuildIsProper(builds, b, domain, bound);
      assert Ids(kept)[i] == b.snapshotId;
    }
  }

  lemma BuiltAgrees(before: TrailTable, b: Build, builds: seq<Build>, retention: nat, after: TrailTable)
    requires Proper(b) && Falling(builds, b.domain, b.at) && Agrees(before, b.domain, builds)
    requires Built(before, b.domain, b.snapshotId, b.trails, b.at, retention, after)
    ensures Agrees(after, b.domain, First([b] + Without(builds, b.snapshotId), retention))
  {
    var next := [b] + Without(builds, b.snapshotId);
    var inserted := InsertAll(Supersede(before, b.domain, b.snapshotId), b.trails, b.at).value;
    var order :| NewestFirst(inserted, b.domain, order) &&
        after == Keep(inserted, b.domain, Elements(Take(order, retention)));
    InsertedAgrees(before, b, builds, inserted);
    NextFalls(b, builds);
    OrderIsRecency(inserted, b.domain, next, b.at + 1, order);
    AgreesKept(inserted, b.domain, next, b.at + 1, retention);
  }

  lemma OtherDomainAgrees(before: TrailTable, b: Build, retention: nat, after: TrailTable, domain: string,
                          builds: seq<Build>, bound: int)
    requires Proper(b) && domain != b.domain && Falling(builds, domain, bound) && Agrees(before, domain, builds)
    requires Built(before, b.domain, b.snapshotId, b.trails, b.at, retention, after)
    ensures Agrees(after, domain, builds)
  {
    var superseded := Supersede(before, b.domain, b.snapshotId);
    var inserted := InsertAll(superseded, b.trails, b.at).value;
    InsertedRows(superseded, b.trails, b.at);
    var order :| NewestFirst(inserted, b.domain, order) &&
        after == Keep(inserted, b.domain, Elements(Take(order, retention)));
    hide InsertAll, NewestFirst;
    forall id | id in after && after[id].trail.domain == domain
      ensures exists k :: k in builds && after[id].trail in k.trails && after[id].builtAt == k.at
    {
      assert id in superseded && before[id] == after[id];
    }
    forall k, t | k in builds && t in k.trails ensures t.trailId in after && after[t.trailId] == TrailRow(t, k.at) {
      assert before[t.trailId] == TrailRow(t, k.at);
      BuildIsProper(builds, k, domain, bound);
    }
  }

  lemma {:induction false} RecencyFalls(history: seq<Build>, domain: string, bound: int)
    requires forall b :: b in history ==> Proper(b) && b.at < bound
    requires forall i, j :: 0 <= i < j < |history| ==> history[i].at < history[j].at
    ensures Falling(Recency(history, domain), domain, bound)
  {
    if history != [] {
      var front, last := history[..|history|-1], history[|history|-1];
      forall b | b in front ensures Proper(b) && b.at < last.at {
        var i :| 0 <= i < |front| && front[i] == b;
        assert history[i] == b;
      }
      RecencyFalls(front, domain, last.at);
      if last.domain == domain { NextFalls(last, Recency(front, domain)); }
      FallingWeakens(Recency(history, domain), domain, last.at + 1, bound);
    }
  }

  lemma FallingWeakens(builds: seq<Build>, domain: string, bound: int, other: int)
    ensures Falling(builds, domain, bound) && bound <= other ==> Falling(builds, domain, other)
    ensures Falling(builds, domain, bound - 1) && bound <= other ==> Falling(builds, domain, other)
  {
  }

  lemma FirstFalls(builds: seq<Build>, domain: string, bound: int, n: nat)
    requires Falling(builds, domain, bound)
    ensures Falling(First(builds, n), domain, bound)
  {
  }

  lemma PruneThenBuild(b: Build, builds: seq<Build>, retention: nat)
    requires retention >= 1 && Falling(builds, b.domain, b.at)
    ensures First([b] + Without(First(builds, retention), b.snapshotId), retention) ==
      First([b] + Without(builds, b.snapshotId), retention)
  {
    FirstOfWithout(builds, b.snapshotId, retention - 1);
    var x, y := Without(First(builds, retention), b.snapshotId), Without(builds, b.snapshotId);
    assert First([b] + x, retention) == [b] + First(x, retention - 1);
    assert First([b] + y, retention) == [b] + First(y, retention - 1);
  }

  /** After every build the store holds, for every domain, exactly the trails of the `retention` most
      recently built snapshots of the full history, each with the trails of its last build. */
  lemma {:induction false} RetentionKeepsTheRecent(history: seq<Build>, tables: seq<TrailTable>, retention: nat, n: nat,
                                                   domain: string)
    requires IsRun(history, tables, retention) && retention >= 1 && n <= |history|
    ensures Agrees(tables[n], domain, First(Recency(history[..n], domain), retention))
    decreases n
  {
    if n > 0 {
      var b, prior := history[n-1], Recency(history[..n-1], domain);
      RetentionKeepsTheRecent(history, tables, retention, n - 1, domain);
      assert history[..n][..n-1] == history[..n-1];
      RecencyFalls(history[..n-1], domain, b.at);
      FirstFalls(prior, domain, b.at, retention);
      hide Agrees, Falling, Proper, Built, Without, First;
      if b.domain == domain {
        BuiltAgrees(tables[n-1], b, First(prior, retention), retention, tables[n]);
        PruneThenBuild(b, prior, retention);
      } else {
        OtherDomainAgrees(tables[n-1], b, retention, tables[n], domain, First(prior, retention), b.at);
      }
    }
  }

  /** So the newest-first order that `current` and `previous` index is the recency order of the full
      history, cut at the retention: they resolve to ranks 0 and 1 whenever those are kept. */
  lemma SentinelsResolveToRanks(history: seq<Build>, tables: seq<TrailTable>, retention: nat, n: nat, domain: string,
                                order: seq<string>, rank: nat)
    requires IsRun(history, tables, retention) && retention >= 1 && n <= |history|
    requires NewestFirst(tables[n], domain, order)
    ensures At(order, rank) ==
              if rank < retention && rank < |Recency(history[..n], domain)|
                  then Some(Recency(history[..n], domain)[rank].snapshotId) else None
  {
    var past := history[..n];
    var bound := if n > 0 then past[n-1].at + 1 else 0;
    forall b | b in past ensures Proper(b) && b.at < bound {
      var i :| 0 <= i < |past| && past[i] == b;
    }
    RecencyFalls(past, domain, bound);
    FirstFalls(Recency(past, domain), domain, bound, retention);
    RetentionKeepsTheRecent(history, tables, retention, n, domain);
    OrderIsRecency(tables[n], domain, First(Recency(past, domain), retention), bound, order);
  }

  /** The recency list holds exactly the last build of each of the domain's snapshots. */
  lemma {:induction false} RecencyHoldsLastBuilds(history: seq<Build>, domain: string, b: Build)
    requires forall k :: k in history ==> Proper(k)
    requires forall i, j :: 0 <= i < j < |history| ==> history[i].at < history[j].at
    ensures b in Recency(history, domain) <==>
              b.domain == domain && b in history
              && forall k :: k in history && k.domain == domain && k.snapshotId == b.snapshotId ==> k.at <= b.at
  {
    if history != [] {
      var front, last := history[..|history|-1], history[|history|-1];
      assert history == front + [last];
      RecencyHoldsLastBuilds(front, domain, b);
      forall k | k in front ensures k.at < last.at {
        var i :| 0 <= i < |front| && front[i] == k;
        assert history[i] == k;
      }
      RecencyFalls(front, domain, last.at);
      if last.domain == domain { NextFalls(last, Recency(front, domain)); }
    }
  }
}
