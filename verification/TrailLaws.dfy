/** End-to-end laws of the computed trails: what is returned, under which seed, with which tag. */
module TrailLaws {
  import opened Common
  import opened TrailModels
  import opened TrailClosure
  import opened SrlgUnion
  import opened TrailIds
  import opened TrailCompute
  import opened ManagedObjectIds

  /** `members` is a final member set of `seed`: one of its closures after the shared-risk sweep. */
  ghost predicate ProducedBy(slice: Slice, policy: TrailPolicy, seed: string, members: set<string>) {
    var g := GraphOf(slice, policy);
    IsSeed(g, seed) &&
    exists b :: b in BoundedOf(g, AreaKey(policy), seed) && members == Sweep(SrlgGroups(policy, slice.edges), b.members)
  }

  // ---- Entries ----

  lemma {:induction false} EntryOrigin(g: ClosureGraph, key: Option<string>, order: seq<string>, e: Entry)
    ensures e in EntriesOf(g, key, order) <==>
              e.seed in order && IsSeed(g, e.seed) && Bounded(e.members, e.area) in BoundedOf(g, key, e.seed)
  {
    if order != [] {
      var front, last := order[..|order|-1], order[|order|-1];
      assert order == front + [last];
      EntryOrigin(g, key, front, e);
      if IsSeed(g, last) {
        var bounded := BoundedOf(g, key, last);
        assert e in Tag(bounded, last) <==> e.seed == last && Bounded(e.members, e.area) in bounded by {
          forall i | 0 <= i < |bounded| && bounded[i] == Bounded(e.members, e.area) && e.seed == last
            ensures e in Tag(bounded, last)
          {
            assert Tag(bounded, last)[i] == e;
          }
        }
      }
    }
  }

  /** The entries of some seeds after those of others. */
  lemma {:induction false} EntriesConcat(g: ClosureGraph, key: Option<string>, a: seq<string>, b: seq<string>)
    ensures EntriesOf(g, key, a + b) == EntriesOf(g, key, a) + EntriesOf(g, key, b)
  {
    hide BoundedOf, Tag;
    if b == [] {
      assert a + b == a;
    } else {
      var front, last := b[..|b|-1], b[|b|-1];
      EntriesConcat(g, key, a, front);
      assert (a + b)[..|a + b|-1] == a + front && (a + b)[|a + b|-1] == last;
      ConcatAssociates(EntriesOf(g, key, a), EntriesOf(g, key, front),
                       if IsSeed(g, last) then Tag(BoundedOf(g, key, last), last) else []);
    }
  }

  /** One seed gives its closures in order; a risk group is no seed. */
  lemma EntriesOfOne(g: ClosureGraph, key: Option<string>, seed: string, k: nat)
    requires seed in g.nodes
    ensures g.nodes[seed].objectType == "SRLG" ==> EntriesOf(g, key, [seed]) == []
    ensures var closures := BoundedOf(g, key, seed);
            g.nodes[seed].objectType != "SRLG" ==>
              && |EntriesOf(g, key, [seed])| == |closures|
              && (k < |closures| ==>
                    EntriesOf(g, key, [seed])[k] == Entry(closures[k].members, closures[k].area, seed))
  {
    hide BoundedOf;
    assert [seed][..0] == [];
  }

  /** Entries appear in seed order. */
  lemma {:induction false} EntriesInSeedOrder(g: ClosureGraph, key: Option<string>, order: seq<string>, i: nat, j: nat)
    requires StrictlySorted(order)
    requires i < j < |EntriesOf(g, key, order)|
    ensures var es := EntriesOf(g, key, order); es[i].seed == es[j].seed || Below(es[i].seed, es[j].seed)
  {
    var front, last := order[..|order|-1], order[|order|-1];
    var prior := EntriesOf(g, key, front);
    if j < |prior| {
      EntriesInSeedOrder(g, key, front, i, j);
    } else if i < |prior| {
      EntryOrigin(g, key, front, prior[i]);
      var k :| 0 <= k < |front| && front[k] == prior[i].seed;
      assert order[k] == front[k];
    }
  }

  /** Whatever the order the seeds are visited in, the family of member sets is the same. */
  lemma FamilyIgnoresSeedOrder(slice: Slice, policy: TrailPolicy, order: seq<string>, members: set<string>)
    requires Elements(order) == slice.nodes.Keys
    ensures (exists e :: e in FinalEntries(slice, policy, order) && e.members == members)
       <==> (exists seed :: ProducedBy(slice, policy, seed, members))
  {
    var g, key, groups := GraphOf(slice, policy), AreaKey(policy), SrlgGroups(policy, slice.edges);
    var entries, final := EntriesOf(g, key, order), FinalEntries(slice, policy, order);
    if e :| e in final && e.members == members {
      var i :| 0 <= i < |final| && final[i] == e;
      EntryOrigin(g, key, order, entries[i]);
      assert ProducedBy(slice, policy, entries[i].seed, members);
    }
    if seed :| ProducedBy(slice, policy, seed, members) {
      var b :| b in BoundedOf(g, key, seed) && members == Sweep(groups, b.members);
      var entry := Entry(b.members, b.area, seed);
      assert seed in Elements(order);
      EntryOrigin(g, key, order, entry);
      var i :| 0 <= i < |entries| && entries[i] == entry;
      assert final[i].members == members;
    }
  }

  lemma FinalEntryOrigin(slice: Slice, policy: TrailPolicy, i: nat)
    requires i < |FinalEntries(slice, policy, Sorted(slice.nodes.Keys))|
    ensures var e := FinalEntries(slice, policy, Sorted(slice.nodes.Keys))[i];
      && ProducedBy(slice, policy, e.seed, e.members)
      && e.seed in e.members
  {
    var g, key, order := GraphOf(slice, policy), AreaKey(policy), Sorted(slice.nodes.Keys);
    var entry := EntriesOf(g, key, order)[i];
    EntryOrigin(g, key, order, entry);
    BoundedSetIsComponent(g, key, entry.seed, Bounded(entry.members, entry.area));
    SweepBounds(SrlgGroups(policy, slice.edges), entry.members);
  }

  lemma NoEmptyEntries(slice: Slice, policy: TrailPolicy)
    ensures forall e :: e in FinalEntries(slice, policy, Sorted(slice.nodes.Keys)) ==> e.members != {}
  {
    var entries := FinalEntries(slice, policy, Sorted(slice.nodes.Keys));
    forall i | 0 <= i < |entries| ensures entries[i].members != {} {
      FinalEntryOrigin(slice, policy, i);
    }
  }

  // ---- Deduplication ----

  lemma {:induction false} DistinctSetsAreTheSets(entries: seq<Entry>, n: nat)
    requires n <= |entries|
    ensures NoDuplicates(DistinctSets(entries, n))
    ensures forall m :: m in DistinctSets(entries, n) <==> m != {} && Recorded(entries, n, m)
  {
    if n > 0 { DistinctSetsAreTheSets(entries, n - 1); }
  }

  ghost predicate HasTrail(trails: seq<Trail>, members: set<string>) {
    exists t :: t in trails && Elements(t.members) == members
  }

  /** Some seed produces this member set. */
  ghost predicate Produced(slice: Slice, policy: TrailPolicy, members: set<string>) {
    exists seed :: ProducedBy(slice, policy, seed, members)
  }

  /** Exactly one trail per distinct final member set, its members strictly sorted. */
  lemma OneTrailPerMemberSet(slice: Slice, policy: TrailPolicy, hash: Hash)
    ensures var trails := TrailsOf(slice, policy, hash);
      && (forall i, j :: 0 <= i < j < |trails| ==> Elements(trails[i].members) != Elements(trails[j].members))
      && (forall t :: t in trails ==> StrictlySorted(t.members))
      && (forall members :: HasTrail(trails, members) <==> Produced(slice, policy, members))
  {
    hide FinalEntries, ProducedBy, Sweep, BoundedOf, SeedFor, AreaFor;
    var order := Sorted(slice.nodes.Keys);
    var entries, trails := FinalEntries(slice, policy, order), TrailsOf(slice, policy, hash);
    var sets := DistinctSets(entries, |entries|);
    DistinctSetsAreTheSets(entries, |entries|);
    assert forall i :: 0 <= i < |trails| ==> Elements(trails[i].members) == sets[i] by {
      assert forall i :: 0 <= i < |sets| ==> sets[i] in sets;
    }
    forall members ensures HasTrail(trails, members) <==> Produced(slice, policy, members) {
      FamilyIgnoresSeedOrder(slice, policy, order, members);
      FirstRecord(entries, |entries|, members);
      NoEmptyEntries(slice, policy);
      if members in sets {
        var i :| 0 <= i < |sets| && sets[i] == members;
        assert trails[i] in trails;
      }
    }
  }

  lemma EmptyIdSortsFirst(members: set<string>)
    requires "" in members
    ensures Sorted(members) != [] && Sorted(members)[0] == ""
  {
    var xs := Sorted(members);
    assert "" in Elements(xs);
    assert forall k :: 0 < k < |xs| ==> Below(xs[0], xs[k]);
  }

  lemma TrailEntry(slice: Slice, policy: TrailPolicy, hash: Hash, t: Trail) returns (i: nat)
    requires t in TrailsOf(slice, policy, hash)
    ensures var entries := FinalEntries(slice, policy, Sorted(slice.nodes.Keys));
      && i < |entries| && entries[i].members == Elements(t.members) != {}
      && t == TrailFor(slice, AreaKey(policy), hash, entries, entries[i].members)
      && SeedFor(entries, |entries|, entries[i].members) == Some(entries[i].seed)
      && forall j :: 0 <= j < i ==> entries[j].members != entries[i].members
  {
    hide FinalEntries, Sorted, AreaFor;
    var entries := FinalEntries(slice, policy, Sorted(slice.nodes.Keys));
    var trails, sets := TrailsOf(slice, policy, hash), DistinctSets(entries, |entries|);
    var k :| 0 <= k < |trails| && trails[k] == t;
    assert sets[k] in sets;
    DistinctSetsAreTheSets(entries, |entries|);
    FirstRecord(entries, |entries|, sets[k]);
    i :| 0 <= i < |entries| && entries[i].members == sets[k] &&
         SeedFor(entries, |entries|, sets[k]) == Some(entries[i].seed) &&
         forall j :: 0 <= j < i ==> entries[j].members != sets[k];
  }

  /** The recorded seed is a member, produces the set, and is the least seed that does. */
  lemma LeastSeed(slice: Slice, policy: TrailPolicy, hash: Hash, t: Trail, s: string)
    requires t in TrailsOf(slice, policy, hash)
    ensures t.seed in t.members && ProducedBy(slice, policy, t.seed, Elements(t.members))
    ensures ProducedBy(slice, policy, s, Elements(t.members)) ==> s == t.seed || Below(t.seed, s)
  {
    hide TrailsOf, Sweep, SrlgGroups, BoundedOf;
    var g, key, order := GraphOf(slice, policy), AreaKey(policy), Sorted(slice.nodes.Keys);
    var entries := FinalEntries(slice, policy, order);
    var i := TrailEntry(slice, policy, hash, t);
    var members := entries[i].members;
    FinalEntryOrigin(slice, policy, i);
    if entries[i].seed == "" { EmptyIdSortsFirst(members); }
    assert t.seed == entries[i].seed;
    assert t.seed in Elements(t.members);
    if ProducedBy(slice, policy, s, members) {
      var b :| b in BoundedOf(g, key, s) && members == Sweep(SrlgGroups(policy, slice.edges), b.members);
      assert s in Elements(order);
      EntryOrigin(g, key, order, Entry(b.members, b.area, s));
      var j :| 0 <= j < |entries| && EntriesOf(g, key, order)[j] == Entry(b.members, b.area, s);
      assert entries[j].members == members;
      if j != i { EntriesInSeedOrder(g, key, order, i, j); }
    }
  }

  /** Every object that is not a risk group lies on some trail. */
  lemma EveryObjectIsCovered(slice: Slice, policy: TrailPolicy, hash: Hash, n: string)
    requires IsSeed(GraphOf(slice, policy), n)
    ensures exists t :: t in TrailsOf(slice, policy, hash) && n in t.members
  {
    var g, key := GraphOf(slice, policy), AreaKey(policy);
    var b := BoundedOf(g, key, n)[0];
    BoundedSetIsComponent(g, key, n, b);
    var members := Sweep(SrlgGroups(policy, slice.edges), b.members);
    SweepBounds(SrlgGroups(policy, slice.edges), b.members);
    assert ProducedBy(slice, policy, n, members);
    OneTrailPerMemberSet(slice, policy, hash);
    assert HasTrail(TrailsOf(slice, policy, hash), members);
    var t :| t in TrailsOf(slice, policy, hash) && Elements(t.members) == members;
    assert n in Elements(t.members);
  }

  /** Different trails of one build hash different strings. */
  lemma DistinctTrailsHashDistinctStrings(slice: Slice, policy: TrailPolicy, hash: Hash, i: nat, j: nat)
    requires i < j < |TrailsOf(slice, policy, hash)|
    requires forall m :: m in TrailsOf(slice, policy, hash)[i].members ==> IsValid(m)
    requires forall m :: m in TrailsOf(slice, policy, hash)[j].members ==> IsValid(m)
    ensures var trails := TrailsOf(slice, policy, hash);
      PreImage(slice.domain, slice.snapshotId, trails[i].members) != PreImage(slice.domain, slice.snapshotId,
          trails[j].members)
  {
    var trails := TrailsOf(slice, policy, hash);
    OneTrailPerMemberSet(slice, policy, hash);
    if PreImage(slice.domain, slice.snapshotId, trails[i].members) ==
        PreImage(slice.domain, slice.snapshotId, trails[j].members) {
      PreImageInjective(slice.domain, slice.snapshotId, trails[i].members, trails[j].members);
    }
  }

  // ---- Ids, tags and contexts ----

  function First24(digest: string): string {
    if |digest| <= 24 then digest else digest[..24]
  }

  /** A trail carries its slice's domain and snapshot, and its id is made of the hash of a string that holds
      both in front of a list from which exactly its members are read back. */
  lemma IdNamesTrail(slice: Slice, policy: TrailPolicy, hash: Hash, t: Trail)
    requires t in TrailsOf(slice, policy, hash)
    requires forall m :: m in t.members ==> IsValid(m)
    ensures t.domain == slice.domain && t.snapshotId == slice.snapshotId && t.members != []
    ensures exists joined :: Decode(joined) == t.members &&
              t.trailId == "trail-" + First24(hash(slice.domain + "|" + slice.snapshotId + "|" + joined))
  {
    hide TrailsFrom, FinalEntries, Decode, Sorted;
    MadeOf(slice, policy, hash, t);
    DecodeJoin(t.members);
    HeadJoins(slice.domain, slice.snapshotId, t.members);
    assert Decode(Join(t.members)) == t.members;
  }

  /** A returned trail is made by `TrailFor` of its member set. */
  lemma MadeOf(slice: Slice, policy: TrailPolicy, hash: Hash, t: Trail)
    requires t in TrailsOf(slice, policy, hash)
    ensures Elements(t.members) != {} && t.members != []
    ensures var entries := FinalEntries(slice, policy, Sorted(slice.nodes.Keys));
            t == TrailFor(slice, AreaKey(policy), hash, entries, Elements(t.members))
    ensures t.trailId == "trail-" + First24(hash(PreImage(t.domain, t.snapshotId, t.members)))
    ensures t.domain == slice.domain && t.snapshotId == slice.snapshotId
  {
    hide FinalEntries, TrailsFrom, SeedFor, AreaFor, AreaOfMembers, SrlgContext, PreImage, IsFirstBounded;
    var i := TrailEntry(slice, policy, hash, t);
  }

  /** When the hash keeps strings apart in its first 24 characters, no two trails of a build share an id. */
  lemma IdsAreDistinct(slice: Slice, policy: TrailPolicy, hash: Hash, i: nat, j: nat)
    requires i < j < |TrailsOf(slice, policy, hash)|
    requires forall m :: m in TrailsOf(slice, policy, hash)[i].members ==> IsValid(m)
    requires forall m :: m in TrailsOf(slice, policy, hash)[j].members ==> IsValid(m)
    requires forall x, y :: x != y ==> First24(hash(x)) != First24(hash(y))
    ensures TrailsOf(slice, policy, hash)[i].trailId != TrailsOf(slice, policy, hash)[j].trailId
  {
    hide TrailsOf, PreImage, First24;
    var a, b := TrailsOf(slice, policy, hash)[i], TrailsOf(slice, policy, hash)[j];
    assert a in TrailsOf(slice, policy, hash) && b in TrailsOf(slice, policy, hash);
    MadeOf(slice, policy, hash, a);
    MadeOf(slice, policy, hash, b);
    DistinctTrailsHashDistinctStrings(slice, policy, hash, i, j);
    var x, y :=
        PreImage(slice.domain, slice.snapshotId, a.members), PreImage(slice.domain, slice.snapshotId, b.members);
    assert a.trailId[6..] == First24(hash(x)) && b.trailId[6..] == First24(hash(y));
  }

  /** The tag is the area of the first entry that bounds the trail's members to one; where no entry does, it
      is the only area among the members, when there is exactly one. */
  lemma TagExactly(slice: Slice, policy: TrailPolicy, hash: Hash, t: Trail, area: string)
    requires t in TrailsOf(slice, policy, hash)
    ensures var entries := FinalEntries(slice, policy, Sorted(slice.nodes.Keys));
            var key, members := AreaKey(policy), Elements(t.members);
            && (key.None? || key.value == "" ==> t.igpArea.None?)
            && (key.Some? && key.value != "" ==>
                  || (exists i: nat :: IsFirstBounded(entries, |entries|, members, i) && t.igpArea == entries[i].area)
                  || (&& (forall i :: 0 <= i < |entries| && entries[i].members == members ==> entries[i].area.None?)
                      && (t.igpArea == Some(area) <==> IsOnlyArea(members, slice, key, area))))
  {
    hide FinalEntries, TrailsOf, Sorted, SeedFor, AreaFor, AreaOfMembers, SrlgContext, IsOnlyArea, IsFirstBounded;
    MadeOf(slice, policy, hash, t);
    var entries := FinalEntries(slice, policy, Sorted(slice.nodes.Keys));
    FirstRecord(entries, |entries|, Elements(t.members));
    AreaOfMembersExactly(Elements(t.members), slice, AreaKey(policy), area);
  }

  /** The context is the least member that is a risk group, if there is one. */
  lemma ContextExactly(slice: Slice, policy: TrailPolicy, hash: Hash, t: Trail, group: string)
    requires t in TrailsOf(slice, policy, hash)
    ensures t.srlgGroup == Some(group) <==> exists i: nat :: IsFirstRiskGroup(t.members, group, i)
    ensures t.srlgGroup.None? <==> forall m :: m in t.members ==> !("SRLG:" <= m)
  {
    hide FinalEntries, TrailsOf, SeedFor, AreaFor, AreaOfMembers, SrlgContext, IsFirstRiskGroup;
    MadeOf(slice, policy, hash, t);
    SrlgContextExactly(t.members, group);
  }

  /** Trails stand in the order in which their member sets first come up. */
  lemma TrailsInOrder(slice: Slice, policy: TrailPolicy, hash: Hash, i: nat, j: nat)
    requires i < j < |TrailsOf(slice, policy, hash)|
    ensures var entries, trails := FinalEntries(slice, policy, Sorted(slice.nodes.Keys)), TrailsOf(slice, policy, hash);
            exists m: nat :: m < |entries| && entries[m].members == Elements(trails[i].members) &&
              !Recorded(entries, m + 1, Elements(trails[j].members))
  {
    hide FinalEntries, TrailsOf, DistinctSets, Recorded;
    var entries := FinalEntries(slice, policy, Sorted(slice.nodes.Keys));
    TrailHasSet(slice, policy, hash, i);
    TrailHasSet(slice, policy, hash, j);
    DistinctSetsInOrder(entries, |entries|, i, j);
  }

  lemma TrailHasSet(slice: Slice, policy: TrailPolicy, hash: Hash, i: nat)
    requires i < |TrailsOf(slice, policy, hash)|
    ensures var entries := FinalEntries(slice, policy, Sorted(slice.nodes.Keys));
            && |DistinctSets(entries, |entries|)| == |TrailsOf(slice, policy, hash)|
            && Elements(TrailsOf(slice, policy, hash)[i].members) == DistinctSets(entries, |entries|)[i]
  {
    hide FinalEntries, DistinctSets, SeedFor, AreaFor, AreaOfMembers, SrlgContext;
    var entries := FinalEntries(slice, policy, Sorted(slice.nodes.Keys));
    assert DistinctSets(entries, |entries|)[i] in DistinctSets(entries, |entries|);
  }
}
