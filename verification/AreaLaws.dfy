/** Single-area safety, end to end: when a returned trail is tagged with an area, does every
    area-bearing member lie in it? */
module AreaLaws {
  import opened Common
  import opened TrailModels
  import opened TrailClosure
  import opened SrlgUnion
  import opened TrailCompute
  import opened TrailLaws

  ghost function AreaAt(slice: Slice, policy: TrailPolicy, m: string): Option<string> {
    if m in slice.nodes then slice.nodes[m].IgpArea(AreaKey(policy)) else None
  }

  /** A tagged trail holds no object of another area. */
  ghost predicate TagSafe(slice: Slice, policy: TrailPolicy, t: Trail) {
    t.igpArea.Some? ==> forall m ::
        m in t.members && AreaAt(slice, policy, m).Some? ==> AreaAt(slice, policy, m) == t.igpArea
  }

  ghost predicate MixesAreas(slice: Slice, policy: TrailPolicy, t: Trail) {
    exists m, n :: && m in t.members && n in t.members
                   && AreaAt(slice, policy, m).Some? && AreaAt(slice, policy, n).Some?
                   && AreaAt(slice, policy, m) != AreaAt(slice, policy, n)
  }

  /** The docstring's assumption: co-members and nodes of shared-risk groups carry no area. */
  ghost predicate SharedObjectsAreAreaLess(slice: Slice, policy: TrailPolicy) {
    forall g, x :: g in SrlgGroups(policy, slice.edges) && g.Qualifies() && x in g.Shared() ==>
      AreaAt(slice, policy, x).None?
  }

  /** From any member of a closure bounded to an area, chains of groups at rising positions lead to no
      object of another area. */
  ghost predicate PullsOwnAreaOnly(slice: Slice, policy: TrailPolicy) {
    forall s, area, c, x ::
      && IsSeed(GraphOf(slice, policy), s) && area in TargetAreas(GraphOf(slice, policy), s)
      && c in Component(GraphOf(slice, policy), Admitted(GraphOf(slice, policy), area), s)
      && Rises(SrlgGroups(policy, slice.edges), c, x) && AreaAt(slice, policy, x).Some? ==>
        AreaAt(slice, policy, x) == Some(area)
  }

  lemma {:induction false} SweepAddsShared(groups: seq<Group>, members: set<string>, x: string)
    requires x in Sweep(groups, members) && x !in members
    ensures exists g :: g in groups && g.Qualifies() && x in g.Shared()
  {
    var front, last := groups[..|groups|-1], groups[|groups|-1];
    assert groups == front + [last];
    if x in Sweep(front, members) { SweepAddsShared(front, members, x); }
  }

  /** `closure` is the seed's closure bounded to `area`. */
  ghost predicate IsBoundedClosure(g: ClosureGraph, seed: string, area: string, closure: set<string>) {
    IsSeed(g, seed) && area in TargetAreas(g, seed) && closure == Component(g, Admitted(g, area), seed)
  }

  lemma BoundedIsClosure(g: ClosureGraph, key: Option<string>, seed: string, b: Bounded)
    requires IsSeed(g, seed) && b in BoundedOf(g, key, seed) && b.area.Some?
    ensures IsBoundedClosure(g, seed, b.area.value, b.members)
  {
    var areas := Sorted(TargetAreas(g, seed));
    var i :| 0 <= i < |areas| && BoundedOf(g, key, seed)[i] == b;
    assert areas[i] in Elements(areas);
  }

  /** Where a tag comes from: a closure bounded to that area, or members that have only that area. */
  lemma TagOrigin(slice: Slice, policy: TrailPolicy, hash: Hash, t: Trail) returns (seed: string, closure: set<string>)
    requires t in TrailsOf(slice, policy, hash) && t.igpArea.Some?
    ensures || TagSafe(slice, policy, t)
            || (IsBoundedClosure(GraphOf(slice, policy), seed, t.igpArea.value, closure)
                && Elements(t.members) == Sweep(SrlgGroups(policy, slice.edges), closure))
  {
    hide Sweep, SrlgGroups, BoundedOf, Component;
    var g, key, order := GraphOf(slice, policy), AreaKey(policy), Sorted(slice.nodes.Keys);
    var entries := FinalEntries(slice, policy, order);
    var k := TrailEntry(slice, policy, hash, t);
    var members := entries[k].members;
    seed, closure := "", {};
    FirstRecord(entries, |entries|, members);
    if AreaFor(entries, |entries|, members).Some? {
      var i :| 0 <= i < |entries| && entries[i].members == members && entries[i].area == t.igpArea;
      var entry := EntriesOf(g, key, order)[i];
      EntryOrigin(g, key, order, entry);
      BoundedIsClosure(g, key, entry.seed, Bounded(entry.members, entry.area));
      seed, closure := entry.seed, entry.members;
    } else {
      SingleArea(slice, policy, members, t.igpArea.value);
      assert forall m :: m in t.members <==> m in Elements(t.members);
    }
  }

  lemma SingleArea(slice: Slice, policy: TrailPolicy, members: set<string>, area: string)
    requires AreaOfMembers(members, slice, AreaKey(policy)) == Some(area)
    ensures forall m :: m in members && AreaAt(slice, policy, m).Some? ==> AreaAt(slice, policy, m) == Some(area)
  {
    var key := AreaKey(policy);
    var areas := set m | m in members && m in slice.nodes && slice.nodes[m].IgpArea(key).Some? ::
                   slice.nodes[m].IgpArea(key).value;
    forall m | m in members && AreaAt(slice, policy, m).Some? ensures AreaAt(slice, policy, m) == Some(area) {
      var a := slice.nodes[m].IgpArea(key).value;
      assert a in areas && area in areas;
      if a != area { assert |{a, area}| == 2; SubsetCardinality({a, area}, areas); }
    }
  }

  lemma {:induction false} SubsetCardinality<T>(a: set<T>, b: set<T>)
    requires a <= b
    ensures |a| <= |b|
  {
    assert b == a + (b - a);
  }

  /** With area-less shared objects every tag is truthful... */
  lemma TagsAreSafe(slice: Slice, policy: TrailPolicy, hash: Hash, t: Trail)
    requires SharedObjectsAreAreaLess(slice, policy)
    requires t in TrailsOf(slice, policy, hash)
    ensures TagSafe(slice, policy, t)
  {
    hide TrailsOf, Component, SrlgGroups, Sweep;
    if t.igpArea.Some? {
      var seed, closure := TagOrigin(slice, policy, hash, t);
      if IsBoundedClosure(GraphOf(slice, policy), seed, t.igpArea.value, closure)
         && Elements(t.members) == Sweep(SrlgGroups(policy, slice.edges), closure) {
        forall m | m in t.members && AreaAt(slice, policy, m).Some? ensures AreaAt(slice, policy, m) == t.igpArea {
          assert m in Elements(t.members);
          OnlyAreaLessAreSwept(slice, policy, closure, m);
          ComponentAdmitted(GraphOf(slice, policy), seed, t.igpArea.value);
        }
      }
    }
  }

  lemma ComponentAdmitted(g: ClosureGraph, seed: string, area: string)
    requires seed in g.nodes && area in TargetAreas(g, seed)
    ensures Component(g, Admitted(g, area), seed) <= Admitted(g, area)
  {
    SeedIsAdmitted(g, seed, area);
  }

  /** ...so a trail that mixes areas is never tagged. */
  lemma MixedTrailsAreUntagged(slice: Slice, policy: TrailPolicy, hash: Hash, t: Trail)
    requires SharedObjectsAreAreaLess(slice, policy)
    requires t in TrailsOf(slice, policy, hash) && MixesAreas(slice, policy, t)
    ensures t.igpArea.None?
  {
    TagsAreSafe(slice, policy, hash, t);
  }

  lemma ClosureHoldsItsArea(g: ClosureGraph, seed: string, area: string)
    requires seed in g.nodes && area in TargetAreas(g, seed)
    ensures exists m :: m in Component(g, Admitted(g, area), seed) && g.InArea(m, area)
  {
    var allow := Admitted(g, area);
    var c := Component(g, allow, seed);
    ComponentIsComponent(g, allow, seed);
    if g.AreaLess(seed) && Conducts(g, seed, area) {
      var m :| m in g.Neighbors(seed) && g.InArea(m, area);
      assert m in c;
    } else if g.AreaLess(seed) {
      var k :| k in g.Neighbors(seed) && g.AreaLess(k) && Conducts(g, k, area);
      var m :| m in g.Neighbors(k) && g.InArea(m, area);
      assert k in c && m in c;
    } else {
      assert seed in c;
    }
  }

  /** The exact condition: all tags are truthful if and only if, from no member of a closure bounded to
      an area, the groups reach an object of another area. */
  lemma TagsAreSafeExactly(slice: Slice, policy: TrailPolicy, hash: Hash)
    requires AreaKey(policy).Some? && AreaKey(policy).value != ""
    ensures var safe := forall t :: t in TrailsOf(slice, policy, hash) ==> TagSafe(slice, policy, t);
            safe <==> PullsOwnAreaOnly(slice, policy)
  {
    hide TrailsOf, Component, SrlgGroups, Sweep, Rises, TagSafe, TargetAreas;
    if PullsOwnAreaOnly(slice, policy) {
      forall t | t in TrailsOf(slice, policy, hash) ensures TagSafe(slice, policy, t) {
        OwnAreaMakesSafe(slice, policy, hash, t);
      }
    }
    if forall t :: t in TrailsOf(slice, policy, hash) ==> TagSafe(slice, policy, t) {
      var g, groups := GraphOf(slice, policy), SrlgGroups(policy, slice.edges);
      forall s, area, c, x | IsSeed(g, s) && area in TargetAreas(g, s) && c in Component(g, Admitted(g, area), s)
                             && Rises(groups, c, x) && AreaAt(slice, policy, x).Some?
        ensures AreaAt(slice, policy, x) == Some(area)
      {
        SweepRises(groups, c, x);
        ForeignPullIsSeen(slice, policy, hash, s, area, c, x);
      }
    }
  }

  lemma OwnAreaMakesSafe(slice: Slice, policy: TrailPolicy, hash: Hash, t: Trail)
    requires PullsOwnAreaOnly(slice, policy)
    requires t in TrailsOf(slice, policy, hash)
    ensures TagSafe(slice, policy, t)
  {
    hide TrailsOf, Component, SrlgGroups, Sweep, Rises;
    var groups := SrlgGroups(policy, slice.edges);
    if t.igpArea.Some? {
      var seed, closure := TagOrigin(slice, policy, hash, t);
      if IsBoundedClosure(GraphOf(slice, policy), seed, t.igpArea.value, closure) &&
          Elements(t.members) == Sweep(groups, closure) {
        forall m | m in t.members && AreaAt(slice, policy, m).Some? ensures AreaAt(slice, policy, m) == t.igpArea {
          assert m in Elements(t.members);
          SweepHasOrigin(groups, closure, m);
          var c :| c in closure && m in Sweep(groups, {c});
          SweepRises(groups, c, m);
        }
      }
    }
  }

  /** The closure of `c` bounded to `area` ends up in a tagged trail. */
  lemma ClosureIsTagged(slice: Slice, policy: TrailPolicy, hash: Hash, c: string, area: string) returns (t: Trail)
    requires AreaKey(policy).Some? && AreaKey(policy).value != ""
    requires IsSeed(GraphOf(slice, policy), c) && area in TargetAreas(GraphOf(slice, policy), c)
    ensures t in TrailsOf(slice, policy, hash) && t.igpArea.Some?
    ensures var g := GraphOf(slice, policy);
      Elements(t.members) == Sweep(SrlgGroups(policy, slice.edges), Component(g, Admitted(g, area), c))
  {
    var g, key, order := GraphOf(slice, policy), AreaKey(policy), Sorted(slice.nodes.Keys);
    var entries := FinalEntries(slice, policy, order);
    var closure := Component(g, Admitted(g, area), c);
    SeedIsAdmitted(g, c, area);
    ComponentIsComponent(g, Admitted(g, area), c);
    EveryComponentIsAClosure(g, key, area, closure, c);
    assert c in Elements(order);
    EntryOrigin(g, key, order, Entry(closure, Some(area), c));
    var i :| 0 <= i < |entries| && EntriesOf(g, key, order)[i] == Entry(closure, Some(area), c);
    var members := entries[i].members;
    assert ProducedBy(slice, policy, c, members);
    OneTrailPerMemberSet(slice, policy, hash);
    assert HasTrail(TrailsOf(slice, policy, hash), members);
    t :| t in TrailsOf(slice, policy, hash) && Elements(t.members) == members;
    var k := TrailEntry(slice, policy, hash, t);
    FirstRecord(entries, |entries|, members);
  }

  lemma ForeignPullIsSeen(slice: Slice, policy: TrailPolicy, hash: Hash, s: string, area: string, c: string, x: string)
    requires AreaKey(policy).Some? && AreaKey(policy).value != ""
    requires forall t :: t in TrailsOf(slice, policy, hash) ==> TagSafe(slice, policy, t)
    requires IsSeed(GraphOf(slice, policy), s) && area in TargetAreas(GraphOf(slice, policy), s)
    requires c in Component(GraphOf(slice, policy), Admitted(GraphOf(slice, policy), area), s)
    requires x in Sweep(SrlgGroups(policy, slice.edges), {c}) && AreaAt(slice, policy, x).Some?
    ensures AreaAt(slice, policy, x) == Some(area)
  {
    hide TrailsOf, Component, SrlgGroups, Sweep;
    var g, groups := GraphOf(slice, policy), SrlgGroups(policy, slice.edges);
    var closure := Component(g, Admitted(g, area), s);
    var t := ClosureIsTagged(slice, policy, hash, s, area);
    SweepBounds(groups, closure);
    SweepMonotone(groups, {c}, closure);
    ClosureHoldsItsArea(g, s, area);
    var m :| m in closure && g.InArea(m, area);
    assert m in Elements(t.members) && x in Elements(t.members);
    assert TagSafe(slice, policy, t);
  }

  lemma BoundedHoldsItsArea(g: ClosureGraph, key: Option<string>, seed: string, b: Bounded)
    requires seed in g.nodes && b in BoundedOf(g, key, seed) && b.area.Some?
    ensures b.members <= Admitted(g, b.area.value)
    ensures exists m :: m in b.members && g.InArea(m, b.area.value)
  {
    BoundedSetIsComponent(g, key, seed, b);
    var areas := Sorted(TargetAreas(g, seed));
    var i :| 0 <= i < |areas| && BoundedOf(g, key, seed)[i] == b;
    assert areas[i] in Elements(areas);
    ClosureHoldsItsArea(g, seed, areas[i]);
  }

  /** Sets bounded to different areas never coincide, so deduplication drops none of them: each holds
      an object of its own area, which the other does not admit and no area-less group brings in. */
  lemma SameMembersSameArea(slice: Slice, policy: TrailPolicy, order: seq<string>, i: nat, j: nat)
    requires SharedObjectsAreAreaLess(slice, policy)
    requires i < |FinalEntries(slice, policy, order)| && j < |FinalEntries(slice, policy, order)|
    requires FinalEntries(slice, policy, order)[i].members == FinalEntries(slice, policy, order)[j].members
    requires FinalEntries(slice, policy, order)[i].area.Some? && FinalEntries(slice, policy, order)[j].area.Some?
    ensures FinalEntries(slice, policy, order)[i].area == FinalEntries(slice, policy, order)[j].area
  {
    hide BoundedOf, Sweep, Admitted, SrlgGroups;
    var g, key := GraphOf(slice, policy), AreaKey(policy);
    var e, f := EntriesOf(g, key, order)[i], EntriesOf(g, key, order)[j];
    EntryOrigin(g, key, order, e);
    EntryOrigin(g, key, order, f);
    BoundedHoldsItsArea(g, key, e.seed, Bounded(e.members, e.area));
    BoundedHoldsItsArea(g, key, f.seed, Bounded(f.members, f.area));
    var m :| m in e.members && g.InArea(m, e.area.value);
    SweepBounds(SrlgGroups(policy, slice.edges), e.members);
    OnlyAreaLessAreSwept(slice, policy, f.members, m);
    assert AreaAt(slice, policy, m) == Some(e.area.value);
    AdmittedInOneArea(g, m, e.area.value, f.area.value);
  }

  lemma OnlyAreaLessAreSwept(slice: Slice, policy: TrailPolicy, members: set<string>, m: string)
    requires SharedObjectsAreAreaLess(slice, policy) && m in Sweep(SrlgGroups(policy, slice.edges), members)
    ensures AreaAt(slice, policy, m).Some? ==> m in members
  {
    hide SrlgGroups, Sweep;
    if m !in members { SweepAddsShared(SrlgGroups(policy, slice.edges), members, m); }
  }

  lemma AdmittedInOneArea(g: ClosureGraph, m: string, own: string, area: string)
    requires g.InArea(m, own) && m in Admitted(g, area)
    ensures own == area
  {
  }

  // ---- A slice with a misleading tag ----

  function NodeAt(id: string, area: string): GraphNode {
    GraphNode(id, "Node", map["igpArea" := Some(area)])
  }

  function TwoAreaSlice(): Slice {
    Slice("core-ip", "s1", map["Node:a" := NodeAt("Node:a", "area-1"), "Node:b" := NodeAt("Node:b", "area-2")],
          [GraphEdge("Node:a", "SRLG:1", "MEMBER_OF"), GraphEdge("Node:b", "SRLG:1", "MEMBER_OF")])
  }

  function UnionPolicy(): TrailPolicy {
    TrailPolicy([], Boundary("igp-area", Some("igpArea")), SrlgRule("union-members", Some("MEMBER_OF")))
  }

  /** Two nodes of different areas in one shared-risk group share a trail, which is tagged with one area. */
  lemma SharedAreasMislead(hash: Hash)
    ensures exists t :: t in TrailsOf(TwoAreaSlice(), UnionPolicy(), hash) && !TagSafe(TwoAreaSlice(), UnionPolicy(), t)
  {
    hide TrailsOf, TagSafe;
    var slice, policy := TwoAreaSlice(), UnionPolicy();
    TwoAreasArePulled();
    TagsAreSafeExactly(slice, policy, hash);
    assert AreaKey(policy) == Some("igpArea") && "igpArea" != "" by { assert |"igpArea"| == 7; }
    assert !PullsOwnAreaOnly(slice, policy);
  }

  lemma TwoAreasArePulled()
    ensures !PullsOwnAreaOnly(TwoAreaSlice(), UnionPolicy())
  {
    hide SrlgGroups, Sweep, Rises;
    var slice, policy := TwoAreaSlice(), UnionPolicy();
    var g := GraphOf(slice, policy);
    var a, b := "Node:a", "Node:b";
    assert a[5] == 'a' && b[5] == 'b';
    assert "area-1"[5] == '1' && "area-2"[5] == '2';
    BothNodesSwept();
    SweepRises(SrlgGroups(policy, slice.edges), a, b);
    assert g.nodes[a] == NodeInfo("Node", Some("area-1")) && "Node"[0] == 'N' && "SRLG"[0] == 'S';
    assert IsSeed(g, a) && "area-1" in TargetAreas(g, a) && a in Component(g, Admitted(g, "area-1"), a);
    assert AreaAt(slice, policy, b) == Some("area-2");
  }

  lemma BothNodesSwept()
    ensures "Node:b" in Sweep(SrlgGroups(UnionPolicy(), TwoAreaSlice().edges), {"Node:a"})
  {
    hide Sweep;
    var edges, groups := TwoAreaSlice().edges, SrlgGroups(UnionPolicy(), TwoAreaSlice().edges);
    var a, b := "Node:a", "Node:b";
    assert a[5] == 'a' && b[5] == 'b' && a != b;
    assert edges[0] in edges && edges[1] in edges;
    var h := GroupOfNode(UnionPolicy(), edges, "SRLG:1");
    assert {a, b} <= h.coMembers && |{a, b}| == 2;
    SubsetCardinality({a, b}, h.coMembers);
    assert a in {a} * h.coMembers;
    assert h.TouchedBy({a}) && b in h.Shared();
    SweepBounds(groups, {a});
    assert b in PulledIn(groups, {a});
  }
}
