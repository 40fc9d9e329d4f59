/** Step 2 of the trail computation: the shared-risk (SRLG) union of closure.py.

    One sweep over the groups, in the order their nodes first appear among the edges. A sweep is
    a fold, and the fold distributes over unions; the laws below follow from that. */
module SrlgUnion {
  import opened Common
  import opened Reachability
  import opened TrailModels

  /** A group node and the sources of its membership edges. */
  datatype Group = Group(node: string, coMembers: set<string>) {
    predicate Qualifies() {
      |coMembers| >= 2
    }

    function Shared(): set<string> {
      coMembers + {node}
    }

    predicate TouchedBy(members: set<string>) {
      Qualifies() && members * coMembers != {}
    }
  }

  // ---- The groups dictionary, in insertion order ----

  datatype GroupDict = GroupDict(order: seq<string>, members: map<string, set<string>>) {
    ghost predicate Valid() {
      NoDuplicates(order) && Elements(order) == members.Keys
    }

    /** `setdefault(key, set())` followed by adding `extra`. */
    function Add(key: string, extra: set<string>): (d: GroupDict)
      ensures Valid() ==> d.Valid()
    {
      if key in members then GroupDict(order, members[key := members[key] + extra])
      else GroupDict(order + [key], members[key := extra])
    }

    function Items(): (groups: seq<Group>)
      requires Valid()
    {
      seq(|order|, i requires 0 <= i < |order| =>
        assert order[i] in Elements(order); Group(order[i], members[order[i]]))
    }
  }

  function AddEdge(d: GroupDict, edge: GraphEdge, relation: string): (r: GroupDict)
    ensures d.Valid() ==> r.Valid()
  {
    if edge.relation == relation then d.Add(edge.dst, {edge.src}).Add(edge.src, {}) else d
  }

  function DictOf(edges: seq<GraphEdge>, relation: string): (d: GroupDict)
    ensures d.Valid()
  {
    if edges == [] then GroupDict([], map[])
    else AddEdge(DictOf(edges[..|edges|-1], relation), edges[|edges|-1], relation)
  }

  method CollectGroups(edges: seq<GraphEdge>, relation: string) returns (groups: seq<Group>)
    ensures groups == DictOf(edges, relation).Items()
  {
    var dict := GroupDict([], map[]);
    for i := 0 to |edges|
      invariant dict == DictOf(edges[..i], relation)
    {
      assert edges[..i+1][..i] == edges[..i];
      if edges[i].relation == relation {
        dict := dict.Add(edges[i].dst, {edges[i].src});
        dict := dict.Add(edges[i].src, {});
      }
    }
    assert edges[..|edges|] == edges;
    groups := dict.Items();
  }

  lemma AddEdgeEffect(d: GroupDict, edge: GraphEdge, relation: string)
    ensures var r := AddEdge(d, edge, relation).members;
      && (forall n :: n in r <==> n in d.members || (edge.relation == relation && (edge.src == n || edge.dst == n)))
      && (forall n, m :: n in r ==>
            (m in r[n] <==> (n in d.members && m in d.members[n]) || edge == GraphEdge(m, n, relation)))
  {
    if edge.relation == relation {
      var once := d.Add(edge.dst, {edge.src}).members;
      assert forall n :: n in once <==> n in d.members || n == edge.dst;
      assert forall n, m :: n in once ==>
          (m in once[n] <==> (n in d.members && m in d.members[n]) || (n == edge.dst && m == edge.src));
      var r := AddEdge(d, edge, relation).members;
      assert forall n :: n in r <==> n in once || n == edge.src;
      assert forall n, m :: n in r ==> (m in r[n] <==> n in once && m in once[n]);
    }
  }

  /** The dictionary holds every endpoint of a membership edge, each with exactly its co-members. */
  lemma {:induction false} DictHoldsCoMembers(edges: seq<GraphEdge>, relation: string)
    ensures forall n :: n in DictOf(edges, relation).members <==>
              exists e :: e in edges && e.relation == relation && (e.src == n || e.dst == n)
    ensures forall n, m :: n in DictOf(edges, relation).members ==>
              (m in DictOf(edges, relation).members[n] <==> GraphEdge(m, n, relation) in edges)
  {
    if edges != [] {
      var front, last := edges[..|edges|-1], edges[|edges|-1];
      assert forall e :: e in edges <==> e in front || e == last by {
        assert edges == front + [last];
      }
      DictHoldsCoMembers(front, relation);
      AddEdgeEffect(DictOf(front, relation), last, relation);
    }
  }

  /** The ends of the membership edges as they come, the group first. */
  function MembershipEnds(edges: seq<GraphEdge>, relation: string): seq<string> {
    if edges == [] then []
    else
      var last := edges[|edges|-1];
      MembershipEnds(edges[..|edges|-1], relation) + if last.relation == relation then [last.dst, last.src] else []
  }

  /** Groups stand in the order in which their nodes first come up. */
  lemma {:induction false} GroupsInOrder(edges: seq<GraphEdge>, relation: string)
    ensures DictOf(edges, relation).order == FirstOccurrences(MembershipEnds(edges, relation))
  {
    if edges != [] {
      hide FirstOccurrences, AddEdge;
      var front, last := edges[..|edges|-1], edges[|edges|-1];
      var ends, d := MembershipEnds(front, relation), DictOf(front, relation);
      GroupsInOrder(front, relation);
      assert DictOf(edges, relation) == AddEdge(d, last, relation);
      AddEdgeOrders(d, last, relation, ends);
    }
  }

  lemma AddEdgeOrders(d: GroupDict, edge: GraphEdge, relation: string, ends: seq<string>)
    requires d.Valid() && d.order == FirstOccurrences(ends)
    ensures AddEdge(d, edge, relation).order ==
              FirstOccurrences(ends + if edge.relation == relation then [edge.dst, edge.src] else [])
  {
    hide FirstOccurrences, NoDuplicates, GroupDict.Valid, GroupDict.Add, Elements;
    if edge.relation == relation {
      var once := d.Add(edge.dst, {edge.src});
      AddOrders(d, edge.dst, {edge.src}, ends);
      AddOrders(once, edge.src, {}, ends + [edge.dst]);
      assert ends + [edge.dst, edge.src] == ends + [edge.dst] + [edge.src];
    } else {
      assert ends + [] == ends;
    }
  }

  lemma AddOrders(d: GroupDict, key: string, extra: set<string>, ends: seq<string>)
    requires d.Valid() && d.order == FirstOccurrences(ends)
    ensures d.Add(key, extra).order == FirstOccurrences(ends + [key])
  {
    hide FirstOccurrences, NoDuplicates;
    FirstOccurrencesPush(ends, key);
    assert Elements(FirstOccurrences(ends)) == Elements(ends);
    assert key in ends <==> key in Elements(ends);
  }

  // ---- The sweep ----

  function Pull(group: Group, members: set<string>): set<string> {
    if group.TouchedBy(members) then members + group.Shared() else members
  }

  /** One pass over the groups in order. */
  function Sweep(groups: seq<Group>, members: set<string>): set<string> {
    if groups == [] then members
    else Pull(groups[|groups|-1], Sweep(groups[..|groups|-1], members))
  }

  function SrlgGroups(policy: TrailPolicy, edges: seq<GraphEdge>): seq<Group> {
    if policy.srlgRule.mode != "union-members" || policy.srlgRule.edgeType.None? || policy.srlgRule.edgeType.value == ""
    then [] else DictOf(edges, policy.srlgRule.edgeType.value).Items()
  }

  /** There are groups only under the union rule with a relation to go by: then one for each end of one of its
      edges, with the sources of the edges into that end. */
  lemma GroupsExactly(policy: TrailPolicy, edges: seq<GraphEdge>, g: Group)
    ensures g in SrlgGroups(policy, edges) <==>
      exists relation :: UnionsBy(policy, relation) && IsGroupOf(edges, relation, g)
  {
    hide DictOf;
    var rule := policy.srlgRule;
    if rule.mode == "union-members" && rule.edgeType.Some? && rule.edgeType.value != "" {
      var relation := rule.edgeType.value;
      var d := DictOf(edges, relation);
      DictHoldsCoMembers(edges, relation);
      assert UnionsBy(policy, relation) && forall r :: UnionsBy(policy, r) ==> r == relation;
      if g in SrlgGroups(policy, edges) {
        var k :| 0 <= k < |d.order| && d.Items()[k] == g;
        assert d.order[k] in Elements(d.order);
      }
      if IsGroupOf(edges, relation, g) {
        assert g.node in d.members;
        assert g.coMembers == d.members[g.node];
        assert g.node in Elements(d.order);
        var k :| 0 <= k < |d.order| && d.order[k] == g.node;
        assert d.Items()[k] == g;
      }
    } else {
      assert forall r :: !UnionsBy(policy, r);
    }
  }

  ghost predicate UnionsBy(policy: TrailPolicy, relation: string) {
    policy.srlgRule == SrlgRule("union-members", Some(relation)) && relation != ""
  }

  ghost predicate IsGroupOf(edges: seq<GraphEdge>, relation: string, g: Group) {
    && (exists e :: e in edges && e.relation == relation && (e.src == g.node || e.dst == g.node))
    && (forall m :: m in g.coMembers <==> GraphEdge(m, g.node, relation) in edges)
  }

  method UnionGroups(memberSets: seq<set<string>>, edges: seq<GraphEdge>, policy: TrailPolicy)
    returns (merged: seq<set<string>>)
    ensures |merged| == |memberSets|
    ensures forall i :: 0 <= i < |merged| ==> merged[i] == Sweep(SrlgGroups(policy, edges), memberSets[i])
  {
    hide DictOf, GroupDict.Valid, NoDuplicates, Elements;
    merged := memberSets;
    if policy.srlgRule.mode != "union-members" || policy.srlgRule.edgeType.None? ||
        policy.srlgRule.edgeType.value == "" {
      return;
    }
    var groups := CollectGroups(edges, policy.srlgRule.edgeType.value);
    for k := 0 to |groups|
      invariant |merged| == |memberSets|
      invariant forall i :: 0 <= i < |merged| ==> merged[i] == Sweep(groups[..k], memberSets[i])
    {
      var group := groups[k];
      assert groups[..k+1][..k] == groups[..k];
      if |group.coMembers| >= 2 {
        var shared := group.coMembers + {group.node};
        for i := 0 to |merged|
          invariant |merged| == |memberSets|
          invariant forall j :: 0 <= j < i ==> merged[j] == Sweep(groups[..k+1], memberSets[j])
          invariant forall j :: i <= j < |merged| ==> merged[j] == Sweep(groups[..k], memberSets[j])
        {
          if merged[i] * group.coMembers != {} {
            merged := merged[i := merged[i] + shared];
          }
        }
      }
    }
    assert groups[..|groups|] == groups;
  }

  /** Each endpoint of a membership edge has its group, and the group's co-members are the sources of
      membership edges into it. */
  lemma GroupOfNode(policy: TrailPolicy, edges: seq<GraphEdge>, n: string) returns (g: Group)
    requires policy.srlgRule.mode == "union-members" && policy.srlgRule.edgeType.Some? &&
      policy.srlgRule.edgeType.value != ""
    requires exists e :: e in edges && e.relation == policy.srlgRule.edgeType.value && (e.src == n || e.dst == n)
    ensures g in SrlgGroups(policy, edges) && g.node == n
    ensures forall m :: m in g.coMembers <==> GraphEdge(m, n, policy.srlgRule.edgeType.value) in edges
  {
    var dict := DictOf(edges, policy.srlgRule.edgeType.value);
    DictHoldsCoMembers(edges, policy.srlgRule.edgeType.value);
    assert n in Elements(dict.order);
    var i :| 0 <= i < |dict.order| && dict.order[i] == n;
    g := dict.Items()[i];
  }

  // ---- Laws of the sweep ----

  /** Every touched group is wholly present. */
  ghost predicate Complete(groups: seq<Group>, members: set<string>) {
    forall g :: g in groups && g.TouchedBy(members) ==> g.Shared() <= members
  }

  /** What the groups touched by `members` bring in. */
  ghost function PulledIn(groups: seq<Group>, members: set<string>): set<string> {
    set g, x | g in groups && g.TouchedBy(members) && x in g.Shared() :: x
  }

  /** For every grouping: nothing is lost, every group the original set touched is completed, and
      nothing is added beyond what any complete superset must hold. */
  lemma {:induction false} SweepBounds(groups: seq<Group>, members: set<string>)
    ensures members + PulledIn(groups, members) <= Sweep(groups, members)
    ensures forall s :: members <= s && Complete(groups, s) ==> Sweep(groups, members) <= s
  {
    if groups != [] {
      var front, last := groups[..|groups|-1], groups[|groups|-1];
      assert groups == front + [last];
      SweepBounds(front, members);
      forall s | members <= s && Complete(groups, s) ensures Sweep(groups, members) <= s {
        assert Complete(front, s);
        assert last in groups;
      }
    }
  }

  /** The sweep of a union is the union of the sweeps. */
  lemma {:induction false} SweepDistributes(groups: seq<Group>, a: set<string>, b: set<string>)
    ensures Sweep(groups, a + b) == Sweep(groups, a) + Sweep(groups, b)
  {
    if groups != [] {
      var front, last := groups[..|groups|-1], groups[|groups|-1];
      SweepDistributes(front, a, b);
      var x, y := Sweep(front, a), Sweep(front, b);
      assert (x + y) * last.coMembers == x * last.coMembers + y * last.coMembers;
    }
  }

  lemma SweepMonotone(groups: seq<Group>, a: set<string>, b: set<string>)
    requires a <= b
    ensures Sweep(groups, a) <= Sweep(groups, b)
  {
    SweepDistributes(groups, a, b);
    assert a + b == b;
  }

  /** A swept element comes from one element of the original set. */
  lemma {:induction false} SweepHasOrigin(groups: seq<Group>, members: set<string>, x: string)
    requires x in Sweep(groups, members)
    ensures exists y :: y in members && x in Sweep(groups, {y})
    decreases |members|
  {
    if members == {} {
      SweepOfNothing(groups);
    } else {
      var y :| y in members;
      var rest := members - {y};
      assert members == {y} + rest;
      SweepDistributes(groups, {y}, rest);
      if x !in Sweep(groups, {y}) { SweepHasOrigin(groups, rest, x); }
    }
  }

  lemma {:induction false} SweepOfNothing(groups: seq<Group>)
    ensures Sweep(groups, {}) == {}
  {
    if groups != [] { SweepOfNothing(groups[..|groups|-1]); }
  }

  // ---- When one pass is enough ----

  /** The group carries a trail that holds y on to x. */
  predicate Carries(g: Group, y: string, x: string) {
    g.Qualifies() && y in g.coMembers && x in g.Shared()
  }

  ghost function Carried(groups: seq<Group>): (string, string) -> bool {
    (y, x) => exists g :: g in groups && Carries(g, y, x)
  }

  /** From y to x by groups whose positions rise. */
  ghost predicate IsRising(groups: seq<Group>, positions: seq<nat>, path: seq<string>, y: string, x: string) {
    && |path| == |positions| + 1 && path[0] == y && path[|positions|] == x
    && (forall i ::
         0 <= i < |positions| ==> positions[i] < |groups| && Carries(groups[positions[i]], path[i], path[i + 1]))
    && (forall i, j :: 0 <= i < j < |positions| ==> positions[i] < positions[j])
  }

  ghost predicate Rises(groups: seq<Group>, y: string, x: string) {
    exists positions, path :: IsRising(groups, positions, path, y, x)
  }

  lemma RisesThenLast(groups: seq<Group>, y: string, z: string, x: string)
    requires groups != [] && Rises(groups[..|groups| - 1], y, z)
    ensures Rises(groups, y, z)
    ensures Carries(groups[|groups| - 1], z, x) ==> Rises(groups, y, x)
  {
    var positions: seq<nat>, path: seq<string> :| IsRising(groups[..|groups| - 1], positions, path, y, z);
    assert IsRising(groups, positions, path, y, z);
    if Carries(groups[|groups| - 1], z, x) {
      assert IsRising(groups, positions + [|groups| - 1], path + [x], y, x);
    }
  }

  lemma RisesWithout(groups: seq<Group>, y: string, x: string) returns (z: string)
    requires groups != [] && Rises(groups, y, x)
    ensures Rises(groups[..|groups| - 1], y, z)
    ensures z == x || Carries(groups[|groups| - 1], z, x)
  {
    var positions: seq<nat>, path: seq<string> :| IsRising(groups, positions, path, y, x);
    var n, front := |positions|, groups[..|groups| - 1];
    if n > 0 && positions[n - 1] == |groups| - 1 {
      z := path[n - 1];
      assert IsRising(front, positions[..n - 1], path[..n], y, z);
    } else {
      z := x;
      forall i | 0 <= i < n ensures positions[i] < |front| {
        if i < n - 1 { assert positions[i] < positions[n - 1]; }
      }
      assert IsRising(front, positions, path, y, z);
    }
  }

  lemma RisingNeedsGroups(groups: seq<Group>, positions: seq<nat>, path: seq<string>, y: string, x: string)
    requires IsRising(groups, positions, path, y, x) && positions != []
    ensures groups != []
  {
    assert positions[0] < |groups|;
  }

  /** One group with two co-members or more completes what it touches, and any other does nothing. */
  lemma SweepOfOneGroup(g: Group, members: set<string>)
    ensures Sweep([g], members) == if Shares(g) && Meets(g, members) then members + g.coMembers + {g.node} else members
  {
    assert [g][..0] == [];
    assert Sweep([g], members) == Pull(g, members);
    hide Sweep;
    TwoMembers(g.coMembers);
    MeetsExactly(g, members);
    assert members + (g.coMembers + {g.node}) == members + g.coMembers + {g.node};
  }

  ghost predicate Shares(g: Group) {
    exists a, b :: a in g.coMembers && b in g.coMembers && a != b
  }

  ghost predicate Meets(g: Group, members: set<string>) {
    exists x :: x in members && x in g.coMembers
  }

  lemma MeetsExactly(g: Group, members: set<string>)
    ensures Meets(g, members) <==> members * g.coMembers != {}
  {
    if x :| x in members && x in g.coMembers { assert x in members * g.coMembers; }
    if members * g.coMembers != {} { var x :| x in members * g.coMembers; }
  }

  lemma TwoMembers(s: set<string>)
    ensures |s| >= 2 <==> exists a, b :: a in s && b in s && a != b
  {
    if |s| >= 2 {
      var a :| a in s;
      assert |s - {a}| > 0;
      var b :| b in s - {a};
    }
    if a, b :| a in s && b in s && a != b {
      assert |s - {a} - {b}| == |s| - 2;
    }
  }

  /** A sweep from one element reaches exactly what rising groups carry it to. */
  lemma {:induction false} SweepRises(groups: seq<Group>, y: string, x: string)
    ensures x in Sweep(groups, {y}) <==> Rises(groups, y, x)
  {
    if groups == [] {
      if x == y { assert IsRising(groups, [], [y], y, x); }
      if positions: seq<nat>, path: seq<string> :| IsRising(groups, positions, path, y, x) {
        if positions != [] { RisingNeedsGroups(groups, positions, path, y, x); }
      }
    } else {
      var front, last := groups[..|groups| - 1], groups[|groups| - 1];
      SweepRises(front, y, x);
      if x in Sweep(groups, {y}) {
        if x in Sweep(front, {y}) {
          RisesThenLast(groups, y, x, x);
        } else {
          var z :| z in Sweep(front, {y}) && z in last.coMembers;
          SweepRises(front, y, z);
          RisesThenLast(groups, y, z, x);
        }
      }
      if Rises(groups, y, x) {
        var z := RisesWithout(groups, y, x);
        SweepRises(front, y, z);
        if z != x { assert z in Sweep(front, {y}) * last.coMembers; }
      }
    }
  }

  ghost predicate OnePassCompletes(groups: seq<Group>) {
    forall members: set<string> :: Complete(groups, Sweep(groups, members))
  }

  ghost predicate AllCarriesRise(groups: seq<Group>) {
    forall y, x :: Reaches(Carried(groups), y, x) ==> Rises(groups, y, x)
  }

  /** One pass completes every touched group for every member set if and only if whatever overlapping
      groups carry an element to, in any order, groups at rising positions carry it to as well. */
  lemma OnePassSufficesExactly(groups: seq<Group>)
    ensures OnePassCompletes(groups) <==> AllCarriesRise(groups)
  {
    hide Rises, Reaches, Sweep, Complete;
    if OnePassCompletes(groups) {
      forall y, x | Reaches(Carried(groups), y, x) ensures Rises(groups, y, x) {
        CompleteIsClosed(groups, y);
        ReachesStaysInside(Carried(groups), y, x, Sweep(groups, {y}));
        SweepRises(groups, y, x);
      }
    }
    if AllCarriesRise(groups) {
      forall members: set<string> ensures Complete(groups, Sweep(groups, members)) {
        RisingCompletes(groups, members);
      }
    }
  }

  lemma CompleteIsClosed(groups: seq<Group>, y: string)
    requires Complete(groups, Sweep(groups, {y}))
    ensures y in Sweep(groups, {y}) && ClosedUnder(Carried(groups), Sweep(groups, {y}))
  {
    hide Sweep;
    SweepBounds(groups, {y});
    var swept := Sweep(groups, {y});
    forall a, b | a in swept && Carried(groups)(a, b) ensures b in swept {
      var g :| g in groups && Carries(g, a, b);
      assert a in swept * g.coMembers;
    }
  }

  lemma RisingCompletes(groups: seq<Group>, members: set<string>)
    requires AllCarriesRise(groups)
    ensures Complete(groups, Sweep(groups, members))
  {
    hide Sweep, Rises, Reaches;
    var swept := Sweep(groups, members);
    forall h, x | h in groups && h.TouchedBy(swept) && x in h.Shared() ensures x in swept {
      var z :| z in swept && z in h.coMembers;
      SweepHasOrigin(groups, members, z);
      var y :| y in members && z in Sweep(groups, {y});
      SweepRises(groups, y, z);
      RisingReaches(groups, y, z);
      assert Carries(h, z, x);
      ReachesThenStep(Carried(groups), y, z, x);
      SweepRises(groups, y, x);
      SweepMonotone(groups, {y}, members);
    }
  }

  lemma RisingReaches(groups: seq<Group>, y: string, x: string)
    requires Rises(groups, y, x)
    ensures Reaches(Carried(groups), y, x)
  {
    var positions: seq<nat>, path: seq<string> :| IsRising(groups, positions, path, y, x);
    forall i | 0 < i < |path| ensures Carried(groups)(path[i - 1], path[i]) {
      assert groups[positions[i - 1]] in groups && Carries(groups[positions[i - 1]], path[i - 1], path[i]);
    }
    assert Joins(Carried(groups), path, y, x);
  }

  lemma {:induction false} UnsharedIsFixed(groups: seq<Group>, y: string)
    requires forall g :: g in groups && g.Qualifies() ==> y !in g.coMembers
    ensures Sweep(groups, {y}) == {y}
  {
    if groups != [] {
      UnsharedIsFixed(groups[..|groups|-1], y);
      assert groups[|groups|-1] in groups;
    }
  }

  /** Groups of two or more co-members are pairwise disjoint and none's node is a co-member of another. */
  ghost predicate Independent(groups: seq<Group>) {
    && NoDuplicates(groups)
    && forall g, h :: g in groups && h in groups && g != h && g.Qualifies() && h.Qualifies() ==>
         g.Shared() !! h.coMembers
  }

  /** For independent groups one pass adds exactly what the original set touches... */
  lemma {:induction false} IndependentSweep(groups: seq<Group>, members: set<string>)
    requires Independent(groups)
    ensures Sweep(groups, members) == members + PulledIn(groups, members)
  {
    if groups != [] {
      var front, last := groups[..|groups|-1], groups[|groups|-1];
      assert groups == front + [last];
      IndependentSweep(front, members);
      SweepBounds(groups, members);
      assert last !in front;
      if last.Qualifies() {
        assert PulledIn(front, members) !! last.coMembers;
      }
    }
  }

  /** ...so the result is complete and least, a second pass changes nothing, and the order in
      which the groups are visited does not matter. */
  lemma IndependentSweepIsFixpoint(groups: seq<Group>, reordered: seq<Group>, members: set<string>)
    requires Independent(groups) && NoDuplicates(reordered)
    requires Elements(reordered) == Elements(groups)
    ensures Complete(groups, Sweep(groups, members))
    ensures forall s :: members <= s && Complete(groups, s) ==> Sweep(groups, members) <= s
    ensures Sweep(groups, Sweep(groups, members)) == Sweep(groups, members)
    ensures Sweep(reordered, members) == Sweep(groups, members)
  {
    var swept := Sweep(groups, members);
    IndependentSweep(groups, members);
    SweepBounds(groups, members);
    forall g | g in groups && g.TouchedBy(swept) ensures g.Shared() <= swept {
      assert g.TouchedBy(members) by {
        var x :| x in swept && x in g.coMembers;
        if x !in members {
          var h :| h in groups && h.TouchedBy(members) && x in h.Shared();
          assert h == g;
        } else {
          assert x in members * g.coMembers;
        }
      }
    }
    SweepBounds(groups, swept);
    assert forall g :: g in reordered <==> g in Elements(groups);
    assert forall g :: g in groups <==> g in Elements(groups);
    IndependentSweep(reordered, members);
    assert PulledIn(reordered, members) == PulledIn(groups, members);
  }

  // ---- When one pass stops short ----

  function Membership(link: string, group: string): GraphEdge {
    GraphEdge(link, group, "MEMBER_OF")
  }

  function UnionMembers(): TrailPolicy {
    TrailPolicy([], Boundary("none", None), SrlgRule("union-members", Some("MEMBER_OF")))
  }

  /** Later edges add groups at the end only. */
  lemma {:induction false} DictOrderGrows(edges: seq<GraphEdge>, n: nat, relation: string)
    requires n <= |edges|
    ensures DictOf(edges[..n], relation).order <= DictOf(edges, relation).order
    decreases |edges|
  {
    if n == |edges| {
      assert edges[..n] == edges;
    } else {
      assert edges[..|edges| - 1][..n] == edges[..n];
      DictOrderGrows(edges[..|edges| - 1], n, relation);
    }
  }

  lemma {:induction false} SweepConcat(a: seq<Group>, b: seq<Group>, members: set<string>)
    ensures Sweep(a + b, members) == Sweep(b, Sweep(a, members))
  {
    if b == [] {
      assert a + b == a;
    } else {
      SweepConcat(a, b[..|b| - 1], members);
      assert (a + b)[..|a + b| - 1] == a + b[..|b| - 1];
    }
  }

  /** Only a touched group adds anything. */
  lemma {:induction false} SweepAddsOnly(groups: seq<Group>, members: set<string>, most: set<string>)
    requires members <= most
    requires forall g :: g in groups && g.TouchedBy(most) ==> g.Shared() <= most
    ensures Sweep(groups, members) <= most
  {
    if groups != [] {
      var front, last := groups[..|groups| - 1], groups[|groups| - 1];
      assert groups == front + [last];
      SweepAddsOnly(front, members, most);
      assert last.TouchedBy(Sweep(front, members)) ==> last.TouchedBy(most);
    }
  }

  /** The edges of two links x, y of group g, then of two links y, z of group h. */
  function TwoGroups(x: string, y: string, z: string, g: string, h: string): seq<GraphEdge> {
    [Membership(x, g), Membership(y, g), Membership(y, h), Membership(z, h)]
  }

  ghost predicate AreDistinct(x: string, y: string, z: string, g: string, h: string) {
    x != y && x != z && x != g && x != h && y != z && y != g && y != h && z != g && z != h && g != h
  }

  lemma KeysOfTwo(x: string, y: string, z: string, g: string, h: string)
    requires AreDistinct(x, y, z, g, h)
    ensures |TwoGroups(x, y, z, g, h)| == 4
    ensures var edges := TwoGroups(x, y, z, g, h);
            var first, dict := DictOf(edges[..2], "MEMBER_OF"), DictOf(edges, "MEMBER_OF");
            && first.order <= dict.order
            && g in first.members && h !in first.members && h in dict.members
  {
    hide DictOf, GroupDict.Valid;
    var edges := TwoGroups(x, y, z, g, h);
    assert edges[..2] == [Membership(x, g), Membership(y, g)];
    DictHoldsCoMembers(edges[..2], "MEMBER_OF");
    DictHoldsCoMembers(edges, "MEMBER_OF");
    DictOrderGrows(edges, 2, "MEMBER_OF");
    assert edges[..2][0] in edges[..2] && edges[2] in edges;
  }

  lemma EarlierKey(first: GroupDict, dict: GroupDict, g: string, h: string) returns (i: nat, j: nat)
    requires first.Valid() && dict.Valid() && first.order <= dict.order
    requires g in first.members && h !in first.members && h in dict.members
    ensures i < j < |dict.order| && dict.order[i] == g && dict.order[j] == h
  {
    assert g in Elements(first.order) && h in Elements(dict.order);
    i :| 0 <= i < |first.order| && first.order[i] == g;
    j :| 0 <= j < |dict.order| && dict.order[j] == h;
    assert dict.order[i] == first.order[i];
    forall k | 0 <= k < |first.order| ensures dict.order[k] != h {
      assert first.order[k] in Elements(first.order);
    }
  }

  /** Its groups: g before h, and no other that qualifies. */
  lemma GroupsOfTwo(x: string, y: string, z: string, g: string, h: string) returns (i: nat, j: nat)
    requires AreDistinct(x, y, z, g, h)
    ensures var groups := SrlgGroups(UnionMembers(), TwoGroups(x, y, z, g, h));
            && i < j < |groups| && groups[i] == Group(g, {x, y}) && groups[j] == Group(h, {y, z})
            && (forall k :: 0 <= k < |groups| && k != i && k != j ==> groups[k].coMembers == {})
  {
    hide DictOf, TwoGroups;
    var dict := DictOf(TwoGroups(x, y, z, g, h), "MEMBER_OF");
    var groups := SrlgGroups(UnionMembers(), TwoGroups(x, y, z, g, h));
    KeysOfTwo(x, y, z, g, h);
    i, j := EarlierKey(DictOf(TwoGroups(x, y, z, g, h)[..2], "MEMBER_OF"), dict, g, h);
    assert groups == dict.Items();
    forall k | 0 <= k < |groups|
        ensures groups[k] == Group(dict.order[k], if k == i then {x, y} else if k == j then {y, z} else {}) {
      assert dict.order[k] in Elements(dict.order);
      CoMembersOfTwo(x, y, z, g, h, dict.order[k]);
    }
  }

  lemma CoMembersOfTwo(x: string, y: string, z: string, g: string, h: string, n: string)
    requires AreDistinct(x, y, z, g, h) && n in DictOf(TwoGroups(x, y, z, g, h), "MEMBER_OF").members
    ensures DictOf(TwoGroups(x, y, z, g, h), "MEMBER_OF").members[n] == if n == g then {x, y} else
      if n == h then {y, z} else {}
  {
    hide DictOf;
    DictHoldsCoMembers(TwoGroups(x, y, z, g, h), "MEMBER_OF");
    var edges := TwoGroups(x, y, z, g, h);
    assert edges[0] in edges && edges[1] in edges && edges[2] in edges && edges[3] in edges;
  }

  lemma TouchedIsIn(groups: seq<Group>, k: nat, members: set<string>)
    requires k < |groups| && groups[k].TouchedBy(members)
    ensures members + groups[k].Shared() <= Sweep(groups, members)
  {
    hide Sweep;
    SweepBounds(groups, members);
    forall x | x in groups[k].Shared() ensures x in PulledIn(groups, members) {
      assert groups[k] in groups;
    }
  }

  lemma TouchesPair(node: string, a: string, b: string, members: set<string>)
    requires a != b
    ensures Group(node, {a, b}).TouchedBy(members) <==> a in members || b in members
  {
    assert |{a, b}| == 2;
    assert a in members ==> a in members * {a, b};
    assert b in members ==> b in members * {a, b};
  }

  /** Groups of which only two have co-members: g, with x and y, and later h, with y and z. */
  ghost predicate IsTwoGroups(groups: seq<Group>, i: nat, j: nat, x: string, y: string, z: string, g: string,
                              h: string) {
    && i < j < |groups| && groups[i] == Group(g, {x, y}) && groups[j] == Group(h, {y, z})
    && (forall k :: 0 <= k < |groups| && k != i && k != j ==> groups[k].coMembers == {})
  }

  /** The later group fires on z alone and brings in y, too late for the earlier group. */
  lemma LaterGroupComesTooLate(groups: seq<Group>, i: nat, j: nat, x: string, y: string, z: string, g: string,
                               h: string)
    requires AreDistinct(x, y, z, g, h) && IsTwoGroups(groups, i, j, x, y, z, g, h)
    ensures !Complete(groups, Sweep(groups, {z}))
  {
    hide Sweep, Group.TouchedBy;
    var before, from, most := groups[..j], groups[j..], {z, y, h};
    assert groups == before + from;
    SweepConcat(before, from, {z});
    TouchesPair(g, x, y, {z});
    NoCoMembersNoTouch({z});
    SweepAddsOnly(before, {z}, {z});
    NoCoMembersNoTouch(most);
    SweepAddsOnly(from, {z}, most);
    SweepBounds(before, {z});
    assert Sweep(before, {z}) == {z};
    TouchesPair(h, y, z, {z});
    TouchedIsIn(groups, j, {z});
    TouchesPair(g, x, y, Sweep(groups, {z}));
    assert groups[i] in groups && x in groups[i].Shared() && x !in most;
  }

  lemma NoCoMembersNoTouch(members: set<string>)
    ensures forall k: Group :: k.coMembers == {} ==> !k.TouchedBy(members)
  {
  }

  /** With the later group first, both fire. */
  lemma EarlierGroupInTime(groups: seq<Group>, j: nat, i: nat, x: string, y: string, z: string, g: string, h: string)
    requires AreDistinct(x, y, z, g, h) && IsTwoGroups(groups, j, i, z, y, x, h, g)
    ensures Complete(groups, Sweep(groups, {z}))
  {
    hide Sweep, Group.TouchedBy;
    var before, from := groups[..i], groups[i..];
    assert groups == before + from;
    SweepConcat(before, from, {z});
    TouchesPair(h, z, y, {z});
    TouchedIsIn(before, j, {z});
    var once := Sweep(before, {z});
    TouchesPair(g, y, x, once);
    TouchedIsIn(from, 0, once);
    SweepBounds(from, once);
    var all := Sweep(groups, {z});
    NoCoMembersNoTouch(all);
    forall k | k in groups && k.TouchedBy(all) ensures k.Shared() <= all {
      var n :| 0 <= n < |groups| && groups[n] == k;
    }
  }

  /** Whenever a link y lies in two groups, one pass over the edges in one order leaves a trail that holds
      z with y's other group incomplete, and over the same edges in another order completes it. */
  lemma OverlappingGroupsNeedOrder(x: string, y: string, z: string, g: string, h: string)
    requires AreDistinct(x, y, z, g, h)
    ensures var edges, reordered := TwoGroups(x, y, z, g, h), TwoGroups(z, y, x, h, g);
            var groups, others := SrlgGroups(UnionMembers(), edges), SrlgGroups(UnionMembers(), reordered);
            && multiset(edges) == multiset(reordered)
            && !Complete(groups, Sweep(groups, {z})) && Complete(others, Sweep(others, {z}))
  {
    hide SrlgGroups, Sweep, Complete;
    var i, j := GroupsOfTwo(x, y, z, g, h);
    LaterGroupComesTooLate(SrlgGroups(UnionMembers(), TwoGroups(x, y, z, g, h)), i, j, x, y, z, g, h);
    var k, l := GroupsOfTwo(z, y, x, h, g);
    EarlierGroupInTime(SrlgGroups(UnionMembers(), TwoGroups(z, y, x, h, g)), k, l, x, y, z, g, h);
  }
}
