/** Step 1 of the trail computation: the area-bounded closures of closure.py.

    The specification side speaks only of the graph: which areas a connector is anchored to,
    which nodes an area admits, and connected components. The methods below it are the
    worklists, each proved against that specification. */
module TrailClosure {
  import opened Common
  import opened Reachability
  import opened TrailModels

  datatype NodeInfo = NodeInfo(objectType: string, igpArea: Option<string>)

  datatype ClosureGraph = ClosureGraph(nodes: map<string, NodeInfo>, edges: seq<GraphEdge>) {
    ghost predicate WellFormed() {
      forall e :: e in edges ==> e.src in nodes && e.dst in nodes
    }

    predicate AreaLess(n: string) {
      n in nodes && nodes[n].igpArea.None?
    }

    function AreaLessNodes(): set<string> {
      set n | n in nodes && nodes[n].igpArea.None?
    }

    predicate InArea(n: string, area: string) {
      n in nodes && nodes[n].igpArea == Some(area)
    }

    /** Neighbours in the undirected view. */
    function Neighbors(n: string): (r: set<string>)
      ensures WellFormed() ==> r <= nodes.Keys
    {
      (set e | e in edges && e.src == n :: e.dst) + (set e | e in edges && e.dst == n :: e.src)
    }
  }

  /** A member set with the area it was bounded to (None when unbounded). */
  datatype Bounded = Bounded(members: set<string>, area: Option<string>)

  datatype Entry = Entry(members: set<string>, area: Option<string>, seed: string)

  function AreaKey(policy: TrailPolicy): Option<string> {
    if policy.boundary.kind == "igp-area" then policy.boundary.attributeKey else None
  }

  // ---- Graph construction ----

  predicate Kept(e: GraphEdge, nodes: set<string>, relations: set<string>) {
    e.relation in relations && e.src in nodes && e.dst in nodes
  }

  function KeptEdges(edges: seq<GraphEdge>, nodes: set<string>, relations: set<string>): (r: seq<GraphEdge>)
    ensures forall e :: e in r <==> e in edges && Kept(e, nodes, relations)
  {
    if edges == [] then []
    else
      var front := edges[..|edges|-1];
      var last := edges[|edges|-1];
      assert edges == front + [last];
      KeptEdges(front, nodes, relations) + if Kept(last, nodes, relations) then [last] else []
  }

  ghost function GraphOf(slice: Slice, policy: TrailPolicy): ClosureGraph {
    ClosureGraph(
      map id | id in slice.nodes :: NodeInfo(slice.nodes[id].objectType, slice.nodes[id].IgpArea(AreaKey(policy))),
      KeptEdges(slice.edges, slice.nodes.Keys, Elements(policy.closureEdgeTypes)))
  }

  /** Every slice node with its type and its attribute under the boundary key, when areas bound closures and
      the key is not empty; and the slice's edges of a closure relation between slice nodes. */
  lemma GraphOfExactly(slice: Slice, policy: TrailPolicy, id: string, area: string)
    ensures var g := GraphOf(slice, policy);
            && g.nodes.Keys == slice.nodes.Keys
            && (id in g.nodes ==> g.nodes[id].objectType == slice.nodes[id].objectType)
            && (g.InArea(id, area) <==>
                  && id in slice.nodes && policy.boundary.kind == "igp-area"
                  && exists key :: policy.boundary.attributeKey == Some(key) && key != "" &&
                       key in slice.nodes[id].attributes && slice.nodes[id].attributes[key] == Some(area))
            && (forall e :: e in g.edges <==>
                  && e in slice.edges && e.relation in policy.closureEdgeTypes
                  && e.src in slice.nodes && e.dst in slice.nodes)
  {
    assert forall r :: r in policy.closureEdgeTypes <==> r in Elements(policy.closureEdgeTypes);
  }

  lemma NeighborsExactly(g: ClosureGraph, a: string, b: string)
    ensures b in g.Neighbors(a) <==>
      exists e :: e in g.edges && ((e.src == a && e.dst == b) || (e.dst == a && e.src == b))
  {
  }

  method BuildGraph(slice: GraphSlice, policy: TrailPolicy) returns (g: ClosureGraph)
    requires slice.Valid()
    ensures g == GraphOf(slice.View(), policy)
    ensures g.WellFormed()
  {
    var key := AreaKey(policy);
    var nodes: map<string, NodeInfo> := map[];
    var todo := slice.nodes.Keys;
    while todo != {}
      invariant todo <= slice.nodes.Keys
      invariant nodes.Keys == slice.nodes.Keys - todo
      invariant forall id :: id in nodes ==>
                  nodes[id] == NodeInfo(slice.nodes[id].objectType, slice.nodes[id].IgpArea(key))
    {
      var id :| id in todo;
      var node := slice.nodes[id];
      nodes := nodes[node.managedObjectId := NodeInfo(node.objectType, node.IgpArea(key))];
      todo := todo - {id};
    }
    assert nodes.Keys == slice.nodes.Keys;
    var relations := Elements(policy.closureEdgeTypes);
    var edges: seq<GraphEdge> := [];
    for i := 0 to |slice.edges|
      invariant edges == KeptEdges(slice.edges[..i], nodes.Keys, relations)
    {
      var edge := slice.edges[i];
      assert slice.edges[..i+1][..i] == slice.edges[..i];
      if edge.relation in relations && edge.src in nodes && edge.dst in nodes {
        edges := edges + [edge];
      }
    }
    assert slice.edges[..|slice.edges|] == slice.edges;
    g := ClosureGraph(nodes, edges);
    assert g.nodes == GraphOf(slice.View(), policy).nodes;
  }

  // ---- Anchoring of area-less connectors ----

  /** `n` lies next to an object of `area`. */
  ghost predicate Conducts(g: ClosureGraph, n: string, area: string) {
    Touches(g, g.Neighbors(n), area)
  }

  ghost predicate Touches(g: ClosureGraph, members: set<string>, area: string) {
    exists m :: m in members && g.InArea(m, area)
  }

  /** `n` rides within `area`: an object of the area lies at distance one, or at distance two
      through an area-less object. */
  ghost predicate Anchored(g: ClosureGraph, n: string, area: string) {
    || Conducts(g, n, area)
    || exists k :: k in g.Neighbors(n) && g.AreaLess(k) && Conducts(g, k, area)
  }

  /** Some area-bearing object lies within two undirected hops of `n`. */
  ghost predicate AreaWithinTwoHops(g: ClosureGraph, n: string) {
    exists k, m, area ::
      k in g.Neighbors(n) && (m == k || m in g.Neighbors(k)) && g.InArea(m, area)
  }

  method ConnectorAreas(g: ClosureGraph, key: Option<string>) returns (ca: map<string, set<string>>)
    requires g.WellFormed()
    ensures key.None? ==> ca == map[]
    ensures key.Some? ==> ca.Keys == g.AreaLessNodes()
    ensures key.Some? ==> forall n, area :: n in ca ==> (area in ca[n] <==> Anchored(g, n, area))
  {
    if key.None? {
      return map[];
    }
    var areaLess := g.AreaLessNodes();
    var direct: map<string, set<string>> := map[];
    var todo := areaLess;
    while todo != {}
      invariant todo <= areaLess
      invariant direct.Keys == areaLess - todo
      invariant forall n, area :: n in direct ==> (area in direct[n] <==> Conducts(g, n, area))
    {
      var n :| n in todo;
      var areas: set<string> := {};
      var neighbors := g.Neighbors(n);
      while neighbors != {}
        invariant neighbors <= g.Neighbors(n)
        invariant forall area :: area in areas <==> Touches(g, g.Neighbors(n) - neighbors, area)
      {
        var nb :| nb in neighbors;
        assert g.Neighbors(n) - (neighbors - {nb}) == (g.Neighbors(n) - neighbors) + {nb};
        if g.nodes[nb].igpArea.Some? {
          areas := areas + {g.nodes[nb].igpArea.value};
        }
        neighbors := neighbors - {nb};
      }
      direct := direct[n := areas];
      todo := todo - {n};
    }
    ca := direct;
    todo := areaLess;
    while todo != {}
      invariant todo <= areaLess
      invariant ca.Keys == areaLess
      invariant forall n :: n in todo ==> ca[n] == direct[n]
      invariant forall n, area :: n in areaLess - todo ==> (area in ca[n] <==> Anchored(g, n, area))
    {
      var n :| n in todo;
      var neighbors := g.Neighbors(n);
      var areas := ca[n];
      while neighbors != {}
        invariant neighbors <= g.Neighbors(n)
        invariant forall area :: area in areas <==>
                    || area in direct[n]
                    || exists k :: k in g.Neighbors(n) - neighbors && k in direct && area in direct[k]
      {
        var nb :| nb in neighbors;
        if nb in direct {
          areas := areas + direct[nb];
        }
        neighbors := neighbors - {nb};
      }
      ca := ca[n := areas];
      todo := todo - {n};
    }
  }

  // ---- Components ----

  /** One undirected hop into `allow`. */
  ghost function Hop(g: ClosureGraph, allow: set<string>): (string, string) -> bool {
    (a, b) => b in allow && b in g.Neighbors(a)
  }

  ghost function Component(g: ClosureGraph, allow: set<string>, seed: string): set<string> {
    {seed} + set n | n in allow && Reaches(Hop(g, allow), seed, n)
  }

  /** `c` is a connected component of the subgraph induced by `allow`. */
  ghost predicate IsComponent(g: ClosureGraph, allow: set<string>, c: set<string>) {
    && c != {} && c <= allow
    && (forall a, b :: a in c && b in allow && b in g.Neighbors(a) ==> b in c)
    && (forall a, b :: a in c && b in c ==> Reaches(Hop(g, c), a, b))
  }

  predicate Admits(g: ClosureGraph, node: string, target: string, ca: map<string, set<string>>)
    requires node in g.nodes
  {
    if g.nodes[node].igpArea.Some? then g.nodes[node].igpArea.value == target
    else node in ca && target in ca[node]
  }

  ghost function AdmittedBy(g: ClosureGraph, target: Option<string>, ca: map<string, set<string>>): set<string> {
    if target.None? then g.nodes.Keys else set n | n in g.nodes && Admits(g, n, target.value, ca)
  }

  /** The nodes an area may hold: its own objects and the connectors anchored to it. */
  ghost function Admitted(g: ClosureGraph, area: string): set<string> {
    set n | n in g.nodes && (g.InArea(n, area) || (g.AreaLess(n) && Anchored(g, n, area)))
  }

  method Reachable(g: ClosureGraph, seed: string, target: Option<string>, ca: map<string, set<string>>)
    returns (reachable: set<string>)
    requires g.WellFormed() && seed in g.nodes
    ensures reachable == Component(g, AdmittedBy(g, target, ca), seed)
  {
    ghost var allow := AdmittedBy(g, target, ca);
    ghost var hop := Hop(g, allow);
    reachable := {seed};
    var frontier := [seed];
    ReachesSelf(hop, seed);
    while frontier != []
      invariant seed in reachable && reachable <= g.nodes.Keys
      invariant forall x :: x in frontier ==> x in reachable
      invariant forall x :: x in reachable ==> (x == seed || x in allow) && Reaches(hop, seed, x)
      invariant forall x, y :: x in reachable && x !in frontier && hop(x, y) ==> y in reachable
      decreases g.nodes.Keys - reachable, |frontier|
    {
      var current := frontier[|frontier|-1];
      frontier := frontier[..|frontier|-1];
      ghost var reachedBefore, frontierBefore := reachable, frontier;
      var neighbors := g.Neighbors(current);
      while neighbors != {}
        invariant neighbors <= g.Neighbors(current)
        invariant seed in reachable && reachedBefore <= reachable <= g.nodes.Keys
        invariant reachable == reachedBefore ==> frontier == frontierBefore
        invariant current in reachable
        invariant forall x :: x in frontier ==> x in reachable
        invariant forall x :: x in reachable ==> (x == seed || x in allow) && Reaches(hop, seed, x)
        invariant forall x, y :: x in reachable && x != current && x !in frontier && hop(x, y) ==> y in reachable
        invariant forall y :: hop(current, y) && y !in neighbors ==> y in reachable
      {
        var neighbor :| neighbor in neighbors;
        neighbors := neighbors - {neighbor};
        if neighbor !in reachable {
          if target.None? || Admits(g, neighbor, target.value, ca) {
            ReachesThenStep(hop, seed, current, neighbor);
            reachable := reachable + {neighbor};
            frontier := frontier + [neighbor];
          }
        }
      }
    }
    assert ClosedUnder(hop, reachable);
    forall n | n in Component(g, allow, seed) ensures n in reachable {
      if n != seed { ReachesStaysInside(hop, seed, n, reachable); }
    }
  }

  // ---- The closures of one seed ----

  ghost function Areas(g: ClosureGraph): set<string> {
    set n | n in g.nodes && g.nodes[n].igpArea.Some? :: g.nodes[n].igpArea.value
  }

  /** The areas a seed is bounded to: its own, or those it is anchored to. */
  ghost function TargetAreas(g: ClosureGraph, seed: string): set<string>
    requires seed in g.nodes
  {
    if g.nodes[seed].igpArea.Some? then {g.nodes[seed].igpArea.value}
    else set area | area in Areas(g) && Anchored(g, seed, area)
  }

  ghost function BoundedOf(g: ClosureGraph, key: Option<string>, seed: string): seq<Bounded>
    requires seed in g.nodes
  {
    if key.None? || TargetAreas(g, seed) == {} then
      [Bounded(Component(g, g.nodes.Keys, seed), None)]
    else
      var areas := Sorted(TargetAreas(g, seed));
      seq(|areas|, i requires 0 <= i < |areas| => Bounded(Component(g, Admitted(g, areas[i]), seed), Some(areas[i])))
  }

  ghost predicate IsConnectorAreas(g: ClosureGraph, key: Option<string>, ca: map<string, set<string>>) {
    && (key.None? ==> ca == map[])
    && (key.Some? ==> ca.Keys == g.AreaLessNodes())
    && (key.Some? ==> forall n, area :: n in ca ==> (area in ca[n] <==> Anchored(g, n, area)))
  }

  lemma AnchoredOnlyToAreas(g: ClosureGraph, n: string, area: string)
    requires Anchored(g, n, area)
    ensures area in Areas(g)
  {
    if !Conducts(g, n, area) {
      var k :| k in g.Neighbors(n) && g.AreaLess(k) && Conducts(g, k, area);
    }
  }

  method BoundedClosures(g: ClosureGraph, seed: string, key: Option<string>, ca: map<string, set<string>>)
    returns (r: seq<Bounded>)
    requires g.WellFormed() && seed in g.nodes && IsConnectorAreas(g, key, ca)
    ensures r == BoundedOf(g, key, seed)
  {
    if key.None? {
      var whole := Reachable(g, seed, None, ca);
      return [Bounded(whole, None)];
    }
    var targets := if g.nodes[seed].igpArea.Some? then {g.nodes[seed].igpArea.value} else ca[seed];
    ConnectorTargets(g, seed, key, ca);
    if targets == {} {
      var whole := Reachable(g, seed, None, ca);
      return [Bounded(whole, None)];
    }
    var areas := Sorted(targets);
    ghost var spec := BoundedOf(g, key, seed);
    r := [];
    for i := 0 to |areas|
      invariant |r| == i
      invariant forall j :: 0 <= j < i ==> r[j] == spec[j]
    {
      var members := Reachable(g, seed, Some(areas[i]), ca);
      AdmittedByArea(g, areas[i], key, ca);
      r := r + [Bounded(members, Some(areas[i]))];
    }
  }

  lemma ConnectorTargets(g: ClosureGraph, seed: string, key: Option<string>, ca: map<string, set<string>>)
    requires key.Some? && seed in g.nodes && IsConnectorAreas(g, key, ca)
    ensures g.AreaLess(seed) ==> ca[seed] == TargetAreas(g, seed)
  {
    forall area | g.AreaLess(seed) && Anchored(g, seed, area) ensures area in Areas(g) {
      AnchoredOnlyToAreas(g, seed, area);
    }
  }

  lemma AdmittedByArea(g: ClosureGraph, area: string, key: Option<string>, ca: map<string, set<string>>)
    requires key.Some? && IsConnectorAreas(g, key, ca)
    ensures AdmittedBy(g, Some(area), ca) == Admitted(g, area)
  {
  }

  // ---- What the closures are ----

  lemma NeighborsSymmetric(g: ClosureGraph, a: string, b: string)
    ensures b in g.Neighbors(a) <==> a in g.Neighbors(b)
  {
  }

  /** A path inside `allow` stays inside the component of its start. */
  lemma {:induction false} PathInsideComponent(g: ClosureGraph, allow: set<string>, seed: string, p: seq<string>,
                                               n: nat)
    requires IsPath(Hop(g, allow), p) && p[0] == seed && n < |p|
    ensures p[n] in Component(g, allow, seed)
    ensures Reaches(Hop(g, Component(g, allow, seed)), seed, p[n])
    decreases n
  {
    var hop, inner := Hop(g, allow), Hop(g, Component(g, allow, seed));
    PrefixJoins(hop, p, n);
    if n > 0 { assert hop(p[n-1], p[n]); }
    if n == 0 {
      ReachesSelf(inner, seed);
    } else {
      PathInsideComponent(g, allow, seed, p, n - 1);
      ReachesThenStep(inner, seed, p[n-1], p[n]);
    }
  }

  /** Each worklist result is exactly a connected component of what was admitted. */
  lemma ComponentIsComponent(g: ClosureGraph, allow: set<string>, seed: string)
    requires seed in allow
    ensures IsComponent(g, allow, Component(g, allow, seed))
  {
    var c := Component(g, allow, seed);
    var hop, inner := Hop(g, allow), Hop(g, c);
    ReachesSelf(hop, seed);
    forall a, b | a in c && b in allow && b in g.Neighbors(a) ensures b in c {
      ReachesThenStep(hop, seed, a, b);
    }
    forall a | a in c ensures Reaches(inner, seed, a) && Reaches(inner, a, seed) {
      var p :| Joins(hop, p, seed, a);
      PathInsideComponent(g, allow, seed, p, |p| - 1);
      var q :| Joins(inner, q, seed, a);
      ReversedWalk(g, c, q);
      assert Joins(inner, Reversed(q), a, seed);
    }
    forall a, b | a in c && b in c ensures Reaches(inner, a, b) {
      ReachesTransitive(inner, a, seed, b);
    }
  }

  lemma ReversedWalk(g: ClosureGraph, c: set<string>, q: seq<string>)
    requires IsPath(Hop(g, c), q) && q[0] in c
    ensures IsPath(Hop(g, c), Reversed(q))
  {
    var r, hop := Reversed(q), Hop(g, c);
    forall i | 0 < i < |r| ensures hop(r[i-1], r[i]) {
      var k := |q| - i;
      assert r[i-1] == q[k] && r[i] == q[k-1];
      assert hop(q[k-1], q[k]);
      NeighborsSymmetric(g, q[k-1], q[k]);
      if k > 1 { assert hop(q[k-2], q[k-1]); }
    }
  }

  /** Two components of one admitted set are the same or share nothing. */
  lemma ComponentsEqualOrDisjoint(g: ClosureGraph, allow: set<string>, c: set<string>, d: set<string>)
    requires IsComponent(g, allow, c) && IsComponent(g, allow, d)
    ensures c == d || c !! d
  {
    if x :| x in c && x in d {
      ComponentContains(g, allow, c, d, x);
      ComponentContains(g, allow, d, c, x);
    }
  }

  lemma ComponentContains(g: ClosureGraph, allow: set<string>, c: set<string>, d: set<string>, x: string)
    requires IsComponent(g, allow, c) && IsComponent(g, allow, d)
    requires x in c && x in d
    ensures c <= d
  {
    var s := c * d;
    forall y | y in c ensures y in d {
      assert Reaches(Hop(g, c), x, y);
      assert ClosedUnder(Hop(g, c), s);
      ReachesStaysInside(Hop(g, c), x, y, s);
    }
  }

  lemma SeedIsAdmitted(g: ClosureGraph, seed: string, area: string)
    requires seed in g.nodes && area in TargetAreas(g, seed)
    ensures seed in Admitted(g, area)
  {
  }

  /** Every closure of a seed holds the seed; bounded to an area it is a connected component of
      the nodes that area admits, and unbounded it is a whole component of the graph. */
  lemma BoundedSetIsComponent(g: ClosureGraph, key: Option<string>, seed: string, b: Bounded)
    requires seed in g.nodes && b in BoundedOf(g, key, seed)
    ensures seed in b.members
    ensures b.area.Some? ==> IsComponent(g, Admitted(g, b.area.value), b.members)
    ensures b.area.None? ==> IsComponent(g, g.nodes.Keys, b.members)
  {
    if b.area.Some? {
      SeedIsAdmitted(g, seed, b.area.value);
      ComponentIsComponent(g, Admitted(g, b.area.value), seed);
    } else {
      ComponentIsComponent(g, g.nodes.Keys, seed);
    }
  }

  /** Conversely every component of an area's admitted nodes is the closure of each of its members. */
  lemma EveryComponentIsAClosure(g: ClosureGraph, key: Option<string>, area: string, c: set<string>, seed: string)
    requires key.Some? && IsComponent(g, Admitted(g, area), c) && seed in c
    ensures Bounded(c, Some(area)) in BoundedOf(g, key, seed)
  {
    var allow := Admitted(g, area);
    if g.AreaLess(seed) { AnchoredOnlyToAreas(g, seed, area); }
    assert area in TargetAreas(g, seed);
    ComponentIsComponent(g, allow, seed);
    ComponentsEqualOrDisjoint(g, allow, c, Component(g, allow, seed));
    var areas := Sorted(TargetAreas(g, seed));
    assert area in Elements(areas);
    var i :| 0 <= i < |areas| && areas[i] == area;
    assert BoundedOf(g, key, seed)[i] == Bounded(c, Some(area));
  }

  /** Same area: equal or disjoint. Different areas: only connectors anchored to both are shared. */
  lemma ClosureOverlap(g: ClosureGraph, key: Option<string>, s: string, t: string, b: Bounded, d: Bounded)
    requires s in g.nodes && t in g.nodes && b in BoundedOf(g, key, s) && d in BoundedOf(g, key, t)
    requires b.area.Some? && d.area.Some?
    ensures b.area == d.area ==> b.members == d.members || b.members !! d.members
    ensures b.area != d.area ==> forall x :: x in b.members && x in d.members ==>
              g.AreaLess(x) && Anchored(g, x, b.area.value) && Anchored(g, x, d.area.value)
  {
    BoundedSetIsComponent(g, key, s, b);
    BoundedSetIsComponent(g, key, t, d);
    if b.area == d.area {
      ComponentsEqualOrDisjoint(g, Admitted(g, b.area.value), b.members, d.members);
    }
  }

  lemma AnchoredWithinTwoHops(g: ClosureGraph, n: string, area: string)
    requires Anchored(g, n, area)
    ensures AreaWithinTwoHops(g, n)
  {
    if Conducts(g, n, area) {
      var m :| m in g.Neighbors(n) && g.InArea(m, area);
    } else {
      var k :| k in g.Neighbors(n) && g.AreaLess(k) && Conducts(g, k, area);
      var m :| m in g.Neighbors(k) && g.InArea(m, area);
    }
  }

  /** With a boundary, the unbounded fallback is taken exactly by an area-less seed that has no
      area-bearing object within two hops: wider than the island the comment in closure.py names. */
  lemma FallbackExactly(g: ClosureGraph, key: Option<string>, seed: string)
    requires g.WellFormed() && key.Some? && seed in g.nodes
    ensures (exists b :: b in BoundedOf(g, key, seed) && b.area.None?)
       <==> g.AreaLess(seed) && !AreaWithinTwoHops(g, seed)
  {
    var areas := TargetAreas(g, seed);
    if g.AreaLess(seed) {
      forall area | area in areas ensures AreaWithinTwoHops(g, seed) {
        AnchoredWithinTwoHops(g, seed, area);
      }
      if AreaWithinTwoHops(g, seed) {
        var k, m, area :| k in g.Neighbors(seed) && (m == k || m in g.Neighbors(k)) && g.InArea(m, area);
        var near := if g.nodes[k].igpArea.Some? then g.nodes[k].igpArea.value else area;
        assert g.InArea(k, near) || Conducts(g, k, near);
        assert Anchored(g, seed, near);
        AnchoredOnlyToAreas(g, seed, near);
        assert near in areas;
      }
    }
    if areas == {} {
      assert BoundedOf(g, key, seed)[0].area.None?;
    }
  }

  // ---- A fallback that is no island ----

  /** A chain c, x, y of connectors, with an object n of one area and an object m of another beyond y. */
  function Chain(c: string, x: string, y: string, n: string, m: string, a: string, b: string): ClosureGraph {
    ClosureGraph(
      map[c := NodeInfo("IPLink", None), x := NodeInfo("LSP", None), y := NodeInfo("VPNService", None),
          n := NodeInfo("Node", Some(a)), m := NodeInfo("Node", Some(b))],
      [GraphEdge(c, x, "TRAVERSES"), GraphEdge(x, y, "SERVES"), GraphEdge(n, y, "SERVES"), GraphEdge(m, y, "SERVES")])
  }

  lemma ChainEdges(c: string, x: string, y: string, n: string, m: string, a: string, b: string)
    ensures var g := Chain(c, x, y, n, m, a, b);
            && g.WellFormed()
            && (forall e :: e in g.edges <==> e == GraphEdge(c, x, "TRAVERSES") || e == GraphEdge(x, y, "SERVES")
                                              || e == GraphEdge(n, y, "SERVES") || e == GraphEdge(m, y, "SERVES"))
  {
    var edges := Chain(c, x, y, n, m, a, b).edges;
    assert edges[0] in edges && edges[1] in edges && edges[2] in edges && edges[3] in edges;
  }

  lemma ChainNeighbors(c: string, x: string, y: string, n: string, m: string, a: string, b: string)
    requires c != x && c != y && c != n && c != m && x != y && x != n && x != m && y != n && y != m && n != m
    ensures var g := Chain(c, x, y, n, m, a, b);
            && g.WellFormed() && g.Neighbors(c) == {x} && g.Neighbors(x) == {c, y} && g.Neighbors(y) == {x, n, m}
  {
    hide Chain;
    var g := Chain(c, x, y, n, m, a, b);
    ChainEdges(c, x, y, n, m, a, b);
    assert GraphEdge(c, x, "TRAVERSES") in g.edges && GraphEdge(x, y, "SERVES") in g.edges;
    assert GraphEdge(n, y, "SERVES") in g.edges && GraphEdge(m, y, "SERVES") in g.edges;
  }

  /** A connector three hops from two areas is no area-less island, yet its closure is unbounded and holds
      objects of both. */
  lemma FallbackMixesAreas(c: string, x: string, y: string, n: string, m: string, a: string, b: string, key: string)
    returns (whole: Bounded)
    requires c != x && c != y && c != n && c != m && x != y && x != n && x != m && y != n && y != m && n != m
    ensures var g := Chain(c, x, y, n, m, a, b);
            && whole in BoundedOf(g, Some(key), c) && whole.area == None
            && n in whole.members && m in whole.members && g.InArea(n, a) && g.InArea(m, b)
  {
    hide BoundedOf, Component, ClosureGraph.Neighbors;
    var g := Chain(c, x, y, n, m, a, b);
    ChainNeighbors(c, x, y, n, m, a, b);
    FallbackExactly(g, Some(key), c);
    assert !AreaWithinTwoHops(g, c);
    whole :| whole in BoundedOf(g, Some(key), c) && whole.area.None?;
    BoundedSetIsComponent(g, Some(key), c, whole);
    assert x in whole.members;
    assert y in whole.members;
  }
}
