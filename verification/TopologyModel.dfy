/** The Core-IP topology generator of domains/coreip/topology_model.py. Vendors, models, capacities and
    other drawn attributes are not modelled; areas are. */
module TopologyModel {
  import opened Common
  import opened Decimals
  import opened ManagedObjectIds
  import opened SnapshotFiles
  import opened SnapshotWriter

  datatype TopologyParams = TopologyParams(nodeCount: nat, interfacesPerPort: nat, igpAreaCount: nat)

  datatype Role = RR | P | Peering | PE

  function RoleOf(i: nat): Role {
    if i % 7 == 6 then RR else if i % 3 == 0 then P else if i % 5 == 4 then Peering else PE
  }

  predicate IsEdgeRole(role: Role) {
    role == Peering || role == PE
  }

  function AreaName(k: nat): string {
    "area-" + Digits(k)
  }

  /** Backbone roles share area zero; edge roles take the numbered areas in turn. */
  function AreaForRole(role: Role, areaCount: nat, edgeAreaIndex: nat): string {
    if !IsEdgeRole(role) || areaCount <= 1 then AreaName(0) else AreaName(1 + edgeAreaIndex % (areaCount - 1))
  }

  // ---- What the layers keep ----

  function Id(objectType: string, id: string): string {
    objectType + ":" + id
  }

  /** What a topology holds, as a value. */
  datatype Layout = Layout(nodes: map<string, NodeData>, edges: map<Endpoints, string>) {
    function Put(objectType: string, id: string, igpArea: Option<string>): Layout {
      this.(nodes := nodes[Id(objectType, id) := NodeData(Some(objectType), igpArea)])
    }

    function Join(src: string, dst: string, relation: string): Layout {
      this.(edges := edges[(src, dst) := relation])
    }
  }

  ghost function View(g: DiGraph): Layout
    reads g
  {
    Layout(g.nodes, g.edges)
  }

  function SiteLayer(l: Layout, siteIds: seq<string>, n: nat): Layout
    requires n <= |siteIds|
  {
    if n == 0 then l else SiteLayer(l, siteIds, n - 1).Put("Site", siteIds[n - 1], None)
  }

  function NodeLayer(l: Layout, params: TopologyParams, siteIds: seq<string>, n: nat): Layout
    requires siteIds != []
  {
    if n == 0 then l
    else
      var i := n - 1;
      NodeLayer(l, params, siteIds, i)
        .Put("Node", NodeId(i), Some(AreaForRole(RoleOf(i), params.igpAreaCount, EdgeCount(i))))
        .Join(NodeName(i), SiteName(siteIds, i), "LOCATED_AT")
  }

  function InterfaceLayer(l: Layout, port: string, nodeId: string, area: Option<string>, n: nat): Layout {
    if n == 0 then l
    else
      InterfaceLayer(l, port, nodeId, area, n - 1)
        .Put("Interface", InterfaceId(nodeId, n - 1), area)
        .Join(port, Id("Interface", InterfaceId(nodeId, n - 1)), "HOSTS")
  }

  /** A line card and a port under the node, and interfaces under the port. */
  function HardwareOf(l: Layout, i: nat, perPort: nat): Layout {
    var card, port := NodeId(i) + "-LC1", NodeId(i) + "-LC1" + "-P1";
    var under := l.Put("LineCard", card, None).Put("Port", port, None)
      .Join(NodeName(i), Id("LineCard", card), "HOSTED_ON")
      .Join(Id("LineCard", card), Id("Port", port), "HOSTED_ON");
    InterfaceLayer(under, Id("Port", port), NodeId(i),
        if NodeName(i) in l.nodes then l.nodes[NodeName(i)].igpArea else None, perPort)
  }

  function HardwareLayer(l: Layout, perPort: nat, n: nat): Layout {
    if n == 0 then l else HardwareOf(HardwareLayer(l, perPort, n - 1), n - 1, perPort)
  }

  /** A link with its fiber span, adjacency, path and service. */
  function LinkOf(l: Layout, i: nat): Layout {
    var one, two, pair, path :=
        InterfaceName(i, 0), InterfaceName(i + 1, 0), PairId(NodeId(i), "_", NodeId(i + 1)),
            PairId(NodeId(i), "-", NodeId(i + 1)) + "-1";
    var link, adjacency := Id("IPLink", pair), Id("IGPAdjacency", pair);
    var joined := l.Put("IPLink", pair, None).Join(one, link, "TERMINATES").Join(two, link, "TERMINATES")
      .Put("FiberSpan", "F-" + pair, None).Join(Id("FiberSpan", "F-" + pair), link, "RIDES_ON")
      .Put("IGPAdjacency", pair, None).Join(one, adjacency, "ADJACENCY_OVER").Join(link, adjacency, "ADJACENCY_OVER");
    ServiceOf(joined, link, path, i)
  }

  function ServiceOf(l: Layout, link: string, path: string, i: nat): Layout {
    var service := "CUST-" + Digits(i % 5);
    var carried := l.Put("LSP", path, None).Join(link, Id("LSP", path), "TRAVERSES");
    (if Id("VPNService", service) in carried.nodes then carried else carried.Put("VPNService", service, None))
      .Join(Id("LSP", path), Id("VPNService", service), "SERVES")
  }

  function LinkLayer(l: Layout, n: nat): Layout {
    if n == 0 then l
    else
      var before := LinkLayer(l, n - 1);
      if InterfaceName(n - 1, 0) in before.nodes && InterfaceName(n, 0) in before.nodes then LinkOf(before, n - 1)
          else before
  }

  function GroupLayer(l: Layout, links: seq<string>, k: nat): Layout
    requires 2 * k <= |links|
  {
    if k == 0 then l
    else
      var group, one, two := GroupName(k - 1), links[2 * k - 2], links[2 * k - 1];
      GroupLayer(l, links, k - 1).Put("SRLG", "SRLG-" + Digits(k - 1), None)
        .Join(group, one, "MEMBER_OF").Join(group, two, "MEMBER_OF")
        .Join(one, group, "MEMBER_OF").Join(two, group, "MEMBER_OF")
  }

  /** The part after the first colon. */
  function Suffix(moid: string): string {
    var k := IndexOf(moid, ':');
    if k < |moid| then moid[k + 1..] else ""
  }

  ghost predicate Typed(nodes: map<string, NodeData>, id: string, objectType: string) {
    id in nodes && nodes[id].objectType == Some(objectType)
  }

  /** Areas only on devices and interfaces. */
  ghost predicate AreasOnDevices(nodes: map<string, NodeData>) {
    forall id :: id in nodes && nodes[id].igpArea.Some? ==> Typed(nodes, id, "Node") || Typed(nodes, id, "Interface")
  }

  ghost function AreasOf(nodes: map<string, NodeData>, objectType: string): set<Option<string>> {
    set id | id in nodes && Typed(nodes, id, objectType) :: nodes[id].igpArea
  }

  /** The membership edges. */
  ghost function Memberships(edges: map<Endpoints, string>): set<Endpoints> {
    set e | e in edges && edges[e] == "MEMBER_OF"
  }

  ghost predicate WellBuilt(g: DiGraph)
    reads g
  {
    g.Valid() && Clean(g.nodes) && AreasOnDevices(g.nodes) && Named(g.edges)
  }

  lemma TypedId(objectType: string, id: string)
    requires IsTypeToken(objectType) && IsIdentifier(id)
    ensures WellTyped(NodeRecord(Id(objectType, id), objectType)) && Suffix(Id(objectType, id)) == id
  {
    TokenHasNoColon(objectType);
    FirstColon(objectType, id);
    ValidExactly(Id(objectType, id));
  }

  function InterfaceId(nodeId: string, k: nat): string {
    nodeId + "-LC1-P1-if" + Digits(k)
  }

  function InterfaceName(i: nat, k: nat): string {
    Id("Interface", InterfaceId(NodeId(i), k))
  }

  /** Every interface has the area of the node that hosts it. */
  ghost predicate InterfaceAreas(nodes: map<string, NodeData>) {
    forall i: nat, k: nat :: InterfaceName(i, k) in nodes ==>
      NodeName(i) in nodes && nodes[InterfaceName(i, k)].igpArea == nodes[NodeName(i)].igpArea
  }

  lemma TypesApart(t: string, x: string, u: string, y: string)
    requires IsTypeToken(t) && IsTypeToken(u) && t != u
    ensures Id(t, x) != Id(u, y)
  {
    TokenHasNoColon(t);
    TokenHasNoColon(u);
    FirstColon(t, x);
    FirstColon(u, y);
    assert Id(t, x)[..|t|] == t && Id(u, y)[..|u|] == u;
  }

  lemma OtherLayersKeepInterfaceAreas(before: map<string, NodeData>, objectType: string, id: string, data: NodeData)
    requires IsTypeToken(objectType) && objectType != "Node" && objectType != "Interface"
    ensures InterfaceAreas(before) ==> InterfaceAreas(before[Id(objectType, id) := data])
  {
    hide IsTypeToken, Id, InterfaceId, NodeId;
    TypeTokens();
    forall i: nat, k: nat ensures InterfaceName(i, k) != Id(objectType, id) && NodeName(i) != Id(objectType, id) {
      TypesApart("Interface", InterfaceId(NodeId(i), k), objectType, id);
      TypesApart("Node", NodeId(i), objectType, id);
    }
  }

  /** Adds one object of a layer. No object of another type is affected. */
  method AddObject(g: DiGraph, objectType: string, id: string, igpArea: Option<string>)
    requires WellBuilt(g) && IsTypeToken(objectType) && IsIdentifier(id)
    requires igpArea.Some? ==> objectType == "Node" || objectType == "Interface"
    modifies g
    ensures WellBuilt(g) && g.edges == old(g.edges)
    ensures g.nodes == old(g.nodes)[Id(objectType, id) := NodeData(Some(objectType), igpArea)]
    ensures forall t :: t != objectType ==> AreasOf(g.nodes, t) == AreasOf(old(g.nodes), t)
    ensures AreasOf(old(g.nodes), objectType) + {igpArea} >= AreasOf(g.nodes, objectType)
    ensures Id(objectType, id) !in old(g.nodes) ==>
      AreasOf(g.nodes, objectType) == AreasOf(old(g.nodes), objectType) + {igpArea}
    ensures objectType != "Node" && objectType != "Interface" && InterfaceAreas(old(g.nodes)) ==>
      InterfaceAreas(g.nodes)
  {
    hide IsIdentifier, IsTypeToken, AreasOf, InterfaceAreas, Clean, AreasOnDevices;
    ObjectAdded(g.nodes, objectType, id, igpArea);
    g.AddNode(Id(objectType, id), NodeData(Some(objectType), igpArea));
  }

  lemma ObjectAdded(before: map<string, NodeData>, objectType: string, id: string, igpArea: Option<string>)
    requires Clean(before) && AreasOnDevices(before) && IsTypeToken(objectType) && IsIdentifier(id)
    requires igpArea.Some? ==> objectType == "Node" || objectType == "Interface"
    ensures var now := before[Id(objectType, id) := NodeData(Some(objectType), igpArea)];
            && Clean(now) && AreasOnDevices(now)
            && (forall t :: t != objectType ==> AreasOf(now, t) == AreasOf(before, t))
            && AreasOf(before, objectType) + {igpArea} >= AreasOf(now, objectType)
            && (Id(objectType, id) !in before ==> AreasOf(now, objectType) == AreasOf(before, objectType) + {igpArea})
            && (objectType != "Node" && objectType != "Interface" && InterfaceAreas(before) ==> InterfaceAreas(now))
  {
    hide IsValid, IsIdentifier, IsTypeToken, AreasOf, InterfaceAreas;
    TypedId(objectType, id);
    forall t
        ensures t != objectType ==>
          AreasOf(before[Id(objectType, id) := NodeData(Some(objectType), igpArea)], t) == AreasOf(before, t) {
      OtherTypesKeepAreas(before, objectType, id, igpArea, t);
    }
    OwnTypeAreas(before, objectType, id, igpArea);
    if objectType != "Node" && objectType != "Interface" {
      OtherLayersKeepInterfaceAreas(before, objectType, id, NodeData(Some(objectType), igpArea));
    }
  }

  lemma OtherTypesKeepAreas(before: map<string, NodeData>, objectType: string, id: string, igpArea: Option<string>,
                            t: string)
    requires Clean(before) && WellTyped(NodeRecord(Id(objectType, id), objectType))
    ensures t != objectType ==>
      AreasOf(before[Id(objectType, id) := NodeData(Some(objectType), igpArea)], t) == AreasOf(before, t)
  {
    hide IsValid;
    var now := before[Id(objectType, id) := NodeData(Some(objectType), igpArea)];
    if t != objectType {
      assert forall k :: Typed(now, k, t) <==> Typed(before, k, t);
      assert forall k :: Typed(now, k, t) ==> now[k] == before[k];
    }
  }

  lemma OwnTypeAreas(before: map<string, NodeData>, objectType: string, id: string, igpArea: Option<string>)
    ensures var moid := Id(objectType, id);
            var now := before[moid := NodeData(Some(objectType), igpArea)];
            && AreasOf(now, objectType) <= AreasOf(before, objectType) + {igpArea}
            && (moid !in before ==> AreasOf(now, objectType) == AreasOf(before, objectType) + {igpArea})
  {
    var moid := Id(objectType, id);
    var now := before[moid := NodeData(Some(objectType), igpArea)];
    forall a | a in AreasOf(now, objectType) ensures a in AreasOf(before, objectType) + {igpArea} {
      var k :| k in now && Typed(now, k, objectType) && now[k].igpArea == a;
      if k != moid { assert Typed(before, k, objectType); }
    }
    if moid !in before {
      assert Typed(now, moid, objectType);
      forall a | a in AreasOf(before, objectType) ensures a in AreasOf(now, objectType) {
        var k :| k in before && Typed(before, k, objectType) && before[k].igpArea == a;
        assert Typed(now, k, objectType);
      }
    }
  }

  /** Joins two objects that are there. */
  method Connect(g: DiGraph, src: string, dst: string, relation: string)
    requires WellBuilt(g) && src in g.nodes && dst in g.nodes && relation != ""
    modifies g
    ensures WellBuilt(g) && g.nodes == old(g.nodes) && g.edges == old(g.edges)[(src, dst) := relation]
    ensures relation != "MEMBER_OF" && Memberships(old(g.edges)) == {} ==> Memberships(g.edges) == {}
    ensures relation == "MEMBER_OF" ==> Memberships(g.edges) == Memberships(old(g.edges)) + {(src, dst)}
  {
    hide Clean, AreasOnDevices, Memberships, DiGraph.Valid;
    g.AddEdge(src, dst, relation);
    assert g.nodes.Keys == old(g.nodes).Keys;
    assert g.nodes == old(g.nodes);
    MembershipsWith(old(g.edges), (src, dst), relation);
  }

  lemma MembershipsWith(edges: map<Endpoints, string>, e: Endpoints, relation: string)
    ensures Memberships(edges[e := relation]) ==
      if relation == "MEMBER_OF" then Memberships(edges) + {e} else Memberships(edges) - {e}
  {
  }

  // ---- Areas: one for each edge node until all numbered areas are taken ----

  /** Edge nodes below `n`: every i with i mod 3 not 0 and i mod 7 not 6. */
  function EdgeCount(n: nat): nat {
    if n == 0 then 0 else EdgeCount(n - 1) + if (n - 1) % 3 != 0 && (n - 1) % 7 != 6 then 1 else 0
  }

  function AreaSet(last: nat): (s: set<string>)
    ensures AreaName(0) in s
  {
    if last == 0 then {AreaName(0)} else AreaSet(last - 1) + {AreaName(last)}
  }

  function NumberedAreas(areaCount: nat): nat {
    if areaCount > 0 then areaCount - 1 else 0
  }

  function Min(a: nat, b: nat): nat {
    if a < b then a else b
  }

  /** The areas the first `n` nodes use. */
  function AreasUsed(n: nat, areaCount: nat): set<string> {
    if n == 0 then {} else AreaSet(Min(EdgeCount(n), NumberedAreas(areaCount)))
  }

  lemma AreaNameInjective(a: nat, b: nat)
    ensures AreaName(a) == AreaName(b) <==> a == b
  {
    DigitsInjective(a, b);
    assert AreaName(a)[5..] == Digits(a) && AreaName(b)[5..] == Digits(b);
  }

  lemma {:induction false} AreaSetMembers(last: nat, k: nat)
    ensures AreaName(k) in AreaSet(last) <==> k <= last
  {
    hide AreaName;
    AreaNameInjective(k, last);
    if last > 0 { AreaSetMembers(last - 1, k); } else { AreaNameInjective(k, 0); }
  }

  lemma {:induction false} AreaSetCount(last: nat)
    ensures |AreaSet(last)| == last + 1
  {
    hide AreaName;
    if last > 0 {
      AreaSetCount(last - 1);
      AreaSetMembers(last - 1, last);
    }
  }

  /** One plus the smaller of the edge nodes and the numbered areas. */
  lemma AreasCounted(n: nat, areaCount: nat)
    requires n > 0
    ensures |AreasUsed(n, areaCount)| == 1 + Min(EdgeCount(n), NumberedAreas(areaCount))
  {
    AreaSetCount(Min(EdgeCount(n), NumberedAreas(areaCount)));
  }

  lemma EdgeRoles(i: nat)
    ensures IsEdgeRole(RoleOf(i)) <==> i % 3 != 0 && i % 7 != 6
    ensures EdgeCount(i + 1) == EdgeCount(i) + if IsEdgeRole(RoleOf(i)) then 1 else 0
    ensures i == 0 ==> !IsEdgeRole(RoleOf(i)) && EdgeCount(i) == 0
  {
  }

  lemma NextNodeArea(i: nat, areaCount: nat)
    ensures EdgeCount(i + 1) == EdgeCount(i) + if IsEdgeRole(RoleOf(i)) then 1 else 0
    ensures AreasUsed(i + 1, areaCount) == AreasUsed(i, areaCount) + {AreaForRole(RoleOf(i), areaCount, EdgeCount(i))}
  {
    hide AreaName, RoleOf, EdgeCount, AreaSet, AreaForRole;
    EdgeRoles(i);
    FirstArea();
    NextArea(RoleOf(i), areaCount, EdgeCount(i));
  }

  lemma FirstArea()
    ensures AreaSet(0) == {AreaName(0)}
  {
  }

  /** An edge node takes the next numbered area, or one already taken. */
  lemma NextArea(role: Role, areaCount: nat, e: nat)
    ensures var m := NumberedAreas(areaCount);
            var now := if IsEdgeRole(role) then e + 1 else e;
            AreaSet(Min(now, m)) == AreaSet(Min(e, m)) + {AreaForRole(role, areaCount, e)}
  {
    hide AreaName, AreaSet;
    var m := NumberedAreas(areaCount);
    if IsEdgeRole(role) && m > 0 {
      if e < m {
        assert e % m == e;
        AreaSetGrows(e);
      } else {
        assert 0 <= e % m < m;
        AreaSetMembers(m, 1 + e % m);
      }
    }
  }

  lemma AreaSetGrows(e: nat)
    ensures AreaSet(e + 1) == AreaSet(e) + {AreaName(e + 1)}
  {
  }

  // ---- Names ----

  lemma TypeTokens()
    ensures IsTypeToken("Site") && IsTypeToken("Node") && IsTypeToken("LineCard") && IsTypeToken("Port") &&
      IsTypeToken("Interface")
    ensures IsTypeToken("IPLink") && IsTypeToken("FiberSpan") && IsTypeToken("IGPAdjacency") && IsTypeToken("LSP")
    ensures IsTypeToken("VPNService") && IsTypeToken("SRLG")
  {
  }

  /** No colon, and not empty: fit for the second part of an id. */
  lemma Identifiers(a: string, b: string)
    requires IsIdentifier(a)
    ensures ':' !in b ==> IsIdentifier(a + b) && IsIdentifier(b + a)
  {
  }

  lemma NumberIsIdentifier(n: nat)
    ensures IsIdentifier(Digits(n))
  {
    DigitsRoundTrip(n);
  }

  function NodeId(i: nat): string {
    "N" + Digits(i)
  }

  function NodeName(i: nat): string {
    Id("Node", NodeId(i))
  }

  lemma NodeIdentifier(i: nat)
    ensures IsIdentifier(NodeId(i)) && Suffix(NodeName(i)) == NodeId(i)
  {
    hide Digits, IsTypeToken, IsIdentifier;
    NumberIsIdentifier(i);
    Identifiers(Digits(i), "N");
    TypeTokens();
    TypedId("Node", NodeId(i));
  }

  lemma NodeNames(i: nat)
    ensures IsIdentifier(NodeId(i)) && Suffix(NodeName(i)) == NodeId(i)
    ensures forall j: nat :: NodeName(i) == NodeName(j) <==> i == j
  {
    hide Digits, IsIdentifier;
    NodeIdentifier(i);
    forall j: nat ensures NodeName(i) == NodeName(j) <==> i == j {
      DigitsInjective(i, j);
      assert NodeName(j)[6..] == Digits(j) && NodeName(i)[6..] == Digits(i);
    }
  }

  ghost predicate NodesNamed(nodes: seq<string>) {
    forall i :: 0 <= i < |nodes| ==> nodes[i] == NodeName(i)
  }

  ghost predicate NodesPresent(nodes: map<string, NodeData>, n: nat) {
    forall i :: 0 <= i < n ==> NodeName(i) in nodes
  }

  function SiteName(siteIds: seq<string>, i: nat): string
    requires siteIds != []
  {
    Id("Site", siteIds[i % |siteIds|])
  }

  function Somes(s: set<string>): set<Option<string>> {
    set a | a in s :: Some(a)
  }

  // ---- The layers ----

  method PlaceSites(g: DiGraph, siteIds: seq<string>)
    requires WellBuilt(g) && forall i :: 0 <= i < |siteIds| ==> IsIdentifier(siteIds[i])
    modifies g
    ensures WellBuilt(g) && View(g) == SiteLayer(old(View(g)), siteIds, |siteIds|) && g.edges == old(g.edges)
    ensures forall t :: t != "Site" ==> AreasOf(g.nodes, t) == AreasOf(old(g.nodes), t)
    ensures forall i :: 0 <= i < |siteIds| ==> Id("Site", siteIds[i]) in g.nodes
  {
    hide WellBuilt, AreasOf, IsIdentifier, IsTypeToken;
    TypeTokens();
    for i := 0 to |siteIds|
      invariant WellBuilt(g) && View(g) == SiteLayer(old(View(g)), siteIds, i) && g.edges == old(g.edges)
      invariant forall t :: t != "Site" ==> AreasOf(g.nodes, t) == AreasOf(old(g.nodes), t)
      invariant forall k :: 0 <= k < i ==> Id("Site", siteIds[k]) in g.nodes
    {
      AddObject(g, "Site", siteIds[i], None);
    }
  }

  lemma NothingUsedYet(areaCount: nat)
    ensures AreasUsed(0, areaCount) == {} && Somes({}) == {} && EdgeCount(0) == 0
  {
  }

  lemma NodeHasItsType(g: DiGraph, i: nat)
    requires WellBuilt(g)
    ensures NodeName(i) in g.nodes ==> g.nodes[NodeName(i)].igpArea in AreasOf(g.nodes, "Node")
  {
    NodeNames(i);
    TypeTokens();
    TypedId("Node", NodeId(i));
    assert NodeName(i) in g.nodes ==> Typed(g.nodes, NodeName(i), "Node");
  }

  method PlaceNode(g: DiGraph, params: TopologyParams, siteIds: seq<string>, i: nat, edgeAreaIndex: nat)
      returns (moid: string, area: string)
    requires WellBuilt(g) && siteIds != [] && NodeName(i) !in g.nodes && Id("Site", siteIds[i % |siteIds|]) in g.nodes
    modifies g
    ensures WellBuilt(g) && moid == NodeName(i) && area == AreaForRole(RoleOf(i), params.igpAreaCount, edgeAreaIndex)
    ensures g.nodes == old(g.nodes)[moid := NodeData(Some("Node"), Some(area))]
    ensures g.edges == old(g.edges)[(moid, SiteName(siteIds, i)) := "LOCATED_AT"]
    ensures View(g) == old(View(g)).Put("Node", NodeId(i), Some(area)).Join(moid, SiteName(siteIds, i), "LOCATED_AT")
    ensures Memberships(old(g.edges)) == {} ==> Memberships(g.edges) == {}
    ensures AreasOf(g.nodes, "Node") == AreasOf(old(g.nodes), "Node") + {Some(area)}
    ensures forall t :: t != "Node" ==> AreasOf(g.nodes, t) == AreasOf(old(g.nodes), t)
  {
    hide WellBuilt, AreasOf, IsIdentifier, IsTypeToken, Memberships, RoleOf, AreaForRole, NodeId;
    TypeTokens();
    NodeNames(i);
    area := AreaForRole(RoleOf(i), params.igpAreaCount, edgeAreaIndex);
    AddObject(g, "Node", NodeId(i), Some(area));
    moid := NodeName(i);
    Connect(g, moid, SiteName(siteIds, i), "LOCATED_AT");
  }

  /** Nodes, each with its role's area and at a site. */
  method PlaceNodes(g: DiGraph, params: TopologyParams, siteIds: seq<string>)
      returns (nodes: seq<string>, areas: set<string>)
    requires WellBuilt(g) && siteIds != [] && AreasOf(g.nodes, "Node") == {} && Memberships(g.edges) == {}
    requires forall i :: 0 <= i < |siteIds| ==> Id("Site", siteIds[i]) in g.nodes
    modifies g
    ensures WellBuilt(g) && Memberships(g.edges) == {}
    ensures View(g) == NodeLayer(old(View(g)), params, siteIds, params.nodeCount)
    ensures |nodes| == params.nodeCount && NodesNamed(nodes) && NodesPresent(g.nodes, |nodes|)
    ensures areas == AreasUsed(params.nodeCount, params.igpAreaCount) && AreasOf(g.nodes, "Node") == Somes(areas)
    ensures AreasOf(g.nodes, "Interface") == AreasOf(old(g.nodes), "Interface")
    ensures forall i :: 0 <= i < |nodes| ==> (nodes[i], SiteName(siteIds, i)) in g.edges
  {
    hide WellBuilt, AreasOf, AreasUsed, Memberships, RoleOf, AreaForRole, NodeName, SiteName, Somes, EdgeCount, Id,
         IsEdgeRole, NodeLayer,
         View, Layout.Put, Layout.Join, NodeId;
    nodes, areas := [], {};
    var edgeAreaIndex := 0;
    forall j: nat ensures NodeName(j) !in g.nodes { NodeHasItsType(g, j); }
    NothingUsedYet(params.igpAreaCount);
    NextNodeLayer(View(g), params, siteIds, 0);
    for i := 0 to params.nodeCount
      invariant WellBuilt(g) && Memberships(g.edges) == {}
      invariant View(g) == NodeLayer(old(View(g)), params, siteIds, i)
      invariant |nodes| == i && NodesNamed(nodes) && NodesPresent(g.nodes, i)
      invariant edgeAreaIndex == EdgeCount(i) && areas == AreasUsed(i, params.igpAreaCount)
      invariant AreasOf(g.nodes, "Node") == Somes(areas) &&
        AreasOf(g.nodes, "Interface") == AreasOf(old(g.nodes), "Interface")
      invariant forall k :: 0 <= k < |siteIds| ==> Id("Site", siteIds[k]) in g.nodes
      invariant forall k :: 0 <= k < i ==> (nodes[k], SiteName(siteIds, k)) in g.edges
      invariant forall j: nat :: i <= j ==> NodeName(j) !in g.nodes
    {
      NextNodeArea(i, params.igpAreaCount);
      NodeNames(i);
      var moid, area := PlaceNode(g, params, siteIds, i, edgeAreaIndex);
      NextNodeLayer(old(View(g)), params, siteIds, i);
      SomesGrows(areas, area);
      if IsEdgeRole(RoleOf(i)) { edgeAreaIndex := edgeAreaIndex + 1; }
      areas := areas + {area};
      nodes := nodes + [moid];
    }
  }

  lemma NextNodeLayer(l: Layout, params: TopologyParams, siteIds: seq<string>, i: nat)
    requires siteIds != []
    ensures NodeLayer(l, params, siteIds, 0) == l
    ensures NodeLayer(l, params, siteIds, i + 1) ==
              NodeLayer(l, params, siteIds, i)
                .Put("Node", NodeId(i), Some(AreaForRole(RoleOf(i), params.igpAreaCount, EdgeCount(i))))
                .Join(NodeName(i), SiteName(siteIds, i), "LOCATED_AT")
  {
  }

  lemma SomesGrows(s: set<string>, a: string)
    ensures Somes(s + {a}) == Somes(s) + {Some(a)}
  {
    assert forall x :: x in Somes(s + {a}) <==> x.Some? && x.value in s + {a};
  }

  lemma NodeIdsAreMarkless(i: nat)
    ensures '-' !in NodeId(i) && '_' !in NodeId(i)
  {
    DigitsRoundTrip(i);
  }

  lemma NodeIds(i: nat, j: nat)
    ensures NodeId(i) == NodeId(j) <==> i == j
  {
    DigitsInjective(i, j);
    assert Digits(i) == NodeId(i)[1..] && Digits(j) == NodeId(j)[1..];
  }

  lemma InterfaceIdSplits(i: nat, k: nat)
    ensures InterfaceId(NodeId(i), k) == NodeId(i) + ['-'] + ("LC1-P1-if" + Digits(k))
  {
    hide NodeId, Digits;
    assert "-LC1-P1-if" == ['-'] + "LC1-P1-if";
  }

  /** An interface's name tells its node. */
  lemma InterfaceNames(i: nat, k: nat, j: nat, l: nat)
    ensures InterfaceName(i, k) == InterfaceName(j, l) ==> i == j
  {
    hide Digits, NodeId, InterfaceId;
    if InterfaceName(i, k) == InterfaceName(j, l) {
      assert InterfaceName(i, k)[10..] == InterfaceId(NodeId(i), k) &&
          InterfaceName(j, l)[10..] == InterfaceId(NodeId(j), l);
      InterfaceIdSplits(i, k);
      InterfaceIdSplits(j, l);
      NodeIdsAreMarkless(i);
      NodeIdsAreMarkless(j);
      HeadsAgree(NodeId(i), "LC1-P1-if" + Digits(k), NodeId(j), "LC1-P1-if" + Digits(l), '-');
      NodeIds(i, j);
    }
  }

  lemma InterfaceIdentifier(i: nat, k: nat)
    ensures IsIdentifier(InterfaceId(NodeId(i), k))
  {
    hide NodeId;
    NodeNames(i);
    DigitsRoundTrip(k);
    Identifiers(NodeId(i), "-LC1-P1-if");
    Identifiers(NodeId(i) + "-LC1-P1-if", Digits(k));
  }

  /** One interface under a node, with that node's area. */
  method PlaceInterface(g: DiGraph, port: string, nodeId: string, area: Option<string>, k: nat, ghost i: nat)
    requires WellBuilt(g) && InterfaceAreas(g.nodes) && nodeId == NodeId(i) && port in g.nodes
    requires NodeName(i) in g.nodes && g.nodes[NodeName(i)].igpArea == area
    modifies g
    ensures WellBuilt(g) && InterfaceAreas(g.nodes)
    ensures View(g) ==
      old(View(g)).Put("Interface", InterfaceId(nodeId, k), area).Join(port, Id("Interface", InterfaceId(nodeId, k)),
          "HOSTS")
    ensures old(g.nodes).Keys + {InterfaceName(i, k)} == g.nodes.Keys && (port, InterfaceName(i, k)) in g.edges
    ensures g.nodes[NodeName(i)] == old(g.nodes)[NodeName(i)]
    ensures Memberships(old(g.edges)) == {} ==> Memberships(g.edges) == {}
    ensures AreasOf(g.nodes, "Node") == AreasOf(old(g.nodes), "Node")
    ensures forall j: nat :: NodeName(j) in g.nodes <==> NodeName(j) in old(g.nodes)
    ensures old(g.edges).Keys <= g.edges.Keys
  {
    hide WellBuilt, AreasOf, Memberships, IsTypeToken, IsIdentifier, InterfaceId, NodeId, Id;
    TypeTokens();
    InterfaceIdentifier(i, k);
    forall j: nat ensures NodeName(j) != InterfaceName(i, k) {
      TypesApart("Node", NodeId(j), "Interface", InterfaceId(NodeId(i), k));
    }
    forall j: nat, l: nat ensures InterfaceName(i, k) == InterfaceName(j, l) ==> i == j { InterfaceNames(i, k, j, l); }
    AddObject(g, "Interface", InterfaceId(nodeId, k), area);
    Connect(g, port, Id("Interface", InterfaceId(nodeId, k)), "HOSTS");
  }

  /** The interfaces of the nodes below `n`: `perPort` of them each, with their node's area. */
  ghost predicate InterfacesPresent(nodes: map<string, NodeData>, n: nat, perPort: nat) {
    forall i: nat, k: nat :: i < n && k < perPort ==> InterfaceName(i, k) in nodes
  }

  /** A port's interfaces. */
  method PlaceInterfaces(g: DiGraph, port: string, nodeId: string, area: Option<string>, perPort: nat, ghost i: nat)
    requires WellBuilt(g) && InterfaceAreas(g.nodes) && nodeId == NodeId(i) && port in g.nodes
    requires NodeName(i) in g.nodes && g.nodes[NodeName(i)].igpArea == area && Memberships(g.edges) == {}
    modifies g
    ensures WellBuilt(g) && InterfaceAreas(g.nodes) && Memberships(g.edges) == {}
    ensures View(g) == InterfaceLayer(old(View(g)), port, nodeId, area, perPort)
    ensures old(g.nodes).Keys <= g.nodes.Keys && old(g.edges).Keys <= g.edges.Keys
    ensures AreasOf(g.nodes, "Node") == AreasOf(old(g.nodes), "Node")
    ensures forall k :: 0 <= k < perPort ==> InterfaceName(i, k) in g.nodes
  {
    hide WellBuilt, AreasOf, Memberships, InterfaceId, InterfaceName, NodeId, NodeName, InterfaceAreas, Id;
    for k := 0 to perPort
      invariant View(g) == InterfaceLayer(old(View(g)), port, nodeId, area, k)
      invariant WellBuilt(g) && InterfaceAreas(g.nodes) && Memberships(g.edges) == {}
      invariant old(g.nodes).Keys <= g.nodes.Keys && old(g.edges).Keys <= g.edges.Keys
      invariant g.nodes[NodeName(i)].igpArea == area
      invariant AreasOf(g.nodes, "Node") == AreasOf(old(g.nodes), "Node")
      invariant forall l :: 0 <= l < k ==> InterfaceName(i, l) in g.nodes
    {
      PlaceInterface(g, port, nodeId, area, k, i);
    }
  }

  /** A node's line card, port and interfaces. */
  method PlaceHardwareOf(g: DiGraph, node: string, params: TopologyParams, ghost i: nat)
    requires WellBuilt(g) && InterfaceAreas(g.nodes) && node == NodeName(i) && node in g.nodes &&
      Memberships(g.edges) == {}
    modifies g
    ensures WellBuilt(g) && InterfaceAreas(g.nodes) && Memberships(g.edges) == {}
    ensures View(g) == HardwareOf(old(View(g)), i, params.interfacesPerPort)
    ensures old(g.nodes).Keys <= g.nodes.Keys && old(g.edges).Keys <= g.edges.Keys
    ensures AreasOf(g.nodes, "Node") == AreasOf(old(g.nodes), "Node")
    ensures forall k :: 0 <= k < params.interfacesPerPort ==> InterfaceName(i, k) in g.nodes
  {
    hide WellBuilt, AreasOf, Memberships, IsTypeToken, IsIdentifier, InterfaceId, InterfaceName, NodeId, NodeName,
         Suffix, InterfaceAreas, Id, DiGraph.Valid;
    TypeTokens();
    NodeNames(i);
    var nodeId := Suffix(node);
    var area := g.nodes[node].igpArea;
    Identifiers(nodeId, "-LC1");
    Identifiers(nodeId + "-LC1", "-P1");
    NodeApart(i, "LineCard", nodeId + "-LC1");
    NodeApart(i, "Port", nodeId + "-LC1" + "-P1");
    AddObject(g, "LineCard", nodeId + "-LC1", None);
    AddObject(g, "Port", nodeId + "-LC1" + "-P1", None);
    var card, port := Id("LineCard", nodeId + "-LC1"), Id("Port", nodeId + "-LC1" + "-P1");
    Connect(g, node, card, "HOSTED_ON");
    Connect(g, card, port, "HOSTED_ON");
    PlaceInterfaces(g, port, nodeId, area, params.interfacesPerPort, i);
  }

  lemma NodeApart(i: nat, objectType: string, id: string)
    requires IsTypeToken(objectType) && objectType != "Node"
    ensures NodeName(i) != Id(objectType, id)
  {
    TypeTokens();
    TypesApart("Node", NodeId(i), objectType, id);
  }

  method PlaceHardware(g: DiGraph, nodes: seq<string>, params: TopologyParams)
    requires WellBuilt(g) && InterfaceAreas(g.nodes) && Memberships(g.edges) == {} && NodesNamed(nodes) &&
      NodesPresent(g.nodes, |nodes|)
    modifies g
    ensures WellBuilt(g) && InterfaceAreas(g.nodes) && Memberships(g.edges) == {}
    ensures View(g) == HardwareLayer(old(View(g)), params.interfacesPerPort, |nodes|)
    ensures old(g.nodes).Keys <= g.nodes.Keys && old(g.edges).Keys <= g.edges.Keys
    ensures AreasOf(g.nodes, "Node") == AreasOf(old(g.nodes), "Node")
    ensures InterfacesPresent(g.nodes, |nodes|, params.interfacesPerPort)
  {
    hide WellBuilt, AreasOf, Memberships, InterfaceName, NodeName, InterfaceAreas, HardwareOf;
    for i := 0 to |nodes|
      invariant WellBuilt(g) && InterfaceAreas(g.nodes) && Memberships(g.edges) == {}
      invariant View(g) == HardwareLayer(old(View(g)), params.interfacesPerPort, i)
      invariant old(g.nodes).Keys <= g.nodes.Keys && old(g.edges).Keys <= g.edges.Keys
      invariant AreasOf(g.nodes, "Node") == AreasOf(old(g.nodes), "Node")
      invariant InterfacesPresent(g.nodes, i, params.interfacesPerPort)
    {
      assert NodeName(i) in g.nodes;
      PlaceHardwareOf(g, nodes[i], params, i);
    }
  }

  // ---- Links between consecutive nodes ----

  function PairId(a: string, mark: string, b: string): string {
    a + mark + b
  }

  function LinkName(i: nat): string {
    Id("IPLink", PairId(NodeId(i), "_", NodeId(i + 1)))
  }

  lemma PairIdentifier(i: nat, mark: string, j: nat)
    requires ':' !in mark
    ensures IsIdentifier(PairId(NodeId(i), mark, NodeId(j)))
  {
    NodeNames(i);
    NodeNames(j);
    Identifiers(NodeId(i), mark);
    Identifiers(NodeId(i) + mark, NodeId(j));
  }

  lemma LinkNames(i: nat, j: nat)
    ensures LinkName(i) == LinkName(j) <==> i == j
  {
    hide NodeId;
    var s, t := PairId(NodeId(i), "_", NodeId(i + 1)), PairId(NodeId(j), "_", NodeId(j + 1));
    if LinkName(i) == LinkName(j) {
      assert LinkName(i)[7..] == s && LinkName(j)[7..] == t;
      NodeIdsAreMarkless(i);
      NodeIdsAreMarkless(j);
      HeadsAgree(NodeId(i), NodeId(i + 1), NodeId(j), NodeId(j + 1), '_');
      NodeIds(i, j);
    }
  }

  /** The links are those that start at the nodes `at`, in order. */
  ghost predicate LinksNamed(links: seq<string>, at: seq<nat>) {
    && |links| == |at|
    && (forall j :: 0 <= j < |at| ==> links[j] == LinkName(at[j]))
    && (forall j, k :: 0 <= j < k < |at| ==> at[j] < at[k])
  }

  /** What every later layer keeps. */
  ghost predicate Kept(g: DiGraph, nodes: map<string, NodeData>, edges: map<Endpoints, string>)
    reads g
  {
    && WellBuilt(g) && InterfaceAreas(g.nodes)
    && nodes.Keys <= g.nodes.Keys && edges.Keys <= g.edges.Keys
    && AreasOf(g.nodes, "Node") == AreasOf(nodes, "Node")
  }

  /** Adds an area-less object of a later layer. */
  method Extend(g: DiGraph, objectType: string, id: string, ghost nodes: map<string, NodeData>,
                ghost edges: map<Endpoints, string>) returns (moid: string)
    requires Kept(g, nodes, edges) && IsTypeToken(objectType) && IsIdentifier(id) && objectType != "Node" &&
      objectType != "Interface"
    modifies g
    ensures Kept(g, nodes, edges) && moid == Id(objectType, id) && moid in g.nodes
    ensures View(g) == old(View(g)).Put(objectType, id, None)
    ensures old(g.nodes).Keys <= g.nodes.Keys && g.edges == old(g.edges)
  {
    hide WellBuilt, AreasOf, InterfaceAreas, IsTypeToken, IsIdentifier, Id;
    AddObject(g, objectType, id, None);
    moid := Id(objectType, id);
  }

  method Join(g: DiGraph, src: string, dst: string, relation: string, ghost nodes: map<string, NodeData>,
              ghost edges: map<Endpoints, string>)
    requires Kept(g, nodes, edges) && src in g.nodes && dst in g.nodes && relation != ""
    modifies g
    ensures Kept(g, nodes, edges) && g.nodes == old(g.nodes) && old(g.edges).Keys + {(src, dst)} == g.edges.Keys
    ensures View(g) == old(View(g)).Join(src, dst, relation)
    ensures relation != "MEMBER_OF" && Memberships(old(g.edges)) == {} ==> Memberships(g.edges) == {}
    ensures relation == "MEMBER_OF" ==> Memberships(g.edges) == Memberships(old(g.edges)) + {(src, dst)}
  {
    hide WellBuilt, AreasOf, InterfaceAreas, Memberships;
    Connect(g, src, dst, relation);
  }

  /** The link from one node to the next, with its fiber span, adjacency, path and service. */
  method PlaceLink(g: DiGraph, ifA: string, ifB: string, a: string, b: string, i: nat,
                   ghost nodes: map<string, NodeData>, ghost edges: map<Endpoints, string>)
    returns (link: string)
    requires Kept(g, nodes, edges) && Memberships(g.edges) == {} && ifA in g.nodes && ifB in g.nodes
    requires a == NodeId(i) && b == NodeId(i + 1) && ifA == InterfaceName(i, 0) && ifB == InterfaceName(i + 1, 0)
    modifies g
    ensures Kept(g, nodes, edges) && Memberships(g.edges) == {} && link == LinkName(i) && link in g.nodes
    ensures old(g.nodes).Keys <= g.nodes.Keys && old(g.edges).Keys <= g.edges.Keys
    ensures {(ifA, link), (ifB, link)} <= g.edges.Keys
    ensures View(g) == LinkOf(old(View(g)), i)
  {
    hide Kept, Memberships, IsTypeToken, IsIdentifier, Id, NodeId, PairId, ServiceOf, InterfaceName;
    TypeTokens();
    PairIdentifier(i, "_", i + 1);
    PairIdentifier(i, "-", i + 1);
    Identifiers(PairId(a, "_", b), "F-");
    Identifiers(PairId(a, "-", b), "-1");
    link := Extend(g, "IPLink", PairId(a, "_", b), nodes, edges);
    Join(g, ifA, link, "TERMINATES", nodes, edges);
    Join(g, ifB, link, "TERMINATES", nodes, edges);
    var fiber := Extend(g, "FiberSpan", "F-" + PairId(a, "_", b), nodes, edges);
    Join(g, fiber, link, "RIDES_ON", nodes, edges);
    var adjacency := Extend(g, "IGPAdjacency", PairId(a, "_", b), nodes, edges);
    Join(g, ifA, adjacency, "ADJACENCY_OVER", nodes, edges);
    Join(g, link, adjacency, "ADJACENCY_OVER", nodes, edges);
    PlaceService(g, link, PairId(a, "-", b) + "-1", i, nodes, edges);
  }

  method PlaceService(g: DiGraph, link: string, path: string, i: nat, ghost nodes: map<string, NodeData>,
                      ghost edges: map<Endpoints, string>)
    requires Kept(g, nodes, edges) && Memberships(g.edges) == {} && link in g.nodes && IsIdentifier(path)
    modifies g
    ensures Kept(g, nodes, edges) && Memberships(g.edges) == {}
    ensures View(g) == ServiceOf(old(View(g)), link, path, i)
    ensures old(g.nodes).Keys <= g.nodes.Keys && old(g.edges).Keys <= g.edges.Keys
  {
    hide Kept, Memberships, IsTypeToken, IsIdentifier, Id;
    TypeTokens();
    NumberIsIdentifier(i % 5);
    Identifiers(Digits(i % 5), "CUST-");
    var lsp := Extend(g, "LSP", path, nodes, edges);
    Join(g, link, lsp, "TRAVERSES", nodes, edges);
    var vpn := Id("VPNService", "CUST-" + Digits(i % 5));
    if vpn !in g.nodes {
      vpn := Extend(g, "VPNService", "CUST-" + Digits(i % 5), nodes, edges);
    }
    Join(g, lsp, vpn, "SERVES", nodes, edges);
  }

  /** Links every pair of consecutive nodes whose first interfaces are there. */
  method PlaceLinks(g: DiGraph, nodes: seq<string>, ghost before: map<string, NodeData>,
                    ghost edges: map<Endpoints, string>)
    returns (links: seq<string>, ghost at: seq<nat>)
    requires Kept(g, before, edges) && Memberships(g.edges) == {} && NodesNamed(nodes)
    modifies g
    ensures Kept(g, before, edges) && Memberships(g.edges) == {}
    ensures View(g) == LinkLayer(old(View(g)), if nodes == [] then 0 else |nodes| - 1)
    ensures LinksNamed(links, at) && Elements(links) <= g.nodes.Keys
    ensures InterfacesPresent(old(g.nodes), |nodes|, 1) && nodes != [] ==> |links| == |nodes| - 1
    ensures forall j ::
      0 <= j < |at| ==>
          at[j] + 1 < |nodes| &&
              {(InterfaceName(at[j], 0), links[j]), (InterfaceName(at[j] + 1, 0), links[j])} <= g.edges.Keys
  {
    hide Kept, Memberships, NodeId, NodeName, LinkName, InterfaceName, Suffix, LinkOf;
    links, at := [], [];
    if nodes == [] { return; }
    for i := 0 to |nodes| - 1
      invariant Kept(g, before, edges) && Memberships(g.edges) == {}
      invariant View(g) == LinkLayer(old(View(g)), i)
      invariant LinksNamed(links, at) && Elements(links) <= g.nodes.Keys
      invariant old(g.nodes).Keys <= g.nodes.Keys
      invariant InterfacesPresent(old(g.nodes), |nodes|, 1) ==> |links| == i
      invariant forall j ::
        0 <= j < |at| ==>
            at[j] < i && {(InterfaceName(at[j], 0), links[j]), (InterfaceName(at[j] + 1, 0), links[j])} <= g.edges.Keys
    {
      NodeNames(i);
      NodeNames(i + 1);
      var a, b := Suffix(nodes[i]), Suffix(nodes[i + 1]);
      var ifA, ifB := Id("Interface", InterfaceId(a, 0)), Id("Interface", InterfaceId(b, 0));
      FirstInterface(i);
      FirstInterface(i + 1);
      if ifA in g.nodes && ifB in g.nodes {
        var link := PlaceLink(g, ifA, ifB, a, b, i, before, edges);
        ElementsAppend(links, link);
        links, at := links + [link], at + [i];
      }
    }
  }

  lemma FirstInterface(i: nat)
    ensures InterfaceName(i, 0) == Id("Interface", InterfaceId(NodeId(i), 0))
  {
  }

  // ---- Shared-risk groups: one for each pair of links ----

  function GroupName(j: nat): string {
    Id("SRLG", "SRLG-" + Digits(j))
  }

  /** The membership edges of the first `k` groups, both ways. */
  function GroupEdges(links: seq<string>, k: nat): set<Endpoints>
    requires 2 * k <= |links|
  {
    if k == 0 then {}
    else
      var group, one, two := GroupName(k - 1), links[2 * k - 2], links[2 * k - 1];
      GroupEdges(links, k - 1) + {(group, one), (group, two), (one, group), (two, group)}
  }

  method PlaceGroup(g: DiGraph, one: string, two: string, j: nat, ghost before: map<string, NodeData>,
                    ghost edges: map<Endpoints, string>)
    requires Kept(g, before, edges) && one in g.nodes && two in g.nodes
    modifies g
    ensures Kept(g, before, edges) && old(g.nodes).Keys <= g.nodes.Keys && old(g.edges).Keys <= g.edges.Keys
    ensures var group := GroupName(j);
            View(g) == old(View(g)).Put("SRLG", "SRLG-" + Digits(j), None)
              .Join(group, one, "MEMBER_OF").Join(group, two, "MEMBER_OF")
              .Join(one, group, "MEMBER_OF").Join(two, group, "MEMBER_OF")
    ensures var group := GroupName(j);
            Memberships(g.edges) == Memberships(old(g.edges)) + {(group, one), (group, two), (one, group), (two, group)}
  {
    hide Kept, Memberships, IsTypeToken, IsIdentifier, Id;
    TypeTokens();
    NumberIsIdentifier(j);
    Identifiers(Digits(j), "SRLG-");
    var group := Extend(g, "SRLG", "SRLG-" + Digits(j), before, edges);
    Join(g, group, one, "MEMBER_OF", before, edges);
    Join(g, group, two, "MEMBER_OF", before, edges);
    Join(g, one, group, "MEMBER_OF", before, edges);
    Join(g, two, group, "MEMBER_OF", before, edges);
  }

  method PlaceGroups(g: DiGraph, links: seq<string>, ghost before: map<string, NodeData>,
                     ghost edges: map<Endpoints, string>)
    requires Kept(g, before, edges) && Memberships(g.edges) == {} && Elements(links) <= g.nodes.Keys
    modifies g
    ensures Kept(g, before, edges) && Memberships(g.edges) == GroupEdges(links, |links| / 2)
    ensures View(g) == GroupLayer(old(View(g)), links, |links| / 2)
    ensures old(g.edges).Keys <= g.edges.Keys
  {
    hide Kept, Memberships, GroupName, View, Layout.Put, Layout.Join;
    for j := 0 to |links| / 2
      invariant Kept(g, before, edges) && Memberships(g.edges) == GroupEdges(links, j)
      invariant View(g) == GroupLayer(old(View(g)), links, j)
      invariant Elements(links) <= g.nodes.Keys && old(g.edges).Keys <= g.edges.Keys
    {
      assert links[2 * j] in Elements(links) && links[2 * j + 1] in Elements(links);
      PlaceGroup(g, links[2 * j], links[2 * j + 1], j, before, edges);
    }
  }

  /** Sites, nodes, hardware and links; the groups come last. */
  function LayoutOf(params: TopologyParams, siteIds: seq<string>): Layout
    requires siteIds != []
  {
    var placed := NodeLayer(SiteLayer(Layout(map[], map[]), siteIds, |siteIds|), params, siteIds, params.nodeCount);
    LinkLayer(HardwareLayer(placed, params.interfacesPerPort, params.nodeCount),
        if params.nodeCount == 0 then 0 else params.nodeCount - 1)
  }

  /** The whole topology: every id and reference checks out, the areas used are those its nodes carry,
      every interface has its node's area, and the membership edges are those of the groups. */
  method BuildTopology(params: TopologyParams, siteIds: seq<string>)
      returns (g: DiGraph, areas: seq<string>, ghost links: seq<string>, ghost at: seq<nat>)
    requires siteIds != [] && forall i :: 0 <= i < |siteIds| ==> IsIdentifier(siteIds[i])
    ensures fresh(g) && WellBuilt(g) && InterfaceAreas(g.nodes)
    ensures View(g) == GroupLayer(LayoutOf(params, siteIds), links, |links| / 2)
    ensures areas == Sorted(AreasUsed(params.nodeCount, params.igpAreaCount)) &&
      AreasOf(g.nodes, "Node") == Somes(Elements(areas))
    ensures LinksNamed(links, at) && Memberships(g.edges) == GroupEdges(links, |links| / 2)
    ensures params.nodeCount > 0 && params.interfacesPerPort > 0 ==> |links| == params.nodeCount - 1
    ensures InterfacesPresent(g.nodes, params.nodeCount, params.interfacesPerPort) &&
      NodesPresent(g.nodes, params.nodeCount)
    ensures forall i :: 0 <= i < params.nodeCount ==> (NodeName(i), SiteName(siteIds, i)) in g.edges
  {
    hide WellBuilt, AreasOf, InterfaceAreas, Memberships, IsIdentifier, NodeName, InterfaceName, AreasUsed, GroupEdges,
         SiteName, LinksNamed,
         SiteLayer, NodeLayer, HardwareLayer, LinkLayer, GroupLayer;
    g := new DiGraph();
    EmptyIsWellBuilt(g);
    PlaceSites(g, siteIds);
    var nodes, used := PlaceNodes(g, params, siteIds);
    NoInterfacesYet(g);
    PlaceHardware(g, nodes, params);
    ghost var placed, joined := g.nodes, g.edges;
    var made;
    made, at := PlaceLinks(g, nodes, placed, joined);
    PlaceGroups(g, made, placed, joined);
    links := made;
    areas := Sorted(used);
  }

  lemma EmptyIsWellBuilt(g: DiGraph)
    requires g.Valid() && g.nodes == map[] && g.edges == map[]
    ensures WellBuilt(g) && AreasOf(g.nodes, "Node") == {} && AreasOf(g.nodes, "Interface") == {} &&
      Memberships(g.edges) == {}
  {
  }

  lemma NoInterfacesYet(g: DiGraph)
    requires WellBuilt(g) && AreasOf(g.nodes, "Interface") == {}
    ensures InterfaceAreas(g.nodes)
  {
    hide WellBuilt, AreasOf, InterfaceName;
    forall i: nat, k: nat ensures InterfaceName(i, k) !in g.nodes {
      InterfaceHasItsType(g, i, k);
    }
  }

  lemma InterfaceHasItsType(g: DiGraph, i: nat, k: nat)
    requires WellBuilt(g)
    ensures InterfaceName(i, k) in g.nodes ==> g.nodes[InterfaceName(i, k)].igpArea in AreasOf(g.nodes, "Interface")
  {
    hide InterfaceId, NodeId;
    InterfaceIdentifier(i, k);
    TypeTokens();
    TypedId("Interface", InterfaceId(NodeId(i), k));
    assert InterfaceName(i, k) in g.nodes ==> Typed(g.nodes, InterfaceName(i, k), "Interface");
  }

  /** Generated topologies always pass validation, with one area and as many more as edge nodes and
      numbered areas allow. */
  method BuildTopologySnapshot(params: TopologyParams, siteIds: seq<string>)
      returns (r: Result<Snapshot, string>, areas: seq<string>, ghost g: DiGraph, ghost links: seq<string>)
    requires siteIds != [] && forall i :: 0 <= i < |siteIds| ==> IsIdentifier(siteIds[i])
    ensures r.Ok? && Passes(r.value) && Serialises(g, "core-ip", r.value)
    ensures View(g) == GroupLayer(LayoutOf(params, siteIds), links, |links| / 2)
    ensures NodesPresent(g.nodes, params.nodeCount)
    ensures InterfacesPresent(g.nodes, params.nodeCount, params.interfacesPerPort)
    ensures NoDuplicates(areas) && AreasOf(g.nodes, "Node") == Somes(Elements(areas))
    ensures params.nodeCount > 0 ==> |areas| == 1 + Min(EdgeCount(params.nodeCount), NumberedAreas(params.igpAreaCount))
  {
    hide IsIdentifier, InterfaceAreas, Memberships, AreasOf, AreasUsed, GroupEdges, LinksNamed, Passes, Serialises,
         GroupLayer, LayoutOf, NodesPresent, InterfacesPresent;
    var graph, used, made, at := BuildTopology(params, siteIds);
    areas, g, links := used, graph, made;
    ElementsCount(areas);
    if params.nodeCount > 0 { AreasCounted(params.nodeCount, params.igpAreaCount); }
    r := WriteSnapshot(graph, "core-ip");
  }
}
