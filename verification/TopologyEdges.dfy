/** The edges of a generated topology, all of them: each layer adds exactly its own, and every edge has the
    relation that the types of its ends call for. */
module TopologyEdges {
  import opened Common
  import opened Decimals
  import opened ManagedObjectIds
  import opened SnapshotWriter
  import opened TopologyModel
  import opened TopologyLaws

  // ---- What belongs to the i-th node and to the i-th link ----

  function CardName(i: nat): string {
    Id("LineCard", NodeId(i) + "-LC1")
  }

  function PortName(i: nat): string {
    Id("Port", NodeId(i) + "-LC1" + "-P1")
  }

  /** The node holds its card, the card its port, and the port its interfaces. */
  ghost function HardwareEdges(i: nat, perPort: nat): set<Endpoints> {
    {(NodeName(i), CardName(i)), (CardName(i), PortName(i))} + HostEdges(PortName(i), NodeId(i), perPort)
  }

  ghost function HostEdges(port: string, nodeId: string, perPort: nat): set<Endpoints> {
    set k: nat | k < perPort :: (port, Id("Interface", InterfaceId(nodeId, k)))
  }

  /** A link has two interfaces, a fiber span, an adjacency over one of them, and a path with its service. */
  ghost function LinkEdges(i: nat): set<Endpoints> {
    var pair := PairId(NodeId(i), "_", NodeId(i + 1));
    var one, two, link := InterfaceName(i, 0), InterfaceName(i + 1, 0), Id("IPLink", pair);
    var span, adjacency := Id("FiberSpan", "F-" + pair), Id("IGPAdjacency", pair);
    var lsp := Id("LSP", PairId(NodeId(i), "-", NodeId(i + 1)) + "-1");
    {(one, link), (two, link), (span, link), (one, adjacency), (link, adjacency), (link, lsp),
     (lsp, Id("VPNService", "CUST-" + Digits(i % 5)))}
  }

  /** What the ids look like. */
  lemma NamesAre(i: nat, k: nat)
    ensures NodeName(i) == "Node:N" + Digits(i) && GroupName(i) == "SRLG:SRLG-" + Digits(i)
    ensures CardName(i) == "LineCard:N" + Digits(i) + "-LC1"
    ensures PortName(i) == "Port:N" + Digits(i) + "-LC1-P1"
    ensures LinkName(i) == "IPLink:N" + Digits(i) + "_N" + Digits(i + 1)
  {
    hide Digits;
    var n, m := Digits(i), Digits(i + 1);
    assert "N" + n + "-LC1" + "-P1" == "N" + n + "-LC1-P1";
    assert "N" + n + "_" + ("N" + m) == "N" + n + "_N" + m;
  }

  // ---- Each layer's edges ----

  lemma {:induction false} SiteLayerEdges(l: Layout, siteIds: seq<string>, n: nat)
    requires n <= |siteIds|
    ensures SiteLayer(l, siteIds, n).edges == l.edges
  {
    if n > 0 { SiteLayerEdges(l, siteIds, n - 1); }
  }

  lemma {:induction false} NodeLayerEdges(l: Layout, params: TopologyParams, siteIds: seq<string>, n: nat)
    requires siteIds != []
    ensures NodeLayer(l, params, siteIds, n).edges.Keys ==
              l.edges.Keys + set i: nat | i < n :: (NodeName(i), SiteName(siteIds, i))
  {
    hide NodeName, NodeId, SiteName, AreaForRole, RoleOf, EdgeCount;
    if n > 0 { NodeLayerEdges(l, params, siteIds, n - 1); }
  }

  lemma {:induction false} InterfaceLayerEdges(l: Layout, port: string, nodeId: string, area: Option<string>, n: nat)
    ensures InterfaceLayer(l, port, nodeId, area, n).edges.Keys == l.edges.Keys + HostEdges(port, nodeId, n)
  {
    hide Id, InterfaceId;
    if n > 0 { InterfaceLayerEdges(l, port, nodeId, area, n - 1); }
  }

  lemma HardwareOfEdges(l: Layout, i: nat, perPort: nat)
    ensures HardwareOf(l, i, perPort).edges.Keys == l.edges.Keys + HardwareEdges(i, perPort)
  {
    hide Id, NodeId, NodeName, InterfaceLayer, HostEdges;
    var card, port := NodeId(i) + "-LC1", NodeId(i) + "-LC1" + "-P1";
    var under := l.Put("LineCard", card, None).Put("Port", port, None)
      .Join(NodeName(i), Id("LineCard", card), "HOSTED_ON")
      .Join(Id("LineCard", card), Id("Port", port), "HOSTED_ON");
    InterfaceLayerEdges(under, Id("Port", port), NodeId(i),
                        if NodeName(i) in l.nodes then l.nodes[NodeName(i)].igpArea else None, perPort);
  }

  lemma {:induction false} HardwareLayerEdges(l: Layout, perPort: nat, n: nat, e: Endpoints)
    ensures e in HardwareLayer(l, perPort, n).edges <==>
      e in l.edges || exists i: nat :: i < n && e in HardwareEdges(i, perPort)
  {
    hide HardwareOf, HardwareEdges;
    if n > 0 {
      HardwareLayerEdges(l, perPort, n - 1, e);
      HardwareOfEdges(HardwareLayer(l, perPort, n - 1), n - 1, perPort);
    }
  }

  lemma LinkOfEdges(l: Layout, i: nat)
    ensures LinkOf(l, i).edges.Keys == l.edges.Keys + LinkEdges(i)
  {
    hide Id, NodeId, InterfaceName, PairId;
  }

  lemma {:induction false} LinkLayerEdges(l: Layout, n: nat, e: Endpoints)
    requires OnlyEnds(Terminations(l))
    ensures e in LinkLayer(l, n).edges <==>
      e in l.edges || exists i: nat :: i < n && HasEnds(l, i) && e in LinkEdges(i)
    ensures forall j: nat :: InterfaceName(j, 0) in LinkLayer(l, n).nodes <==> InterfaceName(j, 0) in l.nodes
    ensures OnlyEnds(Terminations(LinkLayer(l, n)))
  {
    hide LinkOf, LinkEdges, InterfaceName, Terminations, OnlyEnds;
    if n > 0 {
      LinkLayerEdges(l, n - 1, e);
      LinkAdds(LinkLayer(l, n - 1), n - 1);
      LinkOfEdges(LinkLayer(l, n - 1), n - 1);
    }
  }

  ghost predicate HasEnds(l: Layout, i: nat) {
    InterfaceName(i, 0) in l.nodes && InterfaceName(i + 1, 0) in l.nodes
  }

  lemma {:induction false} GroupLayerEdges(l: Layout, links: seq<string>, k: nat)
    requires 2 * k <= |links|
    ensures GroupLayer(l, links, k).edges.Keys == l.edges.Keys + GroupEdges(links, k)
  {
    hide GroupName;
    if k > 0 { GroupLayerEdges(l, links, k - 1); }
  }

  /** Both ways between a group and each of its two links. */
  lemma {:induction false} GroupEdgesExactly(links: seq<string>, k: nat, e: Endpoints)
    requires 2 * k <= |links|
    ensures e in GroupEdges(links, k) <==> exists x: nat :: x < 2 * k && IsMembership(links, e, x)
  {
    hide GroupName;
    if k > 0 {
      GroupEdgesExactly(links, k - 1, e);
      var group, one, two := GroupName(k - 1), links[2 * k - 2], links[2 * k - 1];
      assert (2 * k - 2) / 2 == k - 1 && (2 * k - 1) / 2 == k - 1;
      if e in {(group, one), (one, group)} { assert IsMembership(links, e, 2 * k - 2); }
      if e in {(group, two), (two, group)} { assert IsMembership(links, e, 2 * k - 1); }
      if x: nat :| x < 2 * k && IsMembership(links, e, x) {
        if x >= 2 * (k - 1) { assert x == 2 * k - 2 || x == 2 * k - 1; }
      }
    }
  }

  ghost predicate IsMembership(links: seq<string>, e: Endpoints, x: nat) {
    x < |links| && (e == (GroupName(x / 2), links[x]) || e == (links[x], GroupName(x / 2)))
  }

  // ---- Without interfaces on the ports there are none ----

  lemma {:induction false} SitesPutNoInterface(l: Layout, siteIds: seq<string>, n: nat, j: nat)
    requires n <= |siteIds|
    ensures InterfaceName(j, 0) in SiteLayer(l, siteIds, n).nodes <==> InterfaceName(j, 0) in l.nodes
  {
    hide InterfaceName, Id;
    if n > 0 {
      SitesPutNoInterface(l, siteIds, n - 1, j);
      TypeTokens();
      OtherTypes();
      PutKeeps(SiteLayer(l, siteIds, n - 1), "Site", siteIds[n - 1], None);
    }
  }

  lemma {:induction false} NodesPutNoInterface(l: Layout, params: TopologyParams, siteIds: seq<string>, n: nat, j: nat)
    requires siteIds != []
    ensures InterfaceName(j, 0) in NodeLayer(l, params, siteIds, n).nodes <==> InterfaceName(j, 0) in l.nodes
  {
    hide InterfaceName, Id, AreaForRole, RoleOf, EdgeCount, NodeId;
    if n > 0 {
      NodesPutNoInterface(l, params, siteIds, n - 1, j);
      TypeTokens();
      OtherTypes();
      PutKeeps(NodeLayer(l, params, siteIds, n - 1), "Node", NodeId(n - 1),
               Some(AreaForRole(RoleOf(n - 1), params.igpAreaCount, EdgeCount(n - 1))));
    }
  }

  lemma {:induction false} BareHardwarePutsNoInterface(l: Layout, n: nat, j: nat)
    ensures InterfaceName(j, 0) in HardwareLayer(l, 0, n).nodes <==> InterfaceName(j, 0) in l.nodes
  {
    hide InterfaceName, Id, NodeId, NodeName;
    if n > 0 {
      BareHardwarePutsNoInterface(l, n - 1, j);
      TypeTokens();
      OtherTypes();
      var before, card, port := HardwareLayer(l, 0, n - 1), NodeId(n - 1) + "-LC1", NodeId(n - 1) + "-LC1" + "-P1";
      PutKeeps(before, "LineCard", card, None);
      PutKeeps(before.Put("LineCard", card, None), "Port", port, None);
    }
  }

  lemma OtherTypes()
    ensures "Site" != "Interface" && "Node" != "Interface" && "LineCard" != "Interface" && "Port" != "Interface"
  {
    assert |"Site"| == 4 && |"Node"| == 4 && |"LineCard"| == 8 && |"Port"| == 4 && |"Interface"| == 9;
  }

  // ---- All edges ----

  /** An edge of the topology: a node at its site, hardware, a link, or a shared-risk membership. */
  ghost predicate IsTopologyEdge(params: TopologyParams, siteIds: seq<string>, links: seq<string>, e: Endpoints)
    requires siteIds != []
  {
    || (exists i: nat :: i < params.nodeCount && e == (NodeName(i), SiteName(siteIds, i)))
    || (exists i: nat :: i < params.nodeCount && e in HardwareEdges(i, params.interfacesPerPort))
    || (params.interfacesPerPort > 0 && exists i: nat :: i + 1 < params.nodeCount && e in LinkEdges(i))
    || e in GroupEdges(links, |links| / 2)
  }

  lemma TopologyEdgesExactly(params: TopologyParams, siteIds: seq<string>, links: seq<string>, e: Endpoints)
    requires siteIds != []
    ensures e in GroupLayer(LayoutOf(params, siteIds), links, |links| / 2).edges <==>
      IsTopologyEdge(params, siteIds, links, e)
  {
    hide SiteLayer, NodeLayer, HardwareLayer, LinkLayer, GroupLayer, HardwareEdges, LinkEdges, GroupEdges,
         NodeName, SiteName, InterfaceName, Terminations, OnlyEnds;
    var n, perPort := params.nodeCount, params.interfacesPerPort;
    var bare := Layout(map[], map[]);
    var sites := SiteLayer(bare, siteIds, |siteIds|);
    var placed := NodeLayer(sites, params, siteIds, n);
    var hardware := HardwareLayer(placed, perPort, n);
    SiteLayerEdges(bare, siteIds, |siteIds|);
    NodeLayerEdges(sites, params, siteIds, n);
    HardwareLayerEdges(placed, perPort, n, e);
    NothingEnds();
    SitesEndNothing(bare, siteIds, |siteIds|);
    NodesEndNothing(sites, params, siteIds, n);
    HardwareLayerEnds(placed, perPort, n);
    NoneIsOnly();
    var last: nat := if n == 0 then 0 else n - 1;
    LinkLayerEdges(hardware, last, e);
    GroupLayerEdges(LayoutOf(params, siteIds), links, |links| / 2);
    if perPort == 0 {
      forall j: nat ensures InterfaceName(j, 0) !in hardware.nodes {
        SitesPutNoInterface(bare, siteIds, |siteIds|, j);
        NodesPutNoInterface(sites, params, siteIds, n, j);
        BareHardwarePutsNoInterface(placed, n, j);
      }
    } else {
      assert forall i: nat :: i + 1 < n ==> HasEnds(hardware, i);
    }
  }

  lemma NoneIsOnly()
    ensures OnlyEnds({})
  {
  }

  // ---- Their relations ----

  /** The relation that runs between objects of two types. */
  function RelationOf(a: string, b: string): string {
    if a == "Node" then (if b == "Site" then "LOCATED_AT" else "HOSTED_ON")
    else if a == "LineCard" then "HOSTED_ON"
    else if a == "Port" then "HOSTS"
    else if a == "FiberSpan" then "RIDES_ON"
    else if a == "LSP" then "SERVES"
    else if a == "SRLG" || b == "SRLG" then "MEMBER_OF"
    else if b == "IGPAdjacency" then "ADJACENCY_OVER"
    else if b == "LSP" then "TRAVERSES"
    else "TERMINATES"
  }

  ghost predicate Fits(l: Layout) {
    forall e :: e in l.edges ==> l.edges[e] == RelationOf(TypeOf(e.0), TypeOf(e.1))
  }

  lemma JoinFits(l: Layout, src: string, dst: string, a: string, b: string, relation: string)
    requires Fits(l) && TypeOf(src) == a && TypeOf(dst) == b && relation == RelationOf(a, b)
    ensures Fits(l.Join(src, dst, relation))
  {
    hide TypeOf, RelationOf;
  }

  lemma PutFits(l: Layout, t: string, x: string, area: Option<string>)
    requires Fits(l)
    ensures Fits(l.Put(t, x, area))
  {
    hide TypeOf, RelationOf, Id;
  }

  /** What the relations are, type by type. */
  lemma RelationsOf()
    ensures RelationOf("Node", "Site") == "LOCATED_AT" && RelationOf("Node", "LineCard") == "HOSTED_ON"
    ensures RelationOf("LineCard", "Port") == "HOSTED_ON" && RelationOf("Port", "Interface") == "HOSTS"
    ensures RelationOf("Interface", "IPLink") == "TERMINATES" && RelationOf("FiberSpan", "IPLink") == "RIDES_ON"
    ensures RelationOf("Interface", "IGPAdjacency") == "ADJACENCY_OVER"
    ensures RelationOf("IPLink", "IGPAdjacency") == "ADJACENCY_OVER"
    ensures RelationOf("IPLink", "LSP") == "TRAVERSES" && RelationOf("LSP", "VPNService") == "SERVES"
    ensures RelationOf("SRLG", "IPLink") == "MEMBER_OF" && RelationOf("IPLink", "SRLG") == "MEMBER_OF"
  {
    assert |"Node"| == 4 && |"Site"| == 4 && "Node"[0] == 'N' && "Site"[0] == 'S' && "Port"[0] == 'P' && |"Port"| == 4;
    assert |"LineCard"| == 8 && |"Interface"| == 9 && "FiberSpan"[0] == 'F' && "Interface"[0] == 'I';
    assert |"IPLink"| == 6 && |"IGPAdjacency"| == 12 && |"LSP"| == 3 && |"VPNService"| == 10;
    assert |"SRLG"| == 4 && "SRLG"[1] == 'R' && "Site"[1] == 'i';
  }

  lemma {:induction false} NodeLayerFits(l: Layout, params: TopologyParams, siteIds: seq<string>, n: nat)
    requires siteIds != [] && Fits(l)
    ensures Fits(NodeLayer(l, params, siteIds, n))
  {
    hide Fits, RelationOf, TypeOf, Id, NodeId, AreaForRole, RoleOf, EdgeCount, IsTypeToken;
    if n > 0 {
      NodeLayerFits(l, params, siteIds, n - 1);
      RelationsOf();
      TypeTokens();
      NamesHaveTypes(n - 1);
      SiteHasType(siteIds, n - 1);
      var before := NodeLayer(l, params, siteIds, n - 1);
      var area := Some(AreaForRole(RoleOf(n - 1), params.igpAreaCount, EdgeCount(n - 1)));
      PutFits(before, "Node", NodeId(n - 1), area);
      JoinFits(before.Put("Node", NodeId(n - 1), area), NodeName(n - 1), SiteName(siteIds, n - 1), "Node", "Site",
               "LOCATED_AT");
    }
  }

  lemma SiteHasType(siteIds: seq<string>, i: nat)
    requires siteIds != []
    ensures TypeOf(SiteName(siteIds, i)) == "Site"
  {
    hide IsTypeToken, TypeOf, Id;
    TypeTokens();
    IdHasType("Site", siteIds[i % |siteIds|]);
  }

  lemma {:induction false} InterfaceLayerFits(l: Layout, port: string, nodeId: string, area: Option<string>, n: nat)
    requires Fits(l) && TypeOf(port) == "Port"
    ensures Fits(InterfaceLayer(l, port, nodeId, area, n))
  {
    hide Fits, RelationOf, TypeOf, Id, InterfaceId, IsTypeToken;
    if n > 0 {
      InterfaceLayerFits(l, port, nodeId, area, n - 1);
      RelationsOf();
      TypeTokens();
      var before, id := InterfaceLayer(l, port, nodeId, area, n - 1), InterfaceId(nodeId, n - 1);
      IdHasType("Interface", id);
      PutFits(before, "Interface", id, area);
      JoinFits(before.Put("Interface", id, area), port, Id("Interface", id), "Port", "Interface", "HOSTS");
    }
  }

  lemma {:induction false} HardwareLayerFits(l: Layout, perPort: nat, n: nat)
    requires Fits(l)
    ensures Fits(HardwareLayer(l, perPort, n))
  {
    hide Fits, RelationOf, TypeOf, Id, NodeId, NodeName, InterfaceLayer, IsTypeToken;
    if n > 0 {
      HardwareLayerFits(l, perPort, n - 1);
      RelationsOf();
      TypeTokens();
      var i, before := n - 1, HardwareLayer(l, perPort, n - 1);
      var card, port := NodeId(i) + "-LC1", NodeId(i) + "-LC1" + "-P1";
      NamesHaveTypes(i);
      IdHasType("LineCard", card);
      IdHasType("Port", port);
      PutFits(before, "LineCard", card, None);
      PutFits(before.Put("LineCard", card, None), "Port", port, None);
      var put := before.Put("LineCard", card, None).Put("Port", port, None);
      JoinFits(put, NodeName(i), Id("LineCard", card), "Node", "LineCard", "HOSTED_ON");
      var held := put.Join(NodeName(i), Id("LineCard", card), "HOSTED_ON");
      JoinFits(held, Id("LineCard", card), Id("Port", port), "LineCard", "Port", "HOSTED_ON");
      InterfaceLayerFits(held.Join(Id("LineCard", card), Id("Port", port), "HOSTED_ON"), Id("Port", port), NodeId(i),
                         if NodeName(i) in before.nodes then before.nodes[NodeName(i)].igpArea else None, perPort);
    }
  }

  lemma LinkFits(l: Layout, i: nat)
    requires Fits(l)
    ensures Fits(LinkOf(l, i))
  {
    hide Fits, RelationOf, TypeOf, Id, NodeId, InterfaceName, PairId, IsTypeToken, ServiceOf;
    RelationsOf();
    TypeTokens();
    NamesHaveTypes(i);
    NamesHaveTypes(i + 1);
    var one, two, pair := InterfaceName(i, 0), InterfaceName(i + 1, 0), PairId(NodeId(i), "_", NodeId(i + 1));
    var link, adjacency, span := Id("IPLink", pair), Id("IGPAdjacency", pair), Id("FiberSpan", "F-" + pair);
    IdHasType("IPLink", pair);
    IdHasType("IGPAdjacency", pair);
    IdHasType("FiberSpan", "F-" + pair);
    PutFits(l, "IPLink", pair, None);
    var a := l.Put("IPLink", pair, None);
    JoinFits(a, one, link, "Interface", "IPLink", "TERMINATES");
    JoinFits(a.Join(one, link, "TERMINATES"), two, link, "Interface", "IPLink", "TERMINATES");
    var ended := a.Join(one, link, "TERMINATES").Join(two, link, "TERMINATES");
    PutFits(ended, "FiberSpan", "F-" + pair, None);
    JoinFits(ended.Put("FiberSpan", "F-" + pair, None), span, link, "FiberSpan", "IPLink", "RIDES_ON");
    var ridden := ended.Put("FiberSpan", "F-" + pair, None).Join(span, link, "RIDES_ON");
    PutFits(ridden, "IGPAdjacency", pair, None);
    var near := ridden.Put("IGPAdjacency", pair, None);
    JoinFits(near, one, adjacency, "Interface", "IGPAdjacency", "ADJACENCY_OVER");
    JoinFits(near.Join(one, adjacency, "ADJACENCY_OVER"), link, adjacency, "IPLink", "IGPAdjacency", "ADJACENCY_OVER");
    var joined := near.Join(one, adjacency, "ADJACENCY_OVER").Join(link, adjacency, "ADJACENCY_OVER");
    ServiceFits(joined, link, PairId(NodeId(i), "-", NodeId(i + 1)) + "-1", i);
  }

  lemma ServiceFits(l: Layout, link: string, path: string, i: nat)
    requires Fits(l) && TypeOf(link) == "IPLink"
    ensures Fits(ServiceOf(l, link, path, i))
  {
    hide Fits, RelationOf, TypeOf, Id, IsTypeToken;
    RelationsOf();
    TypeTokens();
    var service := "CUST-" + Digits(i % 5);
    var lsp, vpn := Id("LSP", path), Id("VPNService", service);
    IdHasType("LSP", path);
    IdHasType("VPNService", service);
    PutFits(l, "LSP", path, None);
    JoinFits(l.Put("LSP", path, None), link, lsp, "IPLink", "LSP", "TRAVERSES");
    var carried := l.Put("LSP", path, None).Join(link, lsp, "TRAVERSES");
    PutFits(carried, "VPNService", service, None);
    var served := if vpn in carried.nodes then carried else carried.Put("VPNService", service, None);
    JoinFits(served, lsp, vpn, "LSP", "VPNService", "SERVES");
  }

  lemma {:induction false} LinkLayerFits(l: Layout, n: nat)
    requires Fits(l)
    ensures Fits(LinkLayer(l, n))
  {
    hide Fits, LinkOf, InterfaceName;
    if n > 0 {
      LinkLayerFits(l, n - 1);
      LinkFits(LinkLayer(l, n - 1), n - 1);
    }
  }

  lemma {:induction false} GroupLayerFits(l: Layout, links: seq<string>, at: seq<nat>, k: nat)
    requires Fits(l) && LinksNamed(links, at) && 2 * k <= |links|
    ensures Fits(GroupLayer(l, links, k))
  {
    hide Fits, RelationOf, TypeOf, Id, LinkName, GroupName, IsTypeToken;
    if k > 0 {
      GroupLayerFits(l, links, at, k - 1);
      RelationsOf();
      NamesHaveTypes(k - 1);
      NamesHaveTypes(at[2 * k - 2]);
      NamesHaveTypes(at[2 * k - 1]);
      var group, one, two := GroupName(k - 1), links[2 * k - 2], links[2 * k - 1];
      var before := GroupLayer(l, links, k - 1);
      PutFits(before, "SRLG", "SRLG-" + Digits(k - 1), None);
      var a := before.Put("SRLG", "SRLG-" + Digits(k - 1), None);
      JoinFits(a, group, one, "SRLG", "IPLink", "MEMBER_OF");
      var b := a.Join(group, one, "MEMBER_OF");
      JoinFits(b, group, two, "SRLG", "IPLink", "MEMBER_OF");
      var c := b.Join(group, two, "MEMBER_OF");
      JoinFits(c, one, group, "IPLink", "SRLG", "MEMBER_OF");
      JoinFits(c.Join(one, group, "MEMBER_OF"), two, group, "IPLink", "SRLG", "MEMBER_OF");
    }
  }

  /** Every edge of a generated topology has the relation of its ends' types. */
  lemma TopologyFits(params: TopologyParams, siteIds: seq<string>, links: seq<string>, at: seq<nat>)
    requires siteIds != [] && LinksNamed(links, at)
    ensures Fits(GroupLayer(LayoutOf(params, siteIds), links, |links| / 2))
  {
    hide SiteLayer, NodeLayer, HardwareLayer, LinkLayer, GroupLayer, Fits, LinksNamed;
    var bare := Layout(map[], map[]);
    var sites := SiteLayer(bare, siteIds, |siteIds|);
    SiteLayerEdges(bare, siteIds, |siteIds|);
    assert Fits(sites) by { NoEdgesFit(sites); }
    NodeLayerFits(sites, params, siteIds, params.nodeCount);
    var placed := NodeLayer(sites, params, siteIds, params.nodeCount);
    HardwareLayerFits(placed, params.interfacesPerPort, params.nodeCount);
    LinkLayerFits(HardwareLayer(placed, params.interfacesPerPort, params.nodeCount),
                  if params.nodeCount == 0 then 0 else params.nodeCount - 1);
    GroupLayerFits(LayoutOf(params, siteIds), links, at, |links| / 2);
  }

  lemma NoEdgesFit(l: Layout)
    requires l.edges == map[]
    ensures Fits(l)
  {
  }

  // ---- The areas of the nodes ----

  /** Node i is a backbone node when i mod 7 is 6 or i mod 3 is 0, and then lies in area zero, as all do when
      only one area is asked for; any other takes the next of the numbered areas in turn. */
  lemma NodeAreaIs(i: nat, areaCount: nat)
    ensures AreaForRole(RoleOf(i), areaCount, EdgeCount(i)) ==
              if i % 7 == 6 || i % 3 == 0 || areaCount <= 1 then "area-" + Digits(0)
              else "area-" + Digits(1 + |set j: nat | j < i && !(j % 7 == 6 || j % 3 == 0)| % (areaCount - 1))
  {
    hide Digits, EdgeCount;
    EdgesBefore(i);
  }

  lemma {:induction false} EdgesBefore(i: nat)
    ensures EdgeCount(i) == |set j: nat | j < i && !(j % 7 == 6 || j % 3 == 0)|
  {
    if i > 0 {
      EdgesBefore(i - 1);
      var before := set j: nat | j < i - 1 && !(j % 7 == 6 || j % 3 == 0);
      var now := set j: nat | j < i && !(j % 7 == 6 || j % 3 == 0);
      assert now == before + if (i - 1) % 7 == 6 || (i - 1) % 3 == 0 then {} else {i - 1};
    }
  }

  /** The same nodes, the line cards and the rest apart. */
  ghost predicate SameNodes(l: Layout, m: Layout) {
    forall j: nat ::
      && (NodeName(j) in l.nodes <==> NodeName(j) in m.nodes)
      && (NodeName(j) in l.nodes ==> l.nodes[NodeName(j)] == m.nodes[NodeName(j)])
  }

  lemma PutKeepsNodes(l: Layout, t: string, x: string, area: Option<string>)
    requires IsTypeToken(t) && t != "Node"
    ensures SameNodes(l, l.Put(t, x, area))
  {
    hide IsTypeToken, Id;
    TypeTokens();
    forall j: nat ensures NodeName(j) != Id(t, x) { TypesApart("Node", NodeId(j), t, x); }
  }

  lemma NoneIsNode()
    ensures "LineCard" != "Node" && "Port" != "Node" && "Interface" != "Node" && "IPLink" != "Node"
    ensures "FiberSpan" != "Node" && "IGPAdjacency" != "Node" && "LSP" != "Node" && "VPNService" != "Node"
    ensures "SRLG" != "Node"
  {
    assert |"LineCard"| == 8 && |"Interface"| == 9 && |"IPLink"| == 6 && |"FiberSpan"| == 9 && |"Node"| == 4;
    assert |"IGPAdjacency"| == 12 && |"LSP"| == 3 && |"VPNService"| == 10;
    assert "SRLG"[0] == 'S' && "Port"[0] == 'P' && "Node"[0] == 'N';
  }

  lemma {:induction false} InterfacesKeepNodes(l: Layout, port: string, nodeId: string, area: Option<string>, n: nat)
    ensures SameNodes(l, InterfaceLayer(l, port, nodeId, area, n))
  {
    hide Id, InterfaceId, NodeName, IsTypeToken;
    if n > 0 {
      InterfacesKeepNodes(l, port, nodeId, area, n - 1);
      TypeTokens();
      NoneIsNode();
      PutKeepsNodes(InterfaceLayer(l, port, nodeId, area, n - 1), "Interface", InterfaceId(nodeId, n - 1), area);
    }
  }

  lemma {:induction false} HardwareKeepsNodes(l: Layout, perPort: nat, n: nat)
    ensures SameNodes(l, HardwareLayer(l, perPort, n))
  {
    hide Id, NodeId, NodeName, IsTypeToken, InterfaceLayer;
    if n > 0 {
      HardwareKeepsNodes(l, perPort, n - 1);
      TypeTokens();
      NoneIsNode();
      var i, before := n - 1, HardwareLayer(l, perPort, n - 1);
      var card, port := NodeId(i) + "-LC1", NodeId(i) + "-LC1" + "-P1";
      PutKeepsNodes(before, "LineCard", card, None);
      PutKeepsNodes(before.Put("LineCard", card, None), "Port", port, None);
      var under := before.Put("LineCard", card, None).Put("Port", port, None)
        .Join(NodeName(i), Id("LineCard", card), "HOSTED_ON")
        .Join(Id("LineCard", card), Id("Port", port), "HOSTED_ON");
      InterfacesKeepNodes(under, Id("Port", port), NodeId(i),
                          if NodeName(i) in before.nodes then before.nodes[NodeName(i)].igpArea else None, perPort);
    }
  }

  lemma LinkKeepsNodes(l: Layout, i: nat)
    ensures SameNodes(l, LinkOf(l, i))
  {
    hide Id, NodeId, InterfaceName, PairId, IsTypeToken, NodeName;
    TypeTokens();
    NoneIsNode();
    var pair, path := PairId(NodeId(i), "_", NodeId(i + 1)), PairId(NodeId(i), "-", NodeId(i + 1)) + "-1";
    var service := "CUST-" + Digits(i % 5);
    var a := l.Put("IPLink", pair, None);
    var b := a.Put("FiberSpan", "F-" + pair, None);
    var c := b.Put("IGPAdjacency", pair, None);
    var d := c.Put("LSP", path, None);
    PutKeepsNodes(l, "IPLink", pair, None);
    PutKeepsNodes(a, "FiberSpan", "F-" + pair, None);
    PutKeepsNodes(b, "IGPAdjacency", pair, None);
    PutKeepsNodes(c, "LSP", path, None);
    PutKeepsNodes(d, "VPNService", service, None);
  }

  lemma {:induction false} LinksKeepNodes(l: Layout, n: nat)
    ensures SameNodes(l, LinkLayer(l, n))
  {
    hide LinkOf, NodeName, InterfaceName;
    if n > 0 {
      LinksKeepNodes(l, n - 1);
      LinkKeepsNodes(LinkLayer(l, n - 1), n - 1);
    }
  }

  lemma {:induction false} GroupsKeepNodes(l: Layout, links: seq<string>, k: nat)
    requires 2 * k <= |links|
    ensures SameNodes(l, GroupLayer(l, links, k))
  {
    hide Id, NodeName, GroupName, IsTypeToken;
    if k > 0 {
      GroupsKeepNodes(l, links, k - 1);
      TypeTokens();
      NoneIsNode();
      PutKeepsNodes(GroupLayer(l, links, k - 1), "SRLG", "SRLG-" + Digits(k - 1), None);
    }
  }

  lemma {:induction false} NodeLayerHasNode(l: Layout, params: TopologyParams, siteIds: seq<string>, n: nat, i: nat)
    requires siteIds != [] && i < n
    ensures var m := NodeLayer(l, params, siteIds, n);
            && NodeName(i) in m.nodes
            && m.nodes[NodeName(i)] ==
                 NodeData(Some("Node"), Some(AreaForRole(RoleOf(i), params.igpAreaCount, EdgeCount(i))))
  {
    hide AreaForRole, RoleOf, EdgeCount, SiteName;
    if i < n - 1 {
      NodeLayerHasNode(l, params, siteIds, n - 1, i);
      NodeNames(i);
    }
  }

  /** In the finished topology each node has its area. */
  lemma NodesHaveAreas(params: TopologyParams, siteIds: seq<string>, links: seq<string>, i: nat)
    requires siteIds != [] && i < params.nodeCount
    ensures var l := GroupLayer(LayoutOf(params, siteIds), links, |links| / 2);
            && NodeName(i) in l.nodes
            && l.nodes[NodeName(i)] ==
                 NodeData(Some("Node"), Some(AreaForRole(RoleOf(i), params.igpAreaCount, EdgeCount(i))))
  {
    hide SiteLayer, NodeLayer, HardwareLayer, LinkLayer, GroupLayer, NodeName, AreaForRole, RoleOf, EdgeCount;
    var bare := Layout(map[], map[]);
    var sites := SiteLayer(bare, siteIds, |siteIds|);
    var placed := NodeLayer(sites, params, siteIds, params.nodeCount);
    NodeLayerHasNode(sites, params, siteIds, params.nodeCount, i);
    HardwareKeepsNodes(placed, params.interfacesPerPort, params.nodeCount);
    LinksKeepNodes(HardwareLayer(placed, params.interfacesPerPort, params.nodeCount), params.nodeCount - 1);
    GroupsKeepNodes(LayoutOf(params, siteIds), links, |links| / 2);
  }
}
