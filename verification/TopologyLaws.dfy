/** What the layers of a generated topology add up to: which interfaces terminate which link. */
module TopologyLaws {
  import opened Common
  import opened Decimals
  import opened ManagedObjectIds
  import opened SnapshotWriter
  import opened TopologyModel

  function TypeOf(moid: string): string {
    moid[..IndexOf(moid, ':')]
  }

  lemma IdHasType(t: string, x: string)
    requires IsTypeToken(t)
    ensures TypeOf(Id(t, x)) == t
  {
    TokenHasNoColon(t);
    FirstColon(t, x);
  }

  lemma NamesHaveTypes(i: nat)
    ensures TypeOf(InterfaceName(i, 0)) == "Interface" && TypeOf(LinkName(i)) == "IPLink"
    ensures TypeOf(GroupName(i)) == "SRLG" && TypeOf(NodeName(i)) == "Node"
  {
    hide IsTypeToken, Id, TypeOf;
    TypeTokens();
    IdHasType("Interface", InterfaceId(NodeId(i), 0));
    IdHasType("IPLink", PairId(NodeId(i), "_", NodeId(i + 1)));
    IdHasType("SRLG", "SRLG-" + Digits(i));
    IdHasType("Node", NodeId(i));
  }

  // ---- Terminations, layer by layer ----

  ghost function Terminations(l: Layout): set<Endpoints> {
    set e | e in l.edges && l.edges[e] == "TERMINATES"
  }

  /** Terminations run from an interface to a link. */
  ghost predicate OnlyEnds(s: set<Endpoints>) {
    forall e :: e in s ==> TypeOf(e.0) == "Interface" && TypeOf(e.1) == "IPLink"
  }

  lemma JoinKeeps(l: Layout, src: string, dst: string, relation: string)
    requires OnlyEnds(Terminations(l)) && relation != "TERMINATES"
    requires TypeOf(src) != "Interface" || TypeOf(dst) != "IPLink"
    ensures Terminations(l.Join(src, dst, relation)) == Terminations(l)
  {
    hide TypeOf;
    assert (src, dst) !in Terminations(l);
  }

  lemma JoinAdds(l: Layout, src: string, dst: string)
    ensures Terminations(l.Join(src, dst, "TERMINATES")) == Terminations(l) + {(src, dst)}
  {
  }

  lemma RelationsDiffer()
    ensures "LOCATED_AT" != "TERMINATES" && "HOSTED_ON" != "TERMINATES" && "HOSTS" != "TERMINATES"
    ensures "RIDES_ON" != "TERMINATES" && "ADJACENCY_OVER" != "TERMINATES" && "TRAVERSES" != "TERMINATES"
    ensures "SERVES" != "TERMINATES" && "MEMBER_OF" != "TERMINATES"
  {
    assert "TRAVERSES"[1] == 'R' && "TERMINATES"[1] == 'E' && "TERMINATES"[0] == 'T';
    assert "LOCATED_AT"[0] == 'L' && "HOSTED_ON"[0] == 'H' && "HOSTS"[0] == 'H' && "RIDES_ON"[0] == 'R';
    assert "ADJACENCY_OVER"[0] == 'A' && "SERVES"[0] == 'S' && "MEMBER_OF"[0] == 'M';
  }

  lemma TypesDiffer()
    ensures "IPLink" != "Interface" && "FiberSpan" != "Interface" && "SRLG" != "Interface" && "LSP" != "Interface"
    ensures "IGPAdjacency" != "IPLink" && "IGPAdjacency" != "Interface" && "VPNService" != "Interface"
  {
    assert |"IPLink"| == 6 && |"Interface"| == 9 && "FiberSpan"[0] == 'F' && "Interface"[0] == 'I';
    assert |"SRLG"| == 4 && |"LSP"| == 3 && |"IGPAdjacency"| == 12 && |"VPNService"| == 10;
  }

  /** A link's layer adds the two terminations of the link, and no interface. */
  lemma LinkAdds(l: Layout, i: nat)
    requires OnlyEnds(Terminations(l))
    ensures Terminations(LinkOf(l, i)) ==
              Terminations(l) + {(InterfaceName(i, 0), LinkName(i)), (InterfaceName(i + 1, 0), LinkName(i))}
    ensures OnlyEnds(Terminations(LinkOf(l, i)))
    ensures forall j: nat :: InterfaceName(j, 0) in LinkOf(l, i).nodes <==> InterfaceName(j, 0) in l.nodes
  {
    hide TypeOf, IsTypeToken, Id, InterfaceId, PairId, NodeId, Terminations, ServiceOf;
    var one, two := InterfaceName(i, 0), InterfaceName(i + 1, 0);
    var pair := PairId(NodeId(i), "_", NodeId(i + 1));
    var path := PairId(NodeId(i), "-", NodeId(i + 1)) + "-1";
    var link, adjacency, fiber := Id("IPLink", pair), Id("IGPAdjacency", pair), Id("FiberSpan", "F-" + pair);
    TypeTokens();
    TypesDiffer();
    RelationsDiffer();
    NamesHaveTypes(i);
    NamesHaveTypes(i + 1);
    IdHasType("IGPAdjacency", pair);
    IdHasType("FiberSpan", "F-" + pair);
    var ended := l.Put("IPLink", pair, None).Join(one, link, "TERMINATES").Join(two, link, "TERMINATES");
    PutKeeps(l, "IPLink", pair, None);
    JoinAdds(l.Put("IPLink", pair, None), one, link);
    JoinAdds(l.Put("IPLink", pair, None).Join(one, link, "TERMINATES"), two, link);
    var spanned := ended.Put("FiberSpan", "F-" + pair, None);
    PutKeeps(ended, "FiberSpan", "F-" + pair, None);
    JoinKeeps(spanned, fiber, link, "RIDES_ON");
    var ridden := spanned.Join(fiber, link, "RIDES_ON");
    PutKeeps(ridden, "IGPAdjacency", pair, None);
    var near := ridden.Put("IGPAdjacency", pair, None);
    JoinKeeps(near, one, adjacency, "ADJACENCY_OVER");
    JoinKeeps(near.Join(one, adjacency, "ADJACENCY_OVER"), link, adjacency, "ADJACENCY_OVER");
    var joined := near.Join(one, adjacency, "ADJACENCY_OVER").Join(link, adjacency, "ADJACENCY_OVER");
    ServiceKeeps(joined, link, path, i);
    assert LinkOf(l, i) == ServiceOf(joined, link, path, i);
  }

  /** Adding an object of another layer changes no termination and no interface. */
  lemma PutKeeps(l: Layout, t: string, x: string, area: Option<string>)
    requires IsTypeToken(t) && t != "Interface"
    ensures Terminations(l.Put(t, x, area)) == Terminations(l)
    ensures forall j: nat :: InterfaceName(j, 0) in l.Put(t, x, area).nodes <==> InterfaceName(j, 0) in l.nodes
  {
    hide IsTypeToken, Id;
    TypeTokens();
    forall j: nat ensures InterfaceName(j, 0) != Id(t, x) { TypesApart("Interface", InterfaceId(NodeId(j), 0), t, x); }
  }

  lemma ServiceKeeps(l: Layout, link: string, path: string, i: nat)
    requires OnlyEnds(Terminations(l)) && TypeOf(link) == "IPLink"
    ensures Terminations(ServiceOf(l, link, path, i)) == Terminations(l)
    ensures forall j: nat :: InterfaceName(j, 0) in ServiceOf(l, link, path, i).nodes <==>
      InterfaceName(j, 0) in l.nodes
  {
    hide TypeOf, IsTypeToken, Id, Terminations, InterfaceName;
    TypeTokens();
    TypesDiffer();
    RelationsDiffer();
    var service := "CUST-" + Digits(i % 5);
    var lsp, vpn := Id("LSP", path), Id("VPNService", service);
    IdHasType("LSP", path);
    PutKeeps(l, "LSP", path, None);
    JoinKeeps(l.Put("LSP", path, None), link, lsp, "TRAVERSES");
    var carried := l.Put("LSP", path, None).Join(link, lsp, "TRAVERSES");
    PutKeeps(carried, "VPNService", service, None);
    var served := if vpn in carried.nodes then carried else carried.Put("VPNService", service, None);
    JoinKeeps(served, lsp, vpn, "SERVES");
  }

  /** The two interfaces of each link whose ends exist. */
  ghost function Ends(nodes: map<string, NodeData>, n: nat): set<Endpoints> {
    if n == 0 then {}
    else
      Ends(nodes, n - 1) +
      if InterfaceName(n - 1, 0) in nodes && InterfaceName(n, 0) in nodes
      then {(InterfaceName(n - 1, 0), LinkName(n - 1)), (InterfaceName(n, 0), LinkName(n - 1))} else {}
  }

  lemma {:induction false} LinkLayerEnds(l: Layout, n: nat)
    requires Terminations(l) == {}
    ensures Terminations(LinkLayer(l, n)) == Ends(l.nodes, n) && OnlyEnds(Terminations(LinkLayer(l, n)))
    ensures forall j: nat :: InterfaceName(j, 0) in LinkLayer(l, n).nodes <==> InterfaceName(j, 0) in l.nodes
  {
    hide LinkOf, InterfaceName, LinkName, TypeOf, Terminations;
    if n > 0 {
      LinkLayerEnds(l, n - 1);
      LinkAdds(LinkLayer(l, n - 1), n - 1);
    }
  }

  lemma {:induction false} GroupLayerKeeps(l: Layout, links: seq<string>, at: seq<nat>, k: nat)
    requires OnlyEnds(Terminations(l)) && LinksNamed(links, at) && 2 * k <= |links|
    ensures Terminations(GroupLayer(l, links, k)) == Terminations(l)
  {
    hide TypeOf, IsTypeToken, Id, Terminations, InterfaceName, LinkName, GroupName;
    if k > 0 {
      GroupLayerKeeps(l, links, at, k - 1);
      TypeTokens();
      TypesDiffer();
      RelationsDiffer();
      var group, one, two := GroupName(k - 1), links[2 * k - 2], links[2 * k - 1];
      NamesHaveTypes(k - 1);
      NamesHaveTypes(at[2 * k - 2]);
      NamesHaveTypes(at[2 * k - 1]);
      var before := GroupLayer(l, links, k - 1);
      PutKeeps(before, "SRLG", "SRLG-" + Digits(k - 1), None);
      var a := before.Put("SRLG", "SRLG-" + Digits(k - 1), None);
      JoinKeeps(a, group, one, "MEMBER_OF");
      var b := a.Join(group, one, "MEMBER_OF");
      JoinKeeps(b, group, two, "MEMBER_OF");
      var c := b.Join(group, two, "MEMBER_OF");
      JoinKeeps(c, one, group, "MEMBER_OF");
      JoinKeeps(c.Join(one, group, "MEMBER_OF"), two, group, "MEMBER_OF");
    }
  }

  lemma NoTermination(l: Layout, src: string, dst: string, relation: string)
    requires Terminations(l) == {} && relation != "TERMINATES"
    ensures Terminations(l.Join(src, dst, relation)) == {}
  {
    assert forall e :: e in l.edges ==> e !in Terminations(l);
  }

  lemma PutAddsNone(l: Layout, t: string, x: string, area: Option<string>)
    ensures Terminations(l.Put(t, x, area)) == Terminations(l)
  {
  }

  lemma {:induction false} SitesEndNothing(l: Layout, siteIds: seq<string>, n: nat)
    requires n <= |siteIds| && Terminations(l) == {}
    ensures Terminations(SiteLayer(l, siteIds, n)) == {}
  {
    if n > 0 {
      SitesEndNothing(l, siteIds, n - 1);
      PutAddsNone(SiteLayer(l, siteIds, n - 1), "Site", siteIds[n - 1], None);
    }
  }

  lemma {:induction false} NodesEndNothing(l: Layout, params: TopologyParams, siteIds: seq<string>, n: nat)
    requires siteIds != [] && Terminations(l) == {}
    ensures Terminations(NodeLayer(l, params, siteIds, n)) == {}
  {
    hide AreaForRole, RoleOf, EdgeCount, Terminations, NodeId;
    if n > 0 {
      NodesEndNothing(l, params, siteIds, n - 1);
      RelationsDiffer();
      var before := NodeLayer(l, params, siteIds, n - 1);
      var area := Some(AreaForRole(RoleOf(n - 1), params.igpAreaCount, EdgeCount(n - 1)));
      PutAddsNone(before, "Node", NodeId(n - 1), area);
      NoTermination(before.Put("Node", NodeId(n - 1), area), NodeName(n - 1), SiteName(siteIds, n - 1), "LOCATED_AT");
    }
  }

  lemma {:induction false} InterfacesEndNothing(l: Layout, port: string, nodeId: string, area: Option<string>, n: nat)
    requires Terminations(l) == {}
    ensures var after := InterfaceLayer(l, port, nodeId, area, n);
            && Terminations(after) == {} && l.nodes.Keys <= after.nodes.Keys
            && forall k :: 0 <= k < n ==> Id("Interface", InterfaceId(nodeId, k)) in after.nodes
  {
    hide Terminations, InterfaceId, Id;
    if n > 0 {
      InterfacesEndNothing(l, port, nodeId, area, n - 1);
      RelationsDiffer();
      var before, id := InterfaceLayer(l, port, nodeId, area, n - 1), InterfaceId(nodeId, n - 1);
      PutAddsNone(before, "Interface", id, area);
      NoTermination(before.Put("Interface", id, area), port, Id("Interface", id), "HOSTS");
    }
  }

  lemma HardwareEndsNothing(l: Layout, i: nat, perPort: nat)
    requires Terminations(l) == {}
    ensures var after := HardwareOf(l, i, perPort);
            && Terminations(after) == {} && l.nodes.Keys <= after.nodes.Keys
            && (perPort > 0 ==> InterfaceName(i, 0) in after.nodes)
  {
    hide Terminations, InterfaceId, Id, NodeId, NodeName, InterfaceLayer;
    RelationsDiffer();
    var card, port := NodeId(i) + "-LC1", NodeId(i) + "-LC1" + "-P1";
    var placed := l.Put("LineCard", card, None).Put("Port", port, None);
    PutAddsNone(l, "LineCard", card, None);
    PutAddsNone(l.Put("LineCard", card, None), "Port", port, None);
    NoTermination(placed, NodeName(i), Id("LineCard", card), "HOSTED_ON");
    var under := placed.Join(NodeName(i), Id("LineCard", card), "HOSTED_ON");
    NoTermination(under, Id("LineCard", card), Id("Port", port), "HOSTED_ON");
    var area := if NodeName(i) in l.nodes then l.nodes[NodeName(i)].igpArea else None;
    InterfacesEndNothing(under.Join(Id("LineCard", card), Id("Port", port), "HOSTED_ON"), Id("Port", port), NodeId(i),
        area, perPort);
  }

  lemma {:induction false} HardwareLayerEnds(l: Layout, perPort: nat, n: nat)
    requires Terminations(l) == {}
    ensures var after := HardwareLayer(l, perPort, n);
            && Terminations(after) == {} && l.nodes.Keys <= after.nodes.Keys
            && (perPort > 0 ==> forall i: nat :: i < n ==> InterfaceName(i, 0) in after.nodes)
  {
    hide Terminations, HardwareOf, InterfaceName;
    if n > 0 {
      HardwareLayerEnds(l, perPort, n - 1);
      HardwareEndsNothing(HardwareLayer(l, perPort, n - 1), n - 1, perPort);
    }
  }

  lemma {:induction false} EndsOfAll(nodes: map<string, NodeData>, n: nat, e: Endpoints)
    requires forall i: nat :: i <= n ==> InterfaceName(i, 0) in nodes
    ensures e in Ends(nodes, n) <==> IsSomeEnd(e, n)
  {
    hide InterfaceName, LinkName;
    if n > 0 {
      EndsOfAll(nodes, n - 1, e);
      assert e in {(InterfaceName(n - 1, 0), LinkName(n - 1)), (InterfaceName(n, 0), LinkName(n - 1))} <==>
          IsEnd(e, n - 1);
    }
  }

  ghost predicate IsSomeEnd(e: Endpoints, n: nat) {
    exists i: nat :: i < n && IsEnd(e, i)
  }

  /** One of the two interfaces at the ends of the i-th link. */
  ghost predicate IsEnd(e: Endpoints, i: nat) {
    e == (InterfaceName(i, 0), LinkName(i)) || e == (InterfaceName(i + 1, 0), LinkName(i))
  }

  /** With interfaces on the ports, each of the n - 1 links of a generated topology is terminated by exactly
      two interfaces, the first ones of its two nodes, and nothing else is terminated. */
  lemma LinksHaveTwoEnds(params: TopologyParams, siteIds: seq<string>, links: seq<string>, at: seq<nat>, i: nat)
    requires siteIds != [] && LinksNamed(links, at) && params.interfacesPerPort > 0 && i + 1 < params.nodeCount
    ensures var ends := Terminations(GroupLayer(LayoutOf(params, siteIds), links, |links| / 2));
            && (forall e :: e in ends <==> IsSomeEnd(e, params.nodeCount - 1))
            && (set e | e in ends && e.1 == LinkName(i)) ==
                 {(InterfaceName(i, 0), LinkName(i)), (InterfaceName(i + 1, 0), LinkName(i))}
            && InterfaceName(i, 0) != InterfaceName(i + 1, 0)
  {
    hide Terminations, SiteLayer, NodeLayer, HardwareLayer, LinkLayer, GroupLayer, InterfaceName, LinkName, OnlyEnds,
         Ends, LinksNamed;
    var n, last: nat := params.nodeCount, params.nodeCount - 1;
    var bare := Layout(map[], map[]);
    assert Terminations(bare) == {} by { NothingEnds(); }
    SitesEndNothing(bare, siteIds, |siteIds|);
    NodesEndNothing(SiteLayer(bare, siteIds, |siteIds|), params, siteIds, n);
    var placed := NodeLayer(SiteLayer(bare, siteIds, |siteIds|), params, siteIds, n);
    HardwareLayerEnds(placed, params.interfacesPerPort, n);
    var hardware := HardwareLayer(placed, params.interfacesPerPort, n);
    LinkLayerEnds(hardware, last);
    GroupLayerKeeps(LayoutOf(params, siteIds), links, at, |links| / 2);
    forall e ensures e in Ends(hardware.nodes, last) <==> IsSomeEnd(e, last) {
      EndsOfAll(hardware.nodes, last, e);
    }
    forall j: nat ensures LinkName(i) == LinkName(j) <==> i == j { LinkNames(i, j); }
    InterfaceNames(i, 0, i + 1, 0);
    assert IsEnd((InterfaceName(i, 0), LinkName(i)), i) && IsEnd((InterfaceName(i + 1, 0), LinkName(i)), i);
  }

  lemma NothingEnds()
    ensures Terminations(Layout(map[], map[])) == {}
  {
  }
}
