/** From the simulator to the trail builder: on any slice of a generated topology, the assumptions under
    which the shared-risk union and the area tags were proved right hold. */
module GeneratedTrails {
  import opened Common
  import opened Decimals
  import opened ManagedObjectIds
  import opened SnapshotFiles
  import opened SnapshotWriter
  import opened TopologyModel
  import opened TrailModels
  import opened TrailClosure
  import opened SrlgUnion
  import opened TrailCompute
  import opened AreaLaws

  /** A slice shows part of a topology: its nodes with their areas, and no membership edge of its own. */
  ghost predicate Shows(slice: Slice, nodes: map<string, NodeData>, memberships: set<Endpoints>) {
    && (forall e :: e in slice.edges && e.relation == "MEMBER_OF" ==> (e.src, e.dst) in memberships)
    && (forall id :: id in slice.nodes ==> id in nodes && slice.nodes[id].IgpArea(Some("igpArea")) == nodes[id].igpArea)
  }

  /** The Core-IP policy: areas by `igpArea`, shared risk by membership edges. */
  ghost predicate IsCoreIpPolicy(policy: TrailPolicy) {
    && (AreaKey(policy) == None || AreaKey(policy) == Some("igpArea"))
    && policy.srlgRule.edgeType == Some("MEMBER_OF")
  }

  /** Membership of the x-th link, one way or the other. */
  ghost predicate IsPair(links: seq<string>, m: string, n: string, x: nat) {
    x < |links| && ((m == GroupName(x / 2) && n == links[x]) || (m == links[x] && n == GroupName(x / 2)))
  }

  lemma {:induction false} GroupEdgeIsPair(links: seq<string>, k: nat, m: string, n: string) returns (x: nat)
    requires 2 * k <= |links| && (m, n) in GroupEdges(links, k)
    ensures IsPair(links, m, n, x) && x < 2 * k
  {
    hide GroupName;
    if (m, n) in GroupEdges(links, k - 1) {
      x := GroupEdgeIsPair(links, k - 1, m, n);
    } else {
      var one := links[2 * k - 2];
      x := if (m, n) == (GroupName(k - 1), one) || (m, n) == (one, GroupName(k - 1)) then 2 * k - 2 else 2 * k - 1;
    }
  }

  lemma GroupNames(i: nat, j: nat)
    ensures GroupName(i) == GroupName(j) <==> i == j
    ensures GroupName(i) != LinkName(j)
  {
    DigitsInjective(i, j);
    assert GroupName(i)[10..] == Digits(i) && GroupName(j)[10..] == Digits(j);
    TypeTokens();
    TypesApart("SRLG", "SRLG-" + Digits(i), "IPLink", PairId(NodeId(j), "_", NodeId(j + 1)));
  }

  lemma LinksDiffer(links: seq<string>, at: seq<nat>, x: nat, y: nat)
    requires LinksNamed(links, at) && x < |links| && y < |links|
    ensures links[x] == links[y] <==> x == y
  {
    LinkNames(at[x], at[y]);
  }

  /** A qualifying group of such a slice is a shared-risk group of the topology, with its two links. */
  ghost predicate IsTopologyGroup(links: seq<string>, g: Group, j: nat) {
    2 * j + 1 < |links| && g.node == GroupName(j) && g.coMembers <= {links[2 * j], links[2 * j + 1]}
  }

  lemma CoMemberIsPaired(slice: Slice, policy: TrailPolicy, nodes: map<string, NodeData>, links: seq<string>, g: Group,
                         m: string) returns (x: nat)
    requires IsCoreIpPolicy(policy) && Shows(slice, nodes, GroupEdges(links, |links| / 2))
    requires g in SrlgGroups(policy, slice.edges) && m in g.coMembers
    ensures IsPair(links, m, g.node, x) && x < 2 * (|links| / 2)
  {
    hide GroupEdges, IsPair;
    var dict := DictOf(slice.edges, "MEMBER_OF");
    DictHoldsCoMembers(slice.edges, "MEMBER_OF");
    var i :| 0 <= i < |dict.order| && dict.Items()[i] == g;
    assert g.node in Elements(dict.order);
    assert GraphEdge(m, g.node, "MEMBER_OF") in slice.edges;
    x := GroupEdgeIsPair(links, |links| / 2, m, g.node);
  }

  lemma QualifyingIsTopologyGroup(slice: Slice, policy: TrailPolicy, nodes: map<string, NodeData>, links: seq<string>,
                                  at: seq<nat>, g: Group) returns (j: nat)
    requires IsCoreIpPolicy(policy) && Shows(slice, nodes, GroupEdges(links, |links| / 2)) && LinksNamed(links, at)
    requires g in SrlgGroups(policy, slice.edges) && g.Qualifies()
    ensures IsTopologyGroup(links, g, j)
  {
    hide GroupEdges, GroupName, LinkName, SrlgGroups, Shows, IsCoreIpPolicy;
    var m, n := TwoMembers(g.coMembers);
    var x := CoMemberIsPaired(slice, policy, nodes, links, g, m);
    var y := CoMemberIsPaired(slice, policy, nodes, links, g, n);
    PairsAgree(links, at, m, n, g.node, x, y);
    j := x / 2;
    forall l | l in g.coMembers ensures l in {links[2 * j], links[2 * j + 1]} {
      var z := CoMemberIsPaired(slice, policy, nodes, links, g, l);
      PairsAgree(links, at, m, l, g.node, x, z);
    }
  }

  lemma TwoMembers(s: set<string>) returns (a: string, b: string)
    requires |s| >= 2
    ensures a in s && b in s && a != b
  {
    a :| a in s;
    assert |s - {a}| > 0;
    b :| b in s - {a};
  }

  /** Two members of one group: either its node is a link and they are the same group node, or its node
      is a group and they are links of it. */
  lemma PairsAgree(links: seq<string>, at: seq<nat>, m: string, n: string, node: string, x: nat, y: nat)
    requires LinksNamed(links, at) && IsPair(links, m, node, x) && IsPair(links, n, node, y)
    ensures m != n ==> x / 2 == y / 2 && node == GroupName(x / 2) && m == links[x] && n == links[y]
    ensures node == GroupName(x / 2) ==> x / 2 == y / 2 && n == links[y]
  {
    hide GroupName, LinkName;
    assert links[x] == LinkName(at[x]) && links[y] == LinkName(at[y]);
    GroupNames(x / 2, at[y]);
    GroupNames(y / 2, at[x]);
    GroupNames(x / 2, y / 2);
    LinksDiffer(links, at, x, y);
  }

  /** The groups of a slice of a generated topology are independent, so by the sweep's own law one pass
      is the least completion of every trail, whatever the order of groups. */
  lemma GeneratedGroupsAreIndependent(slice: Slice, policy: TrailPolicy, nodes: map<string, NodeData>,
                                      links: seq<string>, at: seq<nat>)
    requires IsCoreIpPolicy(policy) && Shows(slice, nodes, GroupEdges(links, |links| / 2)) && LinksNamed(links, at)
    ensures Independent(SrlgGroups(policy, slice.edges))
  {
    hide GroupEdges, GroupName, LinkName, SrlgGroups, Shows, IsCoreIpPolicy;
    var groups := SrlgGroups(policy, slice.edges);
    GroupsAreKeyed(policy, slice.edges);
    forall g, h | g in groups && h in groups && g != h && g.Qualifies() && h.Qualifies()
        ensures g.Shared() !! h.coMembers {
      var i := QualifyingIsTopologyGroup(slice, policy, nodes, links, at, g);
      var j := QualifyingIsTopologyGroup(slice, policy, nodes, links, at, h);
      TopologyGroupsApart(links, at, g, i, h, j);
    }
  }

  /** One group for each node. */
  lemma GroupsAreKeyed(policy: TrailPolicy, edges: seq<GraphEdge>)
    ensures NoDuplicates(SrlgGroups(policy, edges))
    ensures forall g, h ::
      g in SrlgGroups(policy, edges) && h in SrlgGroups(policy, edges) && g != h ==> g.node != h.node
  {
  }

  lemma TopologyGroupsApart(links: seq<string>, at: seq<nat>, g: Group, i: nat, h: Group, j: nat)
    requires LinksNamed(links, at) && IsTopologyGroup(links, g, i) && IsTopologyGroup(links, h, j) && g.node != h.node
    ensures g.Shared() !! h.coMembers
  {
    hide GroupName, LinkName;
    GroupNames(i, j);
    forall x | x in g.Shared() && x in h.coMembers ensures false {
      LinksDiffer(links, at, 2 * i, 2 * j);
      LinksDiffer(links, at, 2 * i, 2 * j + 1);
      LinksDiffer(links, at, 2 * i + 1, 2 * j);
      LinksDiffer(links, at, 2 * i + 1, 2 * j + 1);
      assert links[2 * j] == LinkName(at[2 * j]) && links[2 * j + 1] == LinkName(at[2 * j + 1]);
      GroupNames(i, at[2 * j]);
      GroupNames(i, at[2 * j + 1]);
    }
  }

  /** Shared-risk groups and links carry no area, so every tag on such a slice is truthful. */
  lemma GeneratedTagsAreSafe(g: DiGraph, slice: Slice, policy: TrailPolicy, hash: Hash, links: seq<string>,
                             at: seq<nat>, t: Trail)
    requires WellBuilt(g) && LinksNamed(links, at)
    requires IsCoreIpPolicy(policy) && Shows(slice, g.nodes, GroupEdges(links, |links| / 2))
    requires t in TrailsOf(slice, policy, hash)
    ensures TagSafe(slice, policy, t)
  {
    hide GroupEdges, TrailsOf, SrlgGroups, TagSafe;
    forall h, x | h in SrlgGroups(policy, slice.edges) && h.Qualifies() && x in h.Shared()
        ensures AreaAt(slice, policy, x).None? {
      var j := QualifyingIsTopologyGroup(slice, policy, g.nodes, links, at, h);
      SharedAreAreaLess(g, slice, policy, links, at, h, j, x);
    }
    TagsAreSafe(slice, policy, hash, t);
  }

  lemma SharedAreAreaLess(g: DiGraph, slice: Slice, policy: TrailPolicy, links: seq<string>, at: seq<nat>, h: Group,
                          j: nat, x: string)
    requires WellBuilt(g) && LinksNamed(links, at) && IsTopologyGroup(links, h, j) && x in h.Shared()
    requires IsCoreIpPolicy(policy) && Shows(slice, g.nodes, GroupEdges(links, |links| / 2))
    ensures AreaAt(slice, policy, x).None?
  {
    hide GroupEdges, WellBuilt, GroupName, LinkName;
    GroupHasNoArea(g, j);
    LinkAtHasNoArea(g, links, at, 2 * j);
    LinkAtHasNoArea(g, links, at, 2 * j + 1);
    NoKeyNoArea(slice, x);
  }

  lemma GroupHasNoArea(g: DiGraph, j: nat)
    requires WellBuilt(g)
    ensures GroupName(j) in g.nodes ==> g.nodes[GroupName(j)].igpArea.None?
  {
    TypeTokens();
    NumberIsIdentifier(j);
    Identifiers(Digits(j), "SRLG-");
    HasNoArea(g.nodes, "SRLG", "SRLG-" + Digits(j));
  }

  lemma LinkAtHasNoArea(g: DiGraph, links: seq<string>, at: seq<nat>, k: nat)
    requires WellBuilt(g) && LinksNamed(links, at) && k < |links|
    ensures links[k] in g.nodes ==> g.nodes[links[k]].igpArea.None?
  {
    hide IsTypeToken, IsIdentifier, WellTyped, Digits;
    TypeTokens();
    PairIdentifier(at[k], "_", at[k] + 1);
    HasNoArea(g.nodes, "IPLink", PairId(NodeId(at[k]), "_", NodeId(at[k] + 1)));
  }

  lemma HasNoArea(nodes: map<string, NodeData>, objectType: string, id: string)
    requires Clean(nodes) && AreasOnDevices(nodes) && IsTypeToken(objectType) && IsIdentifier(id)
    requires objectType != "Node" && objectType != "Interface"
    ensures Id(objectType, id) in nodes ==> nodes[Id(objectType, id)].igpArea.None?
  {
    TypedId(objectType, id);
  }

  lemma NoKeyNoArea(slice: Slice, x: string)
    ensures x in slice.nodes ==> slice.nodes[x].IgpArea(None).None?
  {
  }
}
