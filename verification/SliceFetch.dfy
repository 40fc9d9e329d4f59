/** The slice worklist of clients/topology_client.py, over a Topology API given as functions. */
module SliceFetch {
  import opened Common
  import opened Reachability
  import opened TrailModels
  import opened TrailClosure

  datatype Neighbor = Neighbor(node: GraphNode, edge: GraphEdge)

  /** Two read endpoints: list by type, and the neighbours of an id over some relations. */
  datatype TopologyApi = TopologyApi(
    listNodes: string -> seq<GraphNode>,
    neighbors: (string, seq<string>) -> seq<Neighbor>)

  function NeighborIds(neighbors: seq<Neighbor>): set<string> {
    if neighbors == [] then {}
    else NeighborIds(neighbors[..|neighbors|-1]) + {neighbors[|neighbors|-1].node.managedObjectId}
  }

  function NeighborEdges(neighbors: seq<Neighbor>): set<GraphEdge> {
    if neighbors == [] then {}
    else NeighborEdges(neighbors[..|neighbors|-1]) + {neighbors[|neighbors|-1].edge}
  }

  function NeighborNodes(neighbors: seq<Neighbor>): set<GraphNode> {
    if neighbors == [] then {}
    else NeighborNodes(neighbors[..|neighbors|-1]) + {neighbors[|neighbors|-1].node}
  }

  lemma {:induction false} NeighborMembers(neighbors: seq<Neighbor>)
    ensures forall id :: id in NeighborIds(neighbors) <==> exists n :: n in neighbors && n.node.managedObjectId == id
    ensures forall e :: e in NeighborEdges(neighbors) <==> exists n :: n in neighbors && n.edge == e
    ensures forall g :: g in NeighborNodes(neighbors) <==> exists n :: n in neighbors && n.node == g
  {
    if neighbors != [] {
      var front, last := neighbors[..|neighbors|-1], neighbors[|neighbors|-1];
      NeighborMembers(front);
      assert neighbors == front + [last];
      assert last in neighbors;
    }
  }

  /** A neighbour entry's edge joins the queried id and the reported node. */
  ghost predicate JoinsEndpoints(api: TopologyApi, relations: seq<string>) {
    forall id: string, n: Neighbor :: n in api.neighbors(id, relations) ==>
      || (n.edge.src == id && n.edge.dst == n.node.managedObjectId)
      || (n.edge.dst == id && n.edge.src == n.node.managedObjectId)
  }

  function Ids(nodes: seq<GraphNode>): set<string> {
    set n | n in nodes :: n.managedObjectId
  }

  /** The ids the list endpoint returns for the seed types. */
  function SeedIds(api: TopologyApi, types: seq<string>): set<string> {
    if types == [] then {} else SeedIds(api, types[..|types|-1]) + Ids(api.listNodes(types[|types|-1]))
  }

  function SeedNodes(api: TopologyApi, types: seq<string>): set<GraphNode> {
    if types == [] then {} else SeedNodes(api, types[..|types|-1]) + Elements(api.listNodes(types[|types|-1]))
  }

  lemma {:induction false} SeedsExactly(api: TopologyApi, types: seq<string>, node: GraphNode)
    ensures node in SeedNodes(api, types) <==> exists t :: t in types && node in api.listNodes(t)
    ensures forall id :: id in SeedIds(api, types) <==>
      exists n :: n in SeedNodes(api, types) && n.managedObjectId == id
  {
    if types != [] {
      var front, last := types[..|types|-1], types[|types|-1];
      assert types == front + [last];
      SeedsExactly(api, front, node);
    }
  }

  /** Every recorded node is one that was reported. */
  ghost predicate NodesFrom(nodes: map<string, GraphNode>, reported: set<GraphNode>) {
    forall id :: id in nodes ==> nodes[id] in reported
  }

  /** Listed for a seed type, or reported as a neighbour of a node of the slice. */
  ghost predicate IsReportedNode(api: TopologyApi, relations: seq<string>, listed: set<GraphNode>, nodes: set<string>,
                                 node: GraphNode) {
    node in listed || exists id :: id in nodes && node in NeighborNodes(api.neighbors(id, relations))
  }

  /** Every neighbour of a node is a node. */
  ghost predicate ClosedNodes(api: TopologyApi, relations: seq<string>, nodes: set<string>) {
    forall id :: id in nodes ==> NeighborIds(api.neighbors(id, relations)) <= nodes
  }

  /** The least set that holds the seeds and is closed under the neighbour relation. */
  ghost predicate IsClosureOf(api: TopologyApi, relations: seq<string>, seeds: set<string>, nodes: set<string>) {
    && seeds <= nodes && ClosedNodes(api, relations, nodes)
    && forall s :: seeds <= s && ClosedNodes(api, relations, s) ==> nodes <= s
  }

  ghost predicate IsReported(api: TopologyApi, relations: seq<string>, nodes: set<string>, edge: GraphEdge) {
    exists id :: id in nodes && edge in NeighborEdges(api.neighbors(id, relations))
  }

  /** `dict.fromkeys` over the closure relations and the SRLG edge type. */
  function Relations(closureRelations: seq<string>, srlgEdgeType: Option<string>): (r: seq<string>)
    ensures NoDuplicates(r)
    ensures Elements(r) == Elements(closureRelations) +
              if srlgEdgeType.Some? && srlgEdgeType.value != "" then {srlgEdgeType.value} else {}
  {
    var all := closureRelations + if srlgEdgeType.Some? && srlgEdgeType.value != "" then [srlgEdgeType.value] else [];
    FirstOccurrences(all)
  }

  /** Adds the nodes listed for one type. */
  method ListType(slice: GraphSlice, listed: seq<GraphNode>, before: seq<string>, ghost reported: set<GraphNode>)
      returns (seeds: seq<string>)
    requires slice.Valid() && slice.nodes.Keys == Elements(before) && NodesFrom(slice.nodes, reported)
    modifies slice`nodes
    ensures slice.Valid() && slice.nodes.Keys == Elements(seeds) == Elements(before) + Ids(listed)
    ensures NodesFrom(slice.nodes, reported + Elements(listed))
  {
    seeds := before;
    for j := 0 to |listed|
      invariant slice.Valid() && slice.nodes.Keys == Elements(seeds) == Elements(before) + Ids(listed[..j])
      invariant NodesFrom(slice.nodes, reported + Elements(listed[..j]))
    {
      NextListed(listed, j);
      ElementsAppend(seeds, listed[j].managedObjectId);
      slice.AddNode(listed[j]);
      seeds := seeds + [listed[j].managedObjectId];
    }
    assert listed[..|listed|] == listed;
  }

  lemma NextListed(listed: seq<GraphNode>, j: nat)
    requires j < |listed|
    ensures Ids(listed[..j+1]) == Ids(listed[..j]) + {listed[j].managedObjectId}
    ensures Elements(listed[..j+1]) == Elements(listed[..j]) + {listed[j]}
  {
    assert listed[..j+1] == listed[..j] + [listed[j]];
  }

  method ListSeeds(slice: GraphSlice, types: seq<string>, api: TopologyApi) returns (seeds: seq<string>)
    requires slice.Valid() && slice.nodes == map[]
    modifies slice`nodes
    ensures slice.Valid()
    ensures slice.nodes.Keys == Elements(seeds) == SeedIds(api, types)
    ensures NodesFrom(slice.nodes, SeedNodes(api, types))
  {
    hide Ids, Elements, NodesFrom;
    seeds := [];
    NothingListed(slice);
    for i := 0 to |types|
      invariant slice.Valid()
      invariant slice.nodes.Keys == Elements(seeds) == SeedIds(api, types[..i])
      invariant NodesFrom(slice.nodes, SeedNodes(api, types[..i]))
    {
      assert types[..i+1][..i] == types[..i];
      seeds := ListType(slice, api.listNodes(types[i]), seeds, SeedNodes(api, types[..i]));
    }
    assert types[..|types|] == types;
  }

  lemma NothingListed(slice: GraphSlice)
    requires slice.nodes == map[]
    ensures Elements<string>([]) == {} && NodesFrom(slice.nodes, {})
  {
  }

  /** Records the neighbours of one id; an id already visited is not queued again. */
  method Absorb(slice: GraphSlice, neighbors: seq<Neighbor>, visited: set<string>, queued: seq<string>,
                known: set<GraphEdge>,
                ghost reported: set<GraphNode>)
    returns (frontier: seq<string>, seenEdges: set<GraphEdge>)
    requires slice.Valid() && NoDuplicates(slice.edges) && Elements(slice.edges) == known &&
      NodesFrom(slice.nodes, reported)
    modifies slice`nodes, slice`edges
    ensures slice.Valid() && slice.nodes.Keys == old(slice.nodes).Keys + NeighborIds(neighbors)
    ensures NodesFrom(slice.nodes, reported + NeighborNodes(neighbors))
    ensures Elements(frontier) + visited == Elements(queued) + NeighborIds(neighbors) + visited
    ensures seenEdges == known + NeighborEdges(neighbors)
    ensures NoDuplicates(slice.edges) && Elements(slice.edges) == seenEdges
  {
    hide NoDuplicates, Elements, NeighborIds, NeighborNodes, NeighborEdges, NodesFrom;
    frontier, seenEdges := queued, known;
    NoNeighbors(slice, reported);
    for j := 0 to |neighbors|
      invariant slice.Valid() && slice.nodes.Keys == old(slice.nodes).Keys + NeighborIds(neighbors[..j])
      invariant NodesFrom(slice.nodes, reported + NeighborNodes(neighbors[..j]))
      invariant Elements(frontier) + visited == Elements(queued) + NeighborIds(neighbors[..j]) + visited
      invariant seenEdges == known + NeighborEdges(neighbors[..j])
      invariant NoDuplicates(slice.edges) && Elements(slice.edges) == seenEdges
    {
      var node, edge := neighbors[j].node, neighbors[j].edge;
      NextNeighbor(neighbors, j);
      Record(slice, node, reported + NeighborNodes(neighbors[..j]));
      assert reported + NeighborNodes(neighbors[..j]) + {node} == reported + NeighborNodes(neighbors[..j+1]);
      seenEdges := RecordEdge(slice, edge, seenEdges);
      frontier := Enqueue(frontier, visited, node.managedObjectId);
    }
    assert neighbors[..|neighbors|] == neighbors;
  }

  method Record(slice: GraphSlice, node: GraphNode, ghost reported: set<GraphNode>)
    requires slice.Valid() && NodesFrom(slice.nodes, reported)
    modifies slice`nodes
    ensures slice.Valid() && slice.nodes.Keys == old(slice.nodes).Keys + {node.managedObjectId}
    ensures NodesFrom(slice.nodes, reported + {node})
  {
    slice.AddNode(node);
  }

  lemma NoNeighbors(slice: GraphSlice, reported: set<GraphNode>)
    ensures NeighborIds([]) == {} && NeighborNodes([]) == {} && NeighborEdges([]) == {}
    ensures reported + {} == reported
  {
  }

  lemma NextNeighbor(neighbors: seq<Neighbor>, j: nat)
    requires j < |neighbors|
    ensures NeighborIds(neighbors[..j+1]) == NeighborIds(neighbors[..j]) + {neighbors[j].node.managedObjectId}
    ensures NeighborNodes(neighbors[..j+1]) == NeighborNodes(neighbors[..j]) + {neighbors[j].node}
    ensures NeighborEdges(neighbors[..j+1]) == NeighborEdges(neighbors[..j]) + {neighbors[j].edge}
  {
    assert neighbors[..j+1][..j] == neighbors[..j];
  }

  method RecordEdge(slice: GraphSlice, edge: GraphEdge, known: set<GraphEdge>) returns (seen: set<GraphEdge>)
    requires NoDuplicates(slice.edges) && Elements(slice.edges) == known
    modifies slice`edges
    ensures seen == known + {edge}
    ensures NoDuplicates(slice.edges) && Elements(slice.edges) == seen
  {
    seen := known;
    ElementsAppend(slice.edges, edge);
    if edge !in seen {
      seen := seen + {edge};
      slice.AddEdge(edge);
    }
  }

  method Enqueue(queued: seq<string>, visited: set<string>, id: string) returns (frontier: seq<string>)
    ensures Elements(frontier) + visited == Elements(queued) + {id} + visited
  {
    ElementsAppend(queued, id);
    frontier := if id in visited then queued else queued + [id];
  }

  /** What the worklist knows: each visited id has had its neighbours and edges recorded, every edge
      was reported for a visited id, and every closed set with the seeds holds every node. */
  ghost predicate Progress(api: TopologyApi, relations: seq<string>, seeds: set<string>, nodes: set<string>,
                           visited: set<string>, edges: set<GraphEdge>) {
    && visited <= nodes
    && (forall s :: seeds <= s && ClosedNodes(api, relations, s) ==> nodes <= s)
    && (forall id :: id in visited ==> NeighborIds(api.neighbors(id, relations)) <= nodes)
    && (forall id :: id in visited ==> NeighborEdges(api.neighbors(id, relations)) <= edges)
    && (forall e :: e in edges ==> IsReported(api, relations, visited, e))
  }

  lemma ProgressContinues(api: TopologyApi, relations: seq<string>, seeds: set<string>, nodes: set<string>,
                          visited: set<string>, edges: set<GraphEdge>, id: string)
    requires Progress(api, relations, seeds, nodes, visited, edges) && id in nodes
    ensures var found := api.neighbors(id, relations);
      Progress(api, relations, seeds, nodes + NeighborIds(found), visited + {id}, edges + NeighborEdges(found))
  {
    var found := api.neighbors(id, relations);
    forall e | e in edges + NeighborEdges(found) ensures IsReported(api, relations, visited + {id}, e) {
      if e in edges {
        var k :| k in visited && e in NeighborEdges(api.neighbors(k, relations));
        assert k in visited + {id};
      } else {
        assert id in visited + {id};
      }
    }
  }

  /** `universe` says that the graph is finite: some finite set holds the seeds and is closed. The
      nodes fetched are exactly the closure of the seeds, each expanded once; the edges are exactly
      those reported for them, each once. */
  method FetchSlice(domain: string, scope: string, types: seq<string>, closureRelations: seq<string>,
                    srlgEdgeType: Option<string>, api: TopologyApi, ghost universe: set<string>)
    returns (slice: GraphSlice, ghost expanded: seq<string>)
    requires SeedIds(api, types) <= universe
    requires ClosedNodes(api, Relations(closureRelations, srlgEdgeType), universe)
    ensures fresh(slice) && slice.Valid() && slice.domain == domain && slice.snapshotId == scope
    ensures IsClosureOf(api, Relations(closureRelations, srlgEdgeType), SeedIds(api, types), slice.nodes.Keys)
    ensures forall id :: id in slice.nodes ==>
              IsReportedNode(api, Relations(closureRelations, srlgEdgeType), SeedNodes(api, types), slice.nodes.Keys,
                  slice.nodes[id])
    ensures NoDuplicates(expanded) && Elements(expanded) == slice.nodes.Keys
    ensures NoDuplicates(slice.edges)
    ensures forall e :: e in slice.edges <==>
              IsReported(api, Relations(closureRelations, srlgEdgeType), slice.nodes.Keys, e)
  {
    var relations := Relations(closureRelations, srlgEdgeType);
    slice := new GraphSlice(domain, scope);
    var seeds := ListSeeds(slice, types, api);
    expanded := Crawl(slice, seeds, relations, api, universe, SeedNodes(api, types));
    assert forall e :: e in slice.edges <==> e in Elements(slice.edges);
  }

  /** Expands one id: afterwards it counts as visited. */
  method ExpandOne(slice: GraphSlice, id: string, relations: seq<string>, api: TopologyApi, visited: set<string>,
                   queued: seq<string>, known: set<GraphEdge>, ghost seeds: set<string>, ghost listed: set<GraphNode>)
    returns (frontier: seq<string>, seenEdges: set<GraphEdge>)
    requires slice.Valid() && NoDuplicates(slice.edges) && Elements(slice.edges) == known
    requires slice.nodes.Keys == visited + {id} + Elements(queued)
    requires Progress(api, relations, seeds, slice.nodes.Keys, visited, known)
    requires NodesFrom(slice.nodes, ReportedFor(api, relations, listed, visited))
    modifies slice`nodes, slice`edges
    ensures slice.Valid() && NoDuplicates(slice.edges) && Elements(slice.edges) == seenEdges
    ensures old(slice.nodes).Keys <= slice.nodes.Keys == visited + {id} + Elements(frontier)
    ensures Progress(api, relations, seeds, slice.nodes.Keys, visited + {id}, seenEdges)
    ensures NodesFrom(slice.nodes, ReportedFor(api, relations, listed, visited + {id}))
  {
    hide Progress, NoDuplicates;
    ProgressContinues(api, relations, seeds, slice.nodes.Keys, visited, known, id);
    ReportedGrows(api, relations, listed, visited, id);
    frontier, seenEdges :=
        Absorb(slice, api.neighbors(id, relations), visited + {id}, queued, known,
            ReportedFor(api, relations, listed, visited));
  }

  /** The nodes listed, and those reported as neighbours of the visited ids. */
  ghost function ReportedFor(api: TopologyApi, relations: seq<string>, listed: set<GraphNode>,
                             visited: set<string>): set<GraphNode> {
    listed + set id, n | id in visited && n in NeighborNodes(api.neighbors(id, relations)) :: n
  }

  lemma ReportedGrows(api: TopologyApi, relations: seq<string>, listed: set<GraphNode>, visited: set<string>,
                      id: string)
    ensures ReportedFor(api, relations, listed, visited + {id}) ==
              ReportedFor(api, relations, listed, visited) + NeighborNodes(api.neighbors(id, relations))
  {
    hide NeighborNodes;
  }

  method Crawl(slice: GraphSlice, seeds: seq<string>, relations: seq<string>, api: TopologyApi,
               ghost universe: set<string>,
               ghost listed: set<GraphNode>)
    returns (ghost expanded: seq<string>)
    requires slice.Valid() && slice.nodes.Keys == Elements(seeds) <= universe && slice.edges == []
    requires ClosedNodes(api, relations, universe) && NodesFrom(slice.nodes, listed)
    modifies slice`nodes, slice`edges
    ensures slice.Valid()
    ensures IsClosureOf(api, relations, Elements(seeds), slice.nodes.Keys)
    ensures forall id :: id in slice.nodes ==> IsReportedNode(api, relations, listed, slice.nodes.Keys, slice.nodes[id])
    ensures NoDuplicates(expanded) && Elements(expanded) == slice.nodes.Keys
    ensures NoDuplicates(slice.edges)
    ensures forall e :: e in Elements(slice.edges) <==> IsReported(api, relations, slice.nodes.Keys, e)
  {
    hide NeighborIds, NeighborNodes, NeighborEdges;
    ghost var start := Elements(seeds);
    var visited: set<string> := {};
    var frontier := seeds;
    var seenEdges: set<GraphEdge> := {};
    expanded := [];
    while frontier != []
      invariant slice.Valid()
      invariant slice.nodes.Keys == visited + Elements(frontier)
      invariant start <= slice.nodes.Keys <= universe
      invariant Progress(api, relations, start, slice.nodes.Keys, visited, seenEdges)
      invariant NodesFrom(slice.nodes, ReportedFor(api, relations, listed, visited))
      invariant NoDuplicates(expanded) && Elements(expanded) == visited
      invariant NoDuplicates(slice.edges) && Elements(slice.edges) == seenEdges
      decreases universe - visited, |frontier|
    {
      var id := frontier[|frontier|-1];
      ElementsDropLast(frontier);
      frontier := frontier[..|frontier|-1];
      if id !in visited {
        ElementsAppend(expanded, id);
        frontier, seenEdges := ExpandOne(slice, id, relations, api, visited, frontier, seenEdges, start, listed);
        visited := visited + {id};
        expanded := expanded + [id];
      }
    }
  }

  ghost function Expands(api: TopologyApi, relations: seq<string>): (string, string) -> bool {
    (a, b) => b in NeighborIds(api.neighbors(a, relations))
  }

  /** The closure is reachability: a node is fetched exactly when a path leads to it from a seed. */
  lemma ClosureIsReachability(api: TopologyApi, relations: seq<string>, seeds: set<string>, nodes: set<string>,
                              id: string)
    requires IsClosureOf(api, relations, seeds, nodes)
    ensures id in nodes <==> exists s :: s in seeds && Reaches(Expands(api, relations), s, id)
  {
    var step := Expands(api, relations);
    var reached := set x | x in nodes && exists s :: s in seeds && Reaches(step, s, x);
    forall s | s in seeds ensures s in reached { ReachesSelf(step, s); }
    forall x, b | x in reached && b in NeighborIds(api.neighbors(x, relations)) ensures b in reached {
      var s :| s in seeds && Reaches(step, s, x);
      assert step(x, b);
      ReachesThenStep(step, s, x, b);
    }
    assert ClosedNodes(api, relations, reached);
    if s :| s in seeds && Reaches(step, s, id) {
      assert ClosedUnder(step, nodes);
      ReachesStaysInside(step, s, id, nodes);
    }
  }

  /** When edges join what they are reported for, both endpoints of every edge are nodes, so the
      closure graph keeps every edge of its relations. */
  lemma NoEdgeIsDropped(api: TopologyApi, relations: seq<string>, seeds: set<string>, slice: Slice, kept: set<string>)
    requires JoinsEndpoints(api, relations)
    requires IsClosureOf(api, relations, seeds, slice.nodes.Keys)
    requires forall e :: e in slice.edges <==> IsReported(api, relations, slice.nodes.Keys, e)
    ensures forall e :: e in slice.edges ==> e.src in slice.nodes && e.dst in slice.nodes
    ensures forall e :: e in KeptEdges(slice.edges, slice.nodes.Keys, kept) <==> e in slice.edges && e.relation in kept
  {
    forall e | e in slice.edges ensures e.src in slice.nodes && e.dst in slice.nodes {
      var id :| id in slice.nodes.Keys && e in NeighborEdges(api.neighbors(id, relations));
      NeighborMembers(api.neighbors(id, relations));
      var n :| n in api.neighbors(id, relations) && n.edge == e;
      assert n.node.managedObjectId in NeighborIds(api.neighbors(id, relations));
    }
  }
}
