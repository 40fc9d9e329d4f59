/** The simulator's typed graph and its snapshot file: serialisation and validation
    (engine/snapshot_writer.py). */
module SnapshotWriter {
  import opened Common
  import opened ManagedObjectIds
  import opened SnapshotFiles

  /** Attributes of a node. An endpoint that was only ever named by an edge has no object type. */
  datatype NodeData = NodeData(objectType: Option<string>, igpArea: Option<string>)

  type Endpoints = (string, string)

  /** A directed graph: one edge per pair, nodes and edges in insertion order. */
  class DiGraph {
    var nodes: map<string, NodeData>
    var order: seq<string>
    var edges: map<Endpoints, string>
    var edgeOrder: seq<Endpoints>

    ghost predicate Valid()
      reads this
    {
      && Elements(order) == nodes.Keys && NoDuplicates(order)
      && Elements(edgeOrder) == edges.Keys && NoDuplicates(edgeOrder)
      && forall e :: e in edges ==> e.0 in nodes && e.1 in nodes
    }

    constructor ()
      ensures Valid() && nodes == map[] && edges == map[]
    {
      nodes, order, edges, edgeOrder := map[], [], map[], [];
    }

    method AddNode(id: string, data: NodeData)
      requires Valid()
      modifies this
      ensures Valid() && nodes == old(nodes)[id := data] && edges == old(edges)
    {
      ElementsAppend(order, id);
      if id !in nodes { order := order + [id]; }
      nodes := nodes[id := data];
    }

    /** Missing endpoints become nodes without a type. */
    method AddEdge(src: string, dst: string, relation: string)
      requires Valid()
      modifies this
      ensures Valid() && edges == old(edges)[(src, dst) := relation]
      ensures nodes.Keys == old(nodes).Keys + {src, dst}
      ensures forall id :: id in nodes ==>
                nodes[id] == if id in old(nodes) then old(nodes)[id] else NodeData(None, None)
    {
      if src !in nodes { AddNode(src, NodeData(None, None)); }
      if dst !in nodes { AddNode(dst, NodeData(None, None)); }
      ElementsAppend(edgeOrder, (src, dst));
      if (src, dst) !in edges { edgeOrder := edgeOrder + [(src, dst)]; }
      edges := edges[(src, dst) := relation];
    }
  }

  // ---- Serialisation ----

  /** The edges out of one node, in insertion order. */
  function EdgesFrom(keys: seq<Endpoints>, edges: map<Endpoints, string>, src: string): seq<EdgeRecord> {
    if keys == [] then []
    else
      var front, last := keys[..|keys| - 1], keys[|keys| - 1];
      EdgesFrom(front, edges, src) +
          if last.0 == src && last in edges then [EdgeRecord(last.0, last.1, edges[last])] else []
  }

  /** Edges are listed node by node. */
  function Grouped(order: seq<string>, keys: seq<Endpoints>, edges: map<Endpoints, string>): seq<EdgeRecord> {
    if order == [] then []
    else Grouped(order[..|order| - 1], keys, edges) + EdgesFrom(keys, edges, order[|order| - 1])
  }

  lemma {:induction false} EdgesFromHolds(keys: seq<Endpoints>, edges: map<Endpoints, string>, src: string,
                                          e: EdgeRecord)
    requires Elements(keys) <= edges.Keys
    ensures var key := (e.src, e.dst);
            e in EdgesFrom(keys, edges, src) <==> key in Elements(keys) && e.src == src && edges[key] == e.relation
  {
    if keys != [] {
      var front, last := keys[..|keys| - 1], keys[|keys| - 1];
      ElementsDropLast(keys);
      assert last in Elements(keys);
      EdgesFromHolds(front, edges, src, e);
    }
  }

  /** Listed node by node, each edge of a listed node appears, and nothing else. */
  lemma {:induction false} GroupedHolds(order: seq<string>, keys: seq<Endpoints>, edges: map<Endpoints, string>,
                                        e: EdgeRecord)
    requires Elements(keys) <= edges.Keys
    ensures var key := (e.src, e.dst);
            e in Grouped(order, keys, edges) <==> key in Elements(keys) && e.src in order && edges[key] == e.relation
  {
    hide EdgesFrom;
    if order != [] {
      var front, last := order[..|order| - 1], order[|order| - 1];
      assert order == front + [last];
      GroupedHolds(front, keys, edges, e);
      EdgesFromHolds(keys, edges, last, e);
    }
  }

  /** Nodes follow one another, and so do one node's edges. */
  lemma {:induction false} GroupedConcat(a: seq<string>, b: seq<string>, keys: seq<Endpoints>,
                                         edges: map<Endpoints, string>)
    ensures Grouped(a + b, keys, edges) == Grouped(a, keys, edges) + Grouped(b, keys, edges)
  {
    hide EdgesFrom;
    if b == [] {
      assert a + b == a;
    } else {
      var front, last := b[..|b| - 1], b[|b| - 1];
      GroupedConcat(a, front, keys, edges);
      assert (a + b)[..|a + b| - 1] == a + front;
      ConcatAssociates(Grouped(a, keys, edges), Grouped(front, keys, edges), EdgesFrom(keys, edges, last));
    }
  }

  lemma {:induction false} EdgesFromConcat(a: seq<Endpoints>, b: seq<Endpoints>, edges: map<Endpoints, string>,
                                           src: string)
    ensures EdgesFrom(a + b, edges, src) == EdgesFrom(a, edges, src) + EdgesFrom(b, edges, src)
  {
    if b == [] {
      assert a + b == a;
    } else {
      var front, last := b[..|b| - 1], b[|b| - 1];
      EdgesFromConcat(a, front, edges, src);
      assert (a + b)[..|a + b| - 1] == a + front;
      ConcatAssociates(EdgesFrom(a, edges, src), EdgesFrom(front, edges, src),
                       if last.0 == src && last in edges then [EdgeRecord(last.0, last.1, edges[last])] else []);
    }
  }

  /** One node lists exactly its own edges, and a listing of one key is that edge or nothing. */
  lemma EdgesOfOne(key: Endpoints, keys: seq<Endpoints>, edges: map<Endpoints, string>, src: string)
    requires key in edges
    ensures EdgesFrom([key], edges, src) == if key.0 == src then [EdgeRecord(key.0, key.1, edges[key])] else []
    ensures Grouped([src], keys, edges) == EdgesFrom(keys, edges, src)
  {
    assert [key][..0] == [] && [src][..0] == [];
  }

  method SerialiseEdges(g: DiGraph) returns (edges: seq<EdgeRecord>)
    requires g.Valid()
    ensures edges == Grouped(g.order, g.edgeOrder, g.edges)
    ensures forall e :: e in edges <==> (e.src, e.dst) in g.edges && g.edges[(e.src, e.dst)] == e.relation
  {
    hide NoDuplicates;
    edges := [];
    for i := 0 to |g.order|
      invariant edges == Grouped(g.order[..i], g.edgeOrder, g.edges)
    {
      ghost var before := edges;
      assert g.order[..i + 1][..i] == g.order[..i];
      for j := 0 to |g.edgeOrder|
        invariant edges == before + EdgesFrom(g.edgeOrder[..j], g.edges, g.order[i])
      {
        var key := g.edgeOrder[j];
        assert g.edgeOrder[..j + 1][..j] == g.edgeOrder[..j];
        assert key in Elements(g.edgeOrder);
        if key.0 == g.order[i] { edges := edges + [EdgeRecord(key.0, key.1, g.edges[key])]; }
      }
      assert g.edgeOrder[..|g.edgeOrder|] == g.edgeOrder;
    }
    assert g.order[..|g.order|] == g.order;
    forall e ensures e in edges <==> (e.src, e.dst) in g.edges && g.edges[(e.src, e.dst)] == e.relation {
      GroupedHolds(g.order, g.edgeOrder, g.edges, e);
      assert (e.src, e.dst) in g.edges ==> e.src in Elements(g.order);
    }
  }

  method SerialiseNodes(g: DiGraph) returns (r: Result<seq<NodeRecord>, string>)
    requires g.Valid()
    ensures r.Ok? <==> forall id :: id in g.nodes ==> g.nodes[id].objectType.Some?
    ensures r.Ok? ==> |r.value| == |g.order|
    ensures r.Ok? ==> forall i :: 0 <= i < |g.order| ==>
              && g.order[i] in g.nodes && r.value[i].managedObjectId == g.order[i]
              && g.nodes[g.order[i]].objectType == Some(r.value[i].objectType)
  {
    var nodes: seq<NodeRecord> := [];
    for i := 0 to |g.order|
      invariant |nodes| == i
      invariant forall k :: 0 <= k < i ==> g.order[k] in g.nodes && nodes[k].managedObjectId == g.order[k]
      invariant forall k :: 0 <= k < i ==> g.nodes[g.order[k]].objectType == Some(nodes[k].objectType)
    {
      assert g.order[i] in Elements(g.order);
      var data := g.nodes[g.order[i]];
      if data.objectType.None? { return Err("node without an objectType"); }
      nodes := nodes + [NodeRecord(g.order[i], data.objectType.value)];
    }
    forall id | id in g.nodes ensures g.nodes[id].objectType.Some? {
      assert id in Elements(g.order);
    }
    r := Ok(nodes);
  }

  /** What a snapshot of the graph holds. */
  ghost predicate Serialises(g: DiGraph, domain: string, s: Snapshot)
    reads g
  {
    && s.schemaVersion == 1 && s.snapshotId == None && s.domain == domain && |s.nodes| == |g.order|
    && (forall i :: 0 <= i < |g.order| ==> g.order[i] in g.nodes && s.nodes[i].managedObjectId == g.order[i])
    && (forall i :: 0 <= i < |g.order| ==> g.nodes[g.order[i]].objectType == Some(s.nodes[i].objectType))
    && s.edges == Grouped(g.order, g.edgeOrder, g.edges)
    && (forall e :: e in s.edges <==> (e.src, e.dst) in g.edges && g.edges[(e.src, e.dst)] == e.relation)
  }

  /** Nodes in insertion order, edges node by node; fails on a node that has no object type. */
  method GraphToSnapshot(g: DiGraph, domain: string) returns (r: Result<Snapshot, string>)
    requires g.Valid()
    ensures r.Ok? <==> forall id :: id in g.nodes ==> g.nodes[id].objectType.Some?
    ensures r.Ok? ==> Serialises(g, domain, r.value)
  {
    var nodes := SerialiseNodes(g);
    if nodes.Err? { return Err(nodes.error); }
    var edges := SerialiseEdges(g);
    r := Ok(Snapshot(1, None, domain, nodes.value, edges));
  }

  // ---- Validation ----

  /** Raises on the first broken layer: schema, then nodes, then edges. */
  method ValidateSnapshot(s: Snapshot) returns (r: Result<bool, string>)
    ensures r.Ok? <==> Passes(s)
  {
    hide IsValid;
    var ok := SchemaHolds(s);
    if !ok { return Err("snapshot fails canonical schema"); }
    var known: set<string> := {};
    for i := 0 to |s.nodes|
      invariant known == Known(s.nodes[..i])
      invariant forall k :: 0 <= k < i ==> WellTyped(s.nodes[k])
    {
      assert s.nodes[..i + 1][..i] == s.nodes[..i];
      var id := s.nodes[i].managedObjectId;
      assert s.nodes[i] in s.nodes;
      if !IsValid(id) { return Err("invalid managedObjectId"); }
      if id[..IndexOf(id, ':')] != s.nodes[i].objectType { return Err("prefix differs from objectType"); }
      known := known + {id};
    }
    assert s.nodes[..|s.nodes|] == s.nodes;
    for i := 0 to |s.edges|
      invariant forall k :: 0 <= k < i ==> Refers(s.edges[k], known)
    {
      assert s.edges[i] in s.edges;
      if !IsValid(s.edges[i].src) { return Err("invalid managedObjectId"); }
      if s.edges[i].src !in known { return Err("dangling reference"); }
      if !IsValid(s.edges[i].dst) { return Err("invalid managedObjectId"); }
      if s.edges[i].dst !in known { return Err("dangling reference"); }
    }
    return Ok(true);
  }

  /** What a generator has to keep: every node's id is its type and an identifier. */
  ghost predicate Clean(nodes: map<string, NodeData>) {
    forall id :: id in nodes ==> nodes[id].objectType.Some? && WellTyped(NodeRecord(id, nodes[id].objectType.value))
  }

  ghost predicate Named(edges: map<Endpoints, string>) {
    forall e :: e in edges ==> edges[e] != ""
  }

  /** The graph's own snapshot passes exactly when every node is well typed, every relation has a name
      and so has the domain: references cannot dangle. */
  method WriteSnapshot(g: DiGraph, domain: string) returns (r: Result<Snapshot, string>)
    requires g.Valid()
    ensures r.Ok? <==> Clean(g.nodes) && Named(g.edges) && domain != ""
    ensures r.Ok? ==> Passes(r.value) && Serialises(g, domain, r.value)
  {
    hide WellTyped, NoDuplicates, IsValid, Passes, Serialises;
    var s := GraphToSnapshot(g, domain);
    if s.Err? { return s; }
    var checked := ValidateSnapshot(s.value);
    CleanExactly(g, domain, s.value);
    if checked.Err? { return Err(checked.error); }
    return s;
  }

  lemma CleanExactly(g: DiGraph, domain: string, s: Snapshot)
    requires g.Valid() && Serialises(g, domain, s)
    ensures Passes(s) <==> Clean(g.nodes) && Named(g.edges) && domain != ""
  {
    hide Passes, Serialises, Clean, Named;
    if Passes(s) { PassesMeansClean(g, domain, s); }
    if Clean(g.nodes) && Named(g.edges) && domain != "" { CleanMeansPasses(g, domain, s); }
  }

  lemma NodeIsListed(g: DiGraph, domain: string, s: Snapshot, id: string) returns (n: NodeRecord)
    requires g.Valid() && Serialises(g, domain, s) && id in g.nodes
    ensures n in s.nodes && n.managedObjectId == id && g.nodes[id].objectType == Some(n.objectType) &&
      id in Known(s.nodes)
  {
    hide Grouped, NoDuplicates;
    assert id in Elements(g.order);
    var i :| 0 <= i < |g.order| && g.order[i] == id;
    n := s.nodes[i];
    KnownMember(s.nodes, id);
  }

  lemma PassesMeansClean(g: DiGraph, domain: string, s: Snapshot)
    requires g.Valid() && Serialises(g, domain, s) && Passes(s)
    ensures Clean(g.nodes) && Named(g.edges) && domain != ""
  {
    hide IsValid, Known, Grouped, NoDuplicates;
    forall id | id in g.nodes
        ensures g.nodes[id].objectType.Some? && WellTyped(NodeRecord(id, g.nodes[id].objectType.value)) {
      var n := NodeIsListed(g, domain, s, id);
      assert n == NodeRecord(id, g.nodes[id].objectType.value);
    }
    forall e | e in g.edges ensures g.edges[e] != "" {
      var record := EdgeRecord(e.0, e.1, g.edges[e]);
      assert record in s.edges && EdgeMeetsSchema(record);
    }
  }

  lemma CleanMeansPasses(g: DiGraph, domain: string, s: Snapshot)
    requires g.Valid() && Serialises(g, domain, s) && Clean(g.nodes) && Named(g.edges) && domain != ""
    ensures Passes(s)
  {
    hide Known, Grouped, NoDuplicates;
    forall n | n in s.nodes ensures WellTyped(n) && NodeMeetsSchema(n) {
      var i :| 0 <= i < |s.nodes| && s.nodes[i] == n;
      assert n == NodeRecord(g.order[i], g.nodes[g.order[i]].objectType.value);
    }
    forall e | e in s.edges ensures EdgeMeetsSchema(e) && Refers(e, Known(s.nodes)) {
      var src := NodeIsListed(g, domain, s, e.src);
      var dst := NodeIsListed(g, domain, s, e.dst);
      assert WellTyped(src) && WellTyped(dst);
    }
  }
}
