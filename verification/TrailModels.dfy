/** Value objects of the trail builder (trailbuilder/models.py) and the mutable graph slice. */
module TrailModels {
  import opened Common

  datatype Boundary = Boundary(kind: string, attributeKey: Option<string>)

  datatype SrlgRule = SrlgRule(mode: string, edgeType: Option<string>)

  datatype TrailPolicy = TrailPolicy(closureEdgeTypes: seq<string>, boundary: Boundary, srlgRule: SrlgRule)

  /** An attribute value is its `str()` rendering, or `None`. */
  datatype GraphNode = GraphNode(managedObjectId: string, objectType: string, attributes: map<string, Option<string>>) {
    function IgpArea(key: Option<string>): Option<string> {
      if key.None? || key.value == "" || key.value !in attributes then None else attributes[key.value]
    }
  }

  datatype GraphEdge = GraphEdge(src: string, dst: string, relation: string)

  datatype Trail = Trail(
    trailId: string,
    domain: string,
    snapshotId: string,
    seed: string,
    members: seq<string>,
    igpArea: Option<string>,
    srlgGroup: Option<string>)

  /** What a slice holds at one moment. */
  datatype Slice = Slice(domain: string, snapshotId: string, nodes: map<string, GraphNode>, edges: seq<GraphEdge>) {
    ghost predicate Valid() {
      forall id :: id in nodes ==> nodes[id].managedObjectId == id
    }
  }

  class GraphSlice {
    const domain: string
    var snapshotId: string
    var nodes: map<string, GraphNode>
    var edges: seq<GraphEdge>

    function View(): Slice
      reads this
    {
      Slice(domain, snapshotId, nodes, edges)
    }

    ghost predicate Valid()
      reads this
    {
      View().Valid()
    }

    constructor (domain: string, snapshotId: string)
      ensures Valid()
      ensures View() == Slice(domain, snapshotId, map[], [])
    {
      this.domain := domain;
      this.snapshotId := snapshotId;
      nodes := map[];
      edges := [];
    }

    /** `dict.setdefault`: the first node seen under an id is the one kept. */
    method AddNode(node: GraphNode)
      requires Valid()
      modifies this`nodes
      ensures Valid()
      ensures nodes.Keys == old(nodes).Keys + {node.managedObjectId}
      ensures forall id :: id in old(nodes) ==> nodes[id] == old(nodes)[id]
      ensures node.managedObjectId !in old(nodes) ==> nodes[node.managedObjectId] == node
    {
      if node.managedObjectId !in nodes {
        nodes := nodes[node.managedObjectId := node];
      }
    }

    method AddEdge(edge: GraphEdge)
      modifies this`edges
      ensures edges == old(edges) + [edge]
    {
      edges := edges + [edge];
    }
  }
}
