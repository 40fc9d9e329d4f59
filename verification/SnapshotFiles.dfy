/** The topology snapshot file and the rules its producer and its consumer share
    (services/topology/schema/snapshot.schema.json). Names and attributes are not modelled. */
module SnapshotFiles {
  import opened Common
  import opened ManagedObjectIds

  datatype NodeRecord = NodeRecord(managedObjectId: string, objectType: string)

  datatype EdgeRecord = EdgeRecord(src: string, dst: string, relation: string)

  datatype Snapshot = Snapshot(
    schemaVersion: int,
    snapshotId: Option<string>,
    domain: string,
    nodes: seq<NodeRecord>,
    edges: seq<EdgeRecord>)

  // ---- The schema ----

  ghost predicate NodeMeetsSchema(n: NodeRecord) {
    IsValid(n.managedObjectId) && n.objectType != ""
  }

  ghost predicate EdgeMeetsSchema(e: EdgeRecord) {
    IsValid(e.src) && IsValid(e.dst) && e.relation != ""
  }

  /** Required fields, minimum lengths and id patterns. */
  ghost predicate MeetsSchema(s: Snapshot) {
    && s.schemaVersion >= 1 && s.domain != "" && s.snapshotId != Some("")
    && (forall n :: n in s.nodes ==> NodeMeetsSchema(n))
    && (forall e :: e in s.edges ==> EdgeMeetsSchema(e))
  }

  /** The schema's verdict on a file. */
  method SchemaHolds(s: Snapshot) returns (ok: bool)
    ensures ok <==> MeetsSchema(s)
  {
    hide IsValid;
    if s.schemaVersion < 1 || s.domain == "" || s.snapshotId == Some("") { return false; }
    for i := 0 to |s.nodes|
      invariant forall k :: 0 <= k < i ==> NodeMeetsSchema(s.nodes[k])
    {
      assert s.nodes[i] in s.nodes;
      if !IsValid(s.nodes[i].managedObjectId) || s.nodes[i].objectType == "" { return false; }
    }
    for i := 0 to |s.edges|
      invariant forall k :: 0 <= k < i ==> EdgeMeetsSchema(s.edges[k])
    {
      assert s.edges[i] in s.edges;
      if !IsValid(s.edges[i].src) || !IsValid(s.edges[i].dst) || s.edges[i].relation == "" { return false; }
    }
    return true;
  }

  // ---- The semantic rules ----

  /** A valid id whose type part is the declared type. */
  predicate WellTyped(n: NodeRecord) {
    IsValid(n.managedObjectId) && n.managedObjectId[..IndexOf(n.managedObjectId, ':')] == n.objectType
  }

  function Known(nodes: seq<NodeRecord>): set<string> {
    if nodes == [] then {} else Known(nodes[..|nodes| - 1]) + {nodes[|nodes| - 1].managedObjectId}
  }

  predicate Refers(e: EdgeRecord, known: set<string>) {
    e.src in known && e.dst in known
  }

  /** Every id's prefix is its type, and no edge dangles. */
  ghost predicate IsSound(s: Snapshot) {
    && (forall n :: n in s.nodes ==> WellTyped(n))
    && (forall e :: e in s.edges ==> Refers(e, Known(s.nodes)))
  }

  ghost predicate Passes(s: Snapshot) {
    MeetsSchema(s) && IsSound(s)
  }

  lemma {:induction false} KnownMember(nodes: seq<NodeRecord>, id: string)
    ensures id in Known(nodes) <==> exists n :: n in nodes && n.managedObjectId == id
  {
    if nodes != [] {
      var front, last := nodes[..|nodes| - 1], nodes[|nodes| - 1];
      assert nodes == front + [last];
      KnownMember(front, id);
    }
  }
}
