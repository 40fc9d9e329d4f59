/** Snapshot ingest across the graph and the metadata table: the graph port, the current/previous
    rows, the cut-over transaction, the ingest sequence with its crash points, and the reaper
    (GraphRepository, SnapshotRepository, SnapshotMetadataService, IngestionService, OrphanReaper). */
module SnapshotIngest {
  import opened Common
  import opened SnapshotFiles
  import opened SnapshotValidation

  // ---- The graph port: data tagged by snapshot id ----

  datatype Vertex = Vertex(managedObjectId: string, objectType: string, domain: string, snapshotId: string)

  datatype Link = Link(src: string, dst: string, relation: string, domain: string, snapshotId: string)

  datatype Graph = Graph(vertices: set<Vertex>, links: set<Link>) {
    function Tagged(id: string): Graph {
      Graph(set v | v in vertices && v.snapshotId == id, set l | l in links && l.snapshotId == id)
    }

    function Write(data: Graph): Graph {
      Graph(vertices + data.vertices, links + data.links)
    }

    function Delete(id: string): Graph {
      Graph(set v | v in vertices && v.snapshotId != id, set l | l in links && l.snapshotId != id)
    }

    /** Ids are collected from the vertices. */
    function SnapshotIds(): set<string> {
      set v | v in vertices :: v.snapshotId
    }

    /** Lifting tags every vertex and link with the snapshot's id. */
    ghost predicate LiftedFor(id: string) {
      (forall v :: v in vertices ==> v.snapshotId == id) && (forall l :: l in links ==> l.snapshotId == id)
    }
  }

  const EMPTY := Graph({}, {})

  function VertexOf(n: NodeRecord, domain: string, snapshotId: string): Vertex {
    Vertex(n.managedObjectId, n.objectType, domain, snapshotId)
  }

  function LinkOf(e: EdgeRecord, domain: string, snapshotId: string): Link {
    Link(e.src, e.dst, e.relation, domain, snapshotId)
  }

  /** The file's records under its domain and the snapshot's id. */
  function Lifted(file: Snapshot, snapshotId: string): Graph {
    Graph(set n | n in file.nodes :: VertexOf(n, file.domain, snapshotId), set e | e in file.edges ::
        LinkOf(e, file.domain, snapshotId))
  }

  /** Every record with all that it says, and nothing else. */
  lemma LiftedExactly(file: Snapshot, snapshotId: string, v: Vertex, l: Link)
    ensures v in Lifted(file, snapshotId).vertices <==>
      exists n :: n in file.nodes && v.managedObjectId == n.managedObjectId && v.objectType == n.objectType &&
                  v.domain == file.domain && v.snapshotId == snapshotId
    ensures l in Lifted(file, snapshotId).links <==>
      exists e :: e in file.edges && l.src == e.src && l.dst == e.dst && l.relation == e.relation &&
                  l.domain == file.domain && l.snapshotId == snapshotId
  {
    hide VertexOf, LinkOf;
    if n :| n in file.nodes && v.managedObjectId == n.managedObjectId && v.objectType == n.objectType &&
            v.domain == file.domain && v.snapshotId == snapshotId {
      RecordOf(n, v, file.domain, snapshotId);
    }
    if n :| n in file.nodes && v == VertexOf(n, file.domain, snapshotId) { RecordOf(n, v, file.domain, snapshotId); }
    if e :| e in file.edges && l.src == e.src && l.dst == e.dst && l.relation == e.relation &&
            l.domain == file.domain && l.snapshotId == snapshotId {
      EdgeOf(e, l, file.domain, snapshotId);
    }
    if e :| e in file.edges && l == LinkOf(e, file.domain, snapshotId) { EdgeOf(e, l, file.domain, snapshotId); }
  }

  lemma RecordOf(n: NodeRecord, v: Vertex, domain: string, snapshotId: string)
    ensures v == VertexOf(n, domain, snapshotId) <==>
      v.managedObjectId == n.managedObjectId && v.objectType == n.objectType &&
      v.domain == domain && v.snapshotId == snapshotId
  {
  }

  lemma EdgeOf(e: EdgeRecord, l: Link, domain: string, snapshotId: string)
    ensures l == LinkOf(e, domain, snapshotId) <==>
      l.src == e.src && l.dst == e.dst && l.relation == e.relation && l.domain == domain && l.snapshotId == snapshotId
  {
  }

  method Lift(file: Snapshot, snapshotId: string) returns (data: Graph)
    ensures data == Lifted(file, snapshotId) && data.LiftedFor(snapshotId)
    ensures data.vertices == {} <==> file.nodes == []
  {
    var vertices: set<Vertex>, links: set<Link> := {}, {};
    for i := 0 to |file.nodes|
      invariant vertices == set n | n in file.nodes[..i] :: VertexOf(n, file.domain, snapshotId)
    {
      assert file.nodes[..i + 1] == file.nodes[..i] + [file.nodes[i]];
      vertices := vertices + {VertexOf(file.nodes[i], file.domain, snapshotId)};
    }
    assert file.nodes[..|file.nodes|] == file.nodes;
    for i := 0 to |file.edges|
      invariant links == set e | e in file.edges[..i] :: LinkOf(e, file.domain, snapshotId)
    {
      assert file.edges[..i + 1] == file.edges[..i] + [file.edges[i]];
      links := links + {LinkOf(file.edges[i], file.domain, snapshotId)};
    }
    assert file.edges[..|file.edges|] == file.edges;
    data := Graph(vertices, links);
    if file.nodes != [] { assert VertexOf(file.nodes[0], file.domain, snapshotId) in vertices; }
  }

  /** Writing and deleting one snapshot leave every other snapshot's data alone. */
  lemma PortFrame(g: Graph, id: string, data: Graph, other: string)
    requires data.LiftedFor(id)
    ensures other != id ==>
      g.Write(data).Tagged(other) == g.Tagged(other) && g.Delete(id).Tagged(other) == g.Tagged(other)
    ensures g.Delete(id).Tagged(id) == EMPTY
    ensures g.Tagged(id) == EMPTY ==> g.Write(data).Tagged(id) == data
  {
    if g.Tagged(id) == EMPTY {
      assert forall v :: v in g.vertices && v.snapshotId == id ==> v in g.Tagged(id).vertices;
      assert forall l :: l in g.links && l.snapshotId == id ==> l in g.Tagged(id).links;
      assert g.Write(data).Tagged(id).vertices == data.vertices;
      assert g.Write(data).Tagged(id).links == data.links;
    }
  }

  class GraphRepository {
    var graph: Graph

    constructor ()
      ensures graph == EMPTY
    {
      graph := EMPTY;
    }

    method WriteSnapshot(data: Graph)
      modifies this
      ensures graph == old(graph).Write(data)
    {
      graph := graph.Write(data);
    }

    method DeleteSnapshot(snapshotId: string)
      modifies this
      ensures graph == old(graph).Delete(snapshotId)
    {
      graph := graph.Delete(snapshotId);
    }
  }

  // ---- The metadata rows ----

  datatype Status = Current | Previous

  datatype Row = Row(domain: string, status: Status, changeType: string, eventId: Option<string>)

  type Rows = map<string, Row>

  /** The unique index over (domain, status). */
  ghost predicate OnePerStatus(rows: Rows) {
    forall a, b ::
        a in rows && b in rows && rows[a].domain == rows[b].domain && rows[a].status == rows[b].status ==> a == b
  }

  predicate Has(rows: Rows, id: string, domain: string, status: Status) {
    id in rows && rows[id].domain == domain && rows[id].status == status
  }

  function WithStatus(rows: Rows, domain: string, status: Status): set<string> {
    set id | id in rows && Has(rows, id, domain, status)
  }

  function Demote(rows: Rows, domain: string): Rows {
    map id | id in rows :: if Has(rows, id, domain, Current) then rows[id].(status := Previous) else rows[id]
  }

  function Evicted(rows: Rows, domain: string): Option<string> {
    var previous := WithStatus(rows, domain, Previous);
    if previous == {} then None else Some(Least(previous))
  }

  function Drop(rows: Rows, id: Option<string>): Rows {
    if id.None? then rows else rows - {id.value}
  }

  /** The committed rows, or None when the primary key is taken and the transaction rolls back. */
  function CutOver(rows: Rows, id: string, row: Row): Option<Rows> {
    var demoted := Demote(Drop(rows, Evicted(rows, row.domain)), row.domain);
    if id in demoted then None else Some(demoted[id := row])
  }

  lemma EvictedIsPrevious(rows: Rows, domain: string)
    requires OnePerStatus(rows)
    ensures forall id :: Has(rows, id, domain, Previous) <==> Evicted(rows, domain) == Some(id)
  {
    var previous := WithStatus(rows, domain, Previous);
    assert forall id :: Has(rows, id, domain, Previous) <==> id in previous;
  }

  /** A cut-over fails exactly when the id is taken by a row other than the domain's previous one.
      Otherwise the new row is current, the old current is previous and the old previous is gone;
      no other domain is touched. */
  lemma CutOverExactly(rows: Rows, id: string, row: Row)
    requires OnePerStatus(rows) && row.status == Current
    ensures CutOver(rows, id, row).None? <==> id in rows && !Has(rows, id, row.domain, Previous)
    ensures CutOver(rows, id, row).Some? ==> IsCutOver(rows, id, row, CutOver(rows, id, row).value)
  {
    EvictedIsPrevious(rows, row.domain);
    var evicted := Evicted(rows, row.domain);
    var kept := Drop(rows, evicted);
    assert forall k :: k in kept <==> k in rows && !Has(rows, k, row.domain, Previous);
    var demoted := Demote(kept, row.domain);
    assert demoted.Keys == kept.Keys;
    if id !in demoted {
      var after := demoted[id := row];
      assert CutOver(rows, id, row) == Some(after);
      forall k, d, s ensures Has(after, k, d, s) <==> HasAfter(rows, id, row, k, d, s) {
      }
      IndexFollows(rows, id, row, after);
    }
  }

  lemma CutOverKeys(rows: Rows, id: string, row: Row)
    requires CutOver(rows, id, row).Some?
    ensures var after := CutOver(rows, id, row).value;
            && after.Keys == Drop(rows, Evicted(rows, row.domain)).Keys + {id}
            && after[id] == row
            && forall k :: k in after && k != id ==> k in rows && after[k].eventId == rows[k].eventId
  {
    var kept := Drop(rows, Evicted(rows, row.domain));
    assert Demote(kept, row.domain).Keys == kept.Keys;
  }

  /** Which rows stand where after a cut-over. */
  ghost predicate HasAfter(rows: Rows, id: string, row: Row, k: string, d: string, s: Status) {
    if k == id then d == row.domain && s == Current
    else if d != row.domain then Has(rows, k, d, s)
    else s == Previous && Has(rows, k, d, Current)
  }

  ghost predicate IsCutOver(rows: Rows, id: string, row: Row, after: Rows) {
    && OnePerStatus(after)
    && id in after && after[id] == row
    && forall k, d, s :: Has(after, k, d, s) <==> HasAfter(rows, id, row, k, d, s)
  }

  lemma IndexFollows(rows: Rows, id: string, row: Row, after: Rows)
    requires OnePerStatus(rows)
    requires forall k, d, s :: Has(after, k, d, s) <==> HasAfter(rows, id, row, k, d, s)
    ensures OnePerStatus(after)
  {
    forall a, b | a in after && b in after && after[a].domain == after[b].domain && after[a].status == after[b].status
      ensures a == b
    {
      assert Has(after, a, after[a].domain, after[a].status);
      assert Has(after, b, after[a].domain, after[a].status);
    }
  }

  class SnapshotMetadataService {
    var rows: Rows

    constructor ()
      ensures rows == map[]
    {
      rows := map[];
    }

    method IsFirstIngest(domain: string) returns (first: bool)
      ensures first <==> forall id :: id in rows ==> rows[id].domain != domain
    {
      var ids := set id | id in rows && rows[id].domain == domain;
      first := ids == {};
      if first { assert forall id :: id in rows && rows[id].domain == domain ==> id in ids; }
    }

    /** Evict, demote, insert, in one transaction. */
    method CutOverTo(id: string, row: Row) returns (ok: bool, evicted: Option<string>)
      modifies this
      ensures ok <==> CutOver(old(rows), id, row).Some?
      ensures rows == if ok then CutOver(old(rows), id, row).value else old(rows)
      ensures ok ==> evicted == Evicted(old(rows), row.domain)
    {
      var begin := rows;
      evicted := Evicted(rows, row.domain);
      if evicted.Some? { rows := rows - {evicted.value}; }
      rows := Demote(rows, row.domain);
      ok := id !in rows;
      if ok { rows := rows[id := row]; } else { rows := begin; }
    }

    method RecordEventId(id: string, eventId: string)
      modifies this
      ensures rows == if id in old(rows) then old(rows)[id := old(rows)[id].(eventId := Some(eventId))] else old(rows)
    {
      if id in rows { rows := rows[id := rows[id].(eventId := Some(eventId))]; }
    }
  }

  // ---- The ingest sequence and its crash points ----

  /** The last step an ingest completed. */
  datatype Point = Validated | GraphWritten | CutOverDone | EvictedDeleted | Emitted | Recorded

  datatype Request = Request(snapshotId: string, domain: string, incremental: bool, eventId: string, data: Graph)

  function ChangeType(first: bool, incremental: bool): string {
    if !first && incremental then "incremental" else "full-load"
  }

  function NewRow(rows: Rows, req: Request): Row {
    Row(req.domain, Current, ChangeType(forall id :: id in rows ==> rows[id].domain != req.domain, req.incremental),
        None)
  }

  function SetEventId(rows: Rows, id: string, eventId: string): Rows {
    if id in rows then rows[id := rows[id].(eventId := Some(eventId))] else rows
  }

  datatype Stores = Stores(graph: Graph, rows: Rows, events: seq<string>)

  /** The stores when the process stops right after `point`. A key conflict ends the ingest after the
      graph write. */
  function After(s: Stores, req: Request, point: Point): Stores {
    var written := s.graph.Write(req.data);
    var rows := CutOver(s.rows, req.snapshotId, NewRow(s.rows, req));
    var evicted := Evicted(s.rows, req.domain);
    if point == Validated then s
    else if point == GraphWritten || rows.None? then s.(graph := written)
    else if point == CutOverDone then s.(graph := written, rows := rows.value)
    else
      var cut := s.(graph := DeleteEvicted(written, evicted), rows := rows.value);
      if point == EvictedDeleted then cut
      else if point == Emitted then cut.(events := s.events + [req.snapshotId])
      else cut.(events := s.events + [req.snapshotId], rows := SetEventId(rows.value, req.snapshotId, req.eventId))
  }

  function DeleteEvicted(g: Graph, evicted: Option<string>): Graph {
    if evicted.Some? then g.Delete(evicted.value) else g
  }

  /** The supplied id when there is one that is not blank, else the one minted. */
  function ResolveSnapshotId(supplied: Option<string>, minted: string): string {
    if supplied.Some? && !IsBlank(supplied.value) then supplied.value else minted
  }

  function RequestOf(file: Snapshot, incremental: bool, minted: string, eventId: string): Request {
    var id := ResolveSnapshotId(file.snapshotId, minted);
    Request(id, file.domain, incremental, eventId, Lifted(file, id))
  }

  /** The request an upload makes: under its own id unless that is blank, for its own domain, with its lifted
      records. */
  lemma RequestExactly(file: Snapshot, incremental: bool, minted: string, eventId: string)
    ensures var req := RequestOf(file, incremental, minted, eventId);
            && (file.snapshotId.Some? && !IsBlank(file.snapshotId.value) ==> req.snapshotId == file.snapshotId.value)
            && (file.snapshotId.None? || IsBlank(file.snapshotId.value) ==> req.snapshotId == minted)
            && req.domain == file.domain && req.incremental == incremental && req.eventId == eventId
            && req.data == Lifted(file, req.snapshotId)
  {
  }

  /** After a full ingest that cuts over, the domain's current row is the new one, an incremental change only
      if that was asked for and the domain had a row, with the event's id; and the event is announced. */
  lemma IngestLeavesRow(s: Stores, req: Request)
    requires CutOver(s.rows, req.snapshotId, NewRow(s.rows, req)).Some? && OnePerStatus(s.rows)
    ensures var after := After(s, req, Recorded);
            var known := exists id :: id in s.rows && s.rows[id].domain == req.domain;
            && after.events == s.events + [req.snapshotId]
            && req.snapshotId in after.rows
            && after.rows[req.snapshotId] ==
                 Row(req.domain, Current, if known && req.incremental then "incremental" else "full-load",
                     Some(req.eventId))
            && (forall k :: k in after.rows && k != req.snapshotId ==>
                  k in s.rows && after.rows[k].eventId == s.rows[k].eventId)
  {
    hide CutOver, Evicted, OnePerStatus, Graph.Write, Graph.Delete;
    CutOverKeys(s.rows, req.snapshotId, NewRow(s.rows, req));
  }

  class IngestionService {
    const repository: GraphRepository
    const metadata: SnapshotMetadataService
    var events: seq<string>

    constructor (repository: GraphRepository, metadata: SnapshotMetadataService)
      ensures this.repository == repository && this.metadata == metadata && events == []
    {
      this.repository := repository;
      this.metadata := metadata;
      events := [];
    }

    function View(): Stores
      reads this, repository, metadata
    {
      Stores(repository.graph, metadata.rows, events)
    }

    /** An upload: a file that fails a check leaves everything as it was; any other is lifted and
        ingested. */
    method Upload(file: Snapshot, vocabulary: Option<Vocabulary>, incremental: bool, minted: string, eventId: string,
                  stop: Point)
      returns (rejected: Option<Rejection>, ok: bool)
      modifies this, repository, metadata
      ensures rejected == None <==> Passes(file) && vocabulary.Some? && InVocabulary(file, vocabulary.value)
      ensures rejected.Some? ==> View() == old(View()) && !ok
      ensures rejected == None ==> View() == After(old(View()), RequestOf(file, incremental, minted, eventId), stop)
    {
      hide After, Passes, InVocabulary;
      rejected := Check(file, vocabulary);
      if rejected.Some? { return rejected, false; }
      var id := ResolveSnapshotId(file.snapshotId, minted);
      var data := Lift(file, id);
      ok := Ingest(Request(id, file.domain, incremental, eventId, data), stop);
    }

    /** The steps in order, stopping after `stop`. */
    method Ingest(req: Request, stop: Point) returns (ok: bool)
      modifies this, repository, metadata
      ensures View() == After(old(View()), req, stop)
      ensures ok <==>
        stop == Recorded && CutOver(old(metadata.rows), req.snapshotId, NewRow(old(metadata.rows), req)).Some?
    {
      hide CutOver, Evicted, Graph.Write, Graph.Delete;
      if stop == Validated { return false; }
      var first := metadata.IsFirstIngest(req.domain);
      var row := Row(req.domain, Current, ChangeType(first, req.incremental), None);
      repository.WriteSnapshot(req.data);
      if stop == GraphWritten { return false; }
      var committed, evicted := metadata.CutOverTo(req.snapshotId, row);
      if !committed { return false; }
      if stop == CutOverDone { return false; }
      if evicted.Some? { repository.DeleteSnapshot(evicted.value); }
      if stop == EvictedDeleted { return false; }
      events := events + [req.snapshotId];
      if stop == Emitted { return false; }
      metadata.RecordEventId(req.snapshotId, req.eventId);
      ok := true;
    }
  }

  class OrphanReaper {
    const repository: GraphRepository
    const metadata: SnapshotMetadataService

    constructor (repository: GraphRepository, metadata: SnapshotMetadataService)
      ensures this.repository == repository && this.metadata == metadata
    {
      this.repository := repository;
      this.metadata := metadata;
    }

    /** Deletes every snapshot of the graph that has no row. */
    method Reap() returns (reaped: nat)
      modifies repository
      ensures repository.graph == Reaped(old(repository.graph), metadata.rows.Keys)
      ensures reaped == |old(repository.graph).SnapshotIds() - metadata.rows.Keys|
    {
      hide Without, Elements, Graph.Delete, Graph.SnapshotIds;
      var known := metadata.rows.Keys;
      ghost var before := repository.graph;
      var inGraph := Sorted(repository.graph.SnapshotIds());
      reaped := 0;
      NothingSwept(before, inGraph, known);
      for i := 0 to |inGraph|
        invariant reaped == |Orphans(inGraph[..i], known)|
        invariant repository.graph == Without(before, Orphans(inGraph[..i], known))
      {
        OneMoreSwept(before, inGraph, i, known);
        if inGraph[i] !in known {
          repository.DeleteSnapshot(inGraph[i]);
          reaped := reaped + 1;
        }
      }
      assert inGraph[..|inGraph|] == inGraph;
    }
  }

  function Without(g: Graph, ids: set<string>): Graph {
    Graph(set v | v in g.vertices && v.snapshotId !in ids, set l | l in g.links && l.snapshotId !in ids)
  }

  /** The ids of a list that have no row. */
  function Orphans(ids: seq<string>, known: set<string>): set<string> {
    Elements(ids) - known
  }

  lemma NothingSwept(g: Graph, ids: seq<string>, known: set<string>)
    ensures Orphans(ids[..0], known) == {}
    ensures Without(g, {}) == g
  {
    assert Without(g, {}).vertices == g.vertices && Without(g, {}).links == g.links;
  }

  lemma OneMoreOrphan(ids: seq<string>, i: nat, known: set<string>)
    requires i < |ids| && NoDuplicates(ids)
    ensures var before, after := Orphans(ids[..i], known), Orphans(ids[..i + 1], known);
            if ids[i] in known then after == before
            else ids[i] !in before && after == before + {ids[i]}
  {
    assert ids[..i + 1] == ids[..i] + [ids[i]];
    ElementsAppend(ids[..i], ids[i]);
    assert ids[i] !in Elements(ids[..i]);
  }

  lemma WithoutOneMore(g: Graph, ids: set<string>, id: string)
    ensures Without(g, ids + {id}) == Without(g, ids).Delete(id)
  {
    assert Without(g, ids).Delete(id).vertices == Without(g, ids + {id}).vertices;
    assert Without(g, ids).Delete(id).links == Without(g, ids + {id}).links;
  }

  lemma OneMoreSwept(g: Graph, ids: seq<string>, i: nat, known: set<string>)
    requires i < |ids| && NoDuplicates(ids)
    ensures var before, after := Orphans(ids[..i], known), Orphans(ids[..i + 1], known);
            if ids[i] in known then after == before
            else |after| == |before| + 1 && Without(g, after) == Without(g, before).Delete(ids[i])
  {
    hide NoDuplicates, Orphans, Without, Graph.Delete;
    OneMoreOrphan(ids, i, known);
    WithoutOneMore(g, Orphans(ids[..i], known), ids[i]);
  }

  /** What a sweep leaves: the ids swept are those of vertices without a row; their links go too. */
  function Reaped(g: Graph, known: set<string>): Graph {
    Without(g, g.SnapshotIds() - known)
  }

  /** After a sweep, every vertex belongs to a snapshot with a row, and no snapshot with a row has
      lost anything. */
  lemma ReapedKeepsKnown(g: Graph, known: set<string>, id: string)
    ensures Reaped(g, known).SnapshotIds() == g.SnapshotIds() * known
    ensures id in known ==> Reaped(g, known).Tagged(id) == g.Tagged(id)
    ensures id !in known && id in g.SnapshotIds() ==> Reaped(g, known).Tagged(id) == EMPTY
  {
    var r := Reaped(g, known);
    forall k ensures k in r.SnapshotIds() <==> k in g.SnapshotIds() * known {
      if k in g.SnapshotIds() * known {
        var v :| v in g.vertices && v.snapshotId == k;
        assert v in r.vertices;
      }
    }
    if id in known {
      assert r.Tagged(id).vertices == g.Tagged(id).vertices;
      assert r.Tagged(id).links == g.Tagged(id).links;
    }
  }

  // ---- One uninterrupted ingest, under any id ----

  ghost predicate Holds(g: Graph, data: Graph) {
    data.vertices <= g.vertices && data.links <= g.links
  }

  /** `expected` is what each row's snapshot was given, and what a reader of it finds. */
  ghost predicate RowsIntact(g: Graph, rows: Rows, expected: map<string, Graph>) {
    forall id :: id in rows ==> id in expected && g.Tagged(id) == expected[id]
  }

  /** What must hold of the supplied id: under the domain's previous id the data is empty; under any
      other id that has a row, the data adds nothing to that snapshot; under an id without a row,
      nothing is left over that the data does not hold. */
  predicate IsSafeId(s: Stores, req: Request) {
    var found := s.graph.Tagged(req.snapshotId);
    if Has(s.rows, req.snapshotId, req.domain, Previous) then req.data == EMPTY
    else if req.snapshotId in s.rows then req.data.vertices <= found.vertices && req.data.links <= found.links
    else found.vertices <= req.data.vertices && found.links <= req.data.links
  }

  lemma WriteTagged(g: Graph, id: string, data: Graph)
    requires data.LiftedFor(id)
    ensures g.Write(data).Tagged(id) == g.Tagged(id).Write(data)
  {
    assert g.Write(data).Tagged(id).vertices == g.Tagged(id).vertices + data.vertices;
    assert g.Write(data).Tagged(id).links == g.Tagged(id).links + data.links;
  }

  /** What a reader finds under each id after a full ingest. */
  lemma TaggedAfter(s: Stores, req: Request, k: string)
    requires OnePerStatus(s.rows) && req.data.LiftedFor(req.snapshotId)
    ensures var committed := CutOver(s.rows, req.snapshotId, NewRow(s.rows, req)).Some?;
            var evicted := Evicted(s.rows, req.domain);
            After(s, req, Recorded).graph.Tagged(k) ==
              if committed && evicted == Some(k) then EMPTY
              else if k == req.snapshotId then s.graph.Tagged(k).Write(req.data) else s.graph.Tagged(k)
  {
    hide CutOver, Evicted, OnePerStatus, Graph.Tagged, Graph.Delete, Graph.Write, NewRow;
    var written, evicted := s.graph.Write(req.data), Evicted(s.rows, req.domain);
    PortFrame(s.graph, req.snapshotId, req.data, k);
    WriteTagged(s.graph, req.snapshotId, req.data);
    if evicted.Some? { PortFrame(written, evicted.value, EMPTY, k); }
  }

  lemma WriteExactly(found: Graph, data: Graph)
    ensures found.Write(data) == found <==> Holds(found, data)
    ensures found.Write(data) == data <==> Holds(data, found)
  {
    assert Holds(found, data) ==>
        found.Write(data).vertices == found.vertices && found.Write(data).links == found.links;
    assert Holds(data, found) ==> found.Write(data).vertices == data.vertices && found.Write(data).links == data.links;
  }

  /** A full ingest under any id leaves every row with exactly its data if and only if the id is safe.
      A previous id is evicted, inserted again and then deleted; an id whose row stays is refused only
      after its snapshot has been written to; leftovers of a crashed ingest mix in. */
  lemma IngestKeepsDataExactly(s: Stores, req: Request, expected: map<string, Graph>)
    requires OnePerStatus(s.rows) && RowsIntact(s.graph, s.rows, expected)
    requires req.data.LiftedFor(req.snapshotId)
    ensures var after := After(s, req, Recorded);
            var committed := CutOver(s.rows, req.snapshotId, NewRow(s.rows, req)).Some?;
            var now := if committed then expected[req.snapshotId := req.data] else expected;
            RowsIntact(after.graph, after.rows, now) <==> IsSafeId(s, req)
  {
    hide OnePerStatus, CutOver, Evicted, NewRow, Graph.Tagged, Graph.Write, Has;
    var id, row, evicted := req.snapshotId, NewRow(s.rows, req), Evicted(s.rows, req.domain);
    EvictedIsPrevious(s.rows, req.domain);
    NewRowIsCurrent(s.rows, req);
    CutOverExactly(s.rows, id, row);
    WriteExactly(s.graph.Tagged(id), req.data);
    forall k ensures After(s, req, Recorded).graph.Tagged(k) ==
      if CutOver(s.rows, id, row).Some? && evicted == Some(k) then EMPTY
      else if k == id then s.graph.Tagged(k).Write(req.data) else s.graph.Tagged(k)
    {
      TaggedAfter(s, req, k);
    }
    if CutOver(s.rows, id, row).Some? {
      CutOverKeys(s.rows, id, row);
    } else {
      assert After(s, req, Recorded).rows == s.rows;
    }
  }

  lemma NewRowIsCurrent(rows: Rows, req: Request)
    ensures NewRow(rows, req).status == Current && NewRow(rows, req).domain == req.domain
  {
  }

  // ---- The three ways to lose or mix data ----

  function NodeIn(name: string, snapshotId: string): Vertex {
    Vertex(name, "Node", "core-ip", snapshotId)
  }

  function OneNode(name: string, snapshotId: string): Graph {
    Graph({NodeIn(name, snapshotId)}, {})
  }

  function CoreIpRow(status: Status): Row {
    Row("core-ip", status, "full-load", None)
  }

  function NodeUpload(name: string, snapshotId: string): Request {
    Request(snapshotId, "core-ip", false, "e", OneNode(name, snapshotId))
  }

  lemma OneNodeTagged(name: string, id: string, k: string)
    ensures OneNode(name, id).LiftedFor(id)
    ensures OneNode(name, id).Tagged(k) == if k == id then OneNode(name, id) else EMPTY
  {
    var g := OneNode(name, id);
    assert g.Tagged(k).vertices == if k == id then g.vertices else {};
  }

  /** An upload under the current snapshot's id is refused, yet its node is in the current snapshot. */
  lemma RefusedUploadIsVisible()
    ensures var s := Stores(OneNode("Node:a", "s1"), map["s1" := CoreIpRow(Current)], []);
            var req := NodeUpload("Node:b", "s1");
            var after := After(s, req, Recorded);
            && RowsIntact(s.graph, s.rows, map["s1" := OneNode("Node:a", "s1")])
            && !IsSafeId(s, req) && after.rows == s.rows && after.events == []
            && after.graph.Tagged("s1") == Graph({NodeIn("Node:a", "s1"), NodeIn("Node:b", "s1")}, {})
  {
    hide Demote;
    var s := Stores(OneNode("Node:a", "s1"), map["s1" := CoreIpRow(Current)], []);
    var req := NodeUpload("Node:b", "s1");
    OneNodeTagged("Node:a", "s1", "s1");
    OneNodeTagged("Node:b", "s1", "s1");
    assert Has(s.rows, "s1", "core-ip", Current);
    CutOverExactly(s.rows, "s1", NewRow(s.rows, req));
    WriteTagged(s.graph, "s1", req.data);
    assert NodeIn("Node:b", "s1") !in s.graph.vertices by { assert "Node:a"[5] == 'a' && "Node:b"[5] == 'b'; }
    assert After(s, req, Recorded).graph == s.graph.Write(req.data);
    assert s.graph.Tagged("s1").Write(req.data).vertices == {NodeIn("Node:a", "s1"), NodeIn("Node:b", "s1")};
  }

  /** An upload under the previous snapshot's id becomes current and is then deleted. */
  lemma PreviousIdIsEmptied()
    ensures var rows := map["s1" := CoreIpRow(Previous), "s2" := CoreIpRow(Current)];
            var s := Stores(OneNode("Node:a", "s1").Write(OneNode("Node:b", "s2")), rows, []);
            var after := After(s, NodeUpload("Node:c", "s1"), Recorded);
            && OnePerStatus(s.rows) && !IsSafeId(s, NodeUpload("Node:c", "s1"))
            && Has(after.rows, "s1", "core-ip", Current) && after.graph.Tagged("s1") == EMPTY
            && after.events == ["s1"]
  {
    hide Demote, Evicted, CutOver, IsCutOver, Graph.Tagged, Graph.Delete, Drop, WithStatus;
    assert "s1"[1] == '1' && "s2"[1] == '2';
    var rows := map["s1" := CoreIpRow(Previous), "s2" := CoreIpRow(Current)];
    var s := Stores(OneNode("Node:a", "s1").Write(OneNode("Node:b", "s2")), rows, []);
    var req := NodeUpload("Node:c", "s1");
    assert Has(rows, "s1", "core-ip", Previous);
    EvictedIsPrevious(rows, "core-ip");
    CutOverExactly(rows, "s1", NewRow(rows, req));
    OneNodeTagged("Node:c", "s1", "s1");
    TaggedAfter(s, req, "s1");
    var after := After(s, req, Recorded);
    assert HasAfter(rows, "s1", NewRow(rows, req), "s1", "core-ip", Current);
  }

  /** What a crashed ingest wrote is found again under the id it used. */
  lemma LeftoversMixIn()
    ensures var crashed := After(Stores(EMPTY, map[], []), NodeUpload("Node:a", "s1"), GraphWritten);
            var after := After(crashed, NodeUpload("Node:b", "s1"), Recorded);
            && crashed.rows == map[] && !IsSafeId(crashed, NodeUpload("Node:b", "s1"))
            && Has(after.rows, "s1", "core-ip", Current)
            && after.graph.Tagged("s1") == Graph({NodeIn("Node:a", "s1"), NodeIn("Node:b", "s1")}, {})
  {
    hide Demote;
    var crashed := After(Stores(EMPTY, map[], []), NodeUpload("Node:a", "s1"), GraphWritten);
    var req := NodeUpload("Node:b", "s1");
    assert crashed.graph.vertices == {NodeIn("Node:a", "s1")} && crashed.graph.links == {};
    assert crashed.graph == OneNode("Node:a", "s1");
    OneNodeTagged("Node:a", "s1", "s1");
    OneNodeTagged("Node:b", "s1", "s1");
    EvictedIsPrevious(crashed.rows, "core-ip");
    CutOverExactly(crashed.rows, "s1", NewRow(crashed.rows, req));
    TaggedAfter(crashed, req, "s1");
    assert NodeIn("Node:a", "s1") !in req.data.vertices by { assert "Node:a"[5] == 'a' && "Node:b"[5] == 'b'; }
    assert HasAfter(crashed.rows, "s1", NewRow(crashed.rows, req), "s1", "core-ip", Current);
    assert OneNode("Node:a", "s1").Write(req.data).vertices == {NodeIn("Node:a", "s1"), NodeIn("Node:b", "s1")};
  }
}
