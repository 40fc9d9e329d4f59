/** Every run of concurrent snapshot ingests with crashes and sweeps. Each ingest works under a fresh
    id; a sweep finds no ingest with vertices between its graph write and its cut-over. */
module IngestProtocol {
  import opened Common
  import opened SnapshotIngest

  /** An ingest in flight: the last step it completed and the row its cut-over evicted. */
  datatype Worker = Worker(req: Request, row: Row, point: Point, evicted: Option<string>)

  /** A cut-over that took place. */
  datatype Commit = Commit(id: string, domain: string, data: Graph)

  /** `used` and `log` are the history: ids ever taken and cut-overs in order. */
  datatype World = World(stores: Stores, workers: map<string, Worker>, used: set<string>, log: seq<Commit>)

  datatype Step =
    | Start(req: Request)
    | WriteGraph(id: string)
    | CutRows(id: string)
    | DeleteData(id: string)
    | Emit(id: string)
    | RecordEvent(id: string)
    | Crash(id: string)
    | Sweep

  predicate At(w: World, id: string, point: Point) {
    id in w.workers && w.workers[id].point == point
  }

  /** No ingest waits for its cut-over with vertices in the graph. */
  ghost predicate NoneWritten(w: World) {
    forall id :: At(w, id, GraphWritten) ==> w.workers[id].req.data.vertices == {}
  }

  ghost function Swept(w: World): World {
    w.(stores := w.stores.(graph := Reaped(w.stores.graph, w.stores.rows.Keys)))
  }

  ghost predicate Enabled(w: World, step: Step) {
    match step
    case Start(req) => req.snapshotId !in w.used && req.data.LiftedFor(req.snapshotId)
    case WriteGraph(id) => At(w, id, Validated)
    case CutRows(id) => At(w, id, GraphWritten)
    case DeleteData(id) => At(w, id, CutOverDone)
    case Emit(id) => At(w, id, EvictedDeleted)
    case RecordEvent(id) => At(w, id, Emitted)
    case Crash(id) => id in w.workers
    case Sweep => NoneWritten(w)
  }

  function Advance(w: World, id: string, point: Point): World
    requires id in w.workers
  {
    w.(workers := w.workers[id := w.workers[id].(point := point)])
  }

  function Leave(w: World, id: string): World {
    w.(workers := w.workers - {id})
  }

  ghost function Apply(w: World, step: Step): World
    requires Enabled(w, step)
  {
    var s := w.stores;
    match step
    case Start(req) =>
      w.(workers := w.workers[req.snapshotId := Worker(req, NewRow(s.rows, req), Validated, None)],
         used := w.used + {req.snapshotId})
    case WriteGraph(id) => Advance(w, id, GraphWritten).(stores := s.(graph := s.graph.Write(w.workers[id].req.data)))
    case CutRows(id) => Cut(w, id)
    case DeleteData(id) => Advance(w, id, EvictedDeleted).(stores :=
        s.(graph := DeleteEvicted(s.graph, w.workers[id].evicted)))
    case Emit(id) => Advance(w, id, Emitted).(stores := s.(events := s.events + [id]))
    case RecordEvent(id) => Leave(w, id).(stores := s.(rows := SetEventId(s.rows, id, w.workers[id].req.eventId)))
    case Crash(id) => Leave(w, id)
    case Sweep => Swept(w)
  }

  /** The cut-over transaction; a key conflict ends the ingest. */
  function Cut(w: World, id: string): World
    requires id in w.workers
  {
    var worker := w.workers[id];
    var rows := CutOver(w.stores.rows, id, worker.row);
    if rows.None? then Leave(w, id)
    else
      w.(stores := w.stores.(rows := rows.value),
         workers :=
             w.workers[id := worker.(point := CutOverDone, evicted := Evicted(w.stores.rows, worker.row.domain))],
         log := w.log + [Commit(id, worker.req.domain, worker.req.data)])
  }

  ghost predicate Next(w: World, x: World) {
    exists step :: Enabled(w, step) && x == Apply(w, step)
  }

  const INIT := World(Stores(EMPTY, map[], []), map[], {}, [])

  ghost predicate IsRun(run: seq<World>) {
    run != [] && run[0] == INIT && forall i :: 0 < i < |run| ==> Next(run[i - 1], run[i])
  }

  // ---- The cut-over history ----

  ghost function Ids(log: seq<Commit>): set<string> {
    if log == [] then {} else Ids(log[..|log| - 1]) + {log[|log| - 1].id}
  }

  ghost function DataOf(log: seq<Commit>, id: string): Graph {
    if log == [] then EMPTY
    else if log[|log| - 1].id == id then log[|log| - 1].data
    else DataOf(log[..|log| - 1], id)
  }

  /** The domain's last cut-over, or the one before it. */
  ghost function Slot(log: seq<Commit>, domain: string, status: Status): Option<string> {
    if log == [] then None
    else
      var front, last := log[..|log| - 1], log[|log| - 1];
      if last.domain != domain then Slot(front, domain, status)
      else if status == Current then Some(last.id)
      else Slot(front, domain, Current)
  }

  lemma {:induction false} SlotsAreLogged(log: seq<Commit>, domain: string, status: Status)
    ensures Slot(log, domain, status).Some? ==> Slot(log, domain, status).value in Ids(log)
  {
    if log != [] {
      SlotsAreLogged(log[..|log| - 1], domain, status);
      SlotsAreLogged(log[..|log| - 1], domain, Current);
    }
  }

  lemma LogGrows(log: seq<Commit>, c: Commit)
    ensures Ids(log + [c]) == Ids(log) + {c.id}
    ensures forall k :: DataOf(log + [c], k) == if k == c.id then c.data else DataOf(log, k)
    ensures forall d, s :: Slot(log + [c], d, s) ==
              if d != c.domain then Slot(log, d, s) else if s == Current then Some(c.id) else Slot(log, d, Current)
  {
    assert (log + [c])[..|log|] == log;
  }

  // ---- The invariant ----

  /** Each domain's rows are its last two cut-overs, and nothing else has a row. */
  ghost predicate RowsAreLastTwo(rows: Rows, log: seq<Commit>) {
    forall k, d, s :: Has(rows, k, d, s) <==> Slot(log, d, s) == Some(k)
  }

  /** Every row's snapshot has exactly the data it was ingested with. */
  ghost predicate DataPresent(g: Graph, rows: Rows, log: seq<Commit>) {
    forall k :: k in rows ==> k in Ids(log) && g.Tagged(k) == DataOf(log, k)
  }

  ghost predicate UnusedIsAbsent(g: Graph, used: set<string>) {
    forall k :: k !in used ==> g.Tagged(k) == EMPTY
  }

  /** Events announce committed snapshots, each at most once, and a row's event id is that of an event. */
  ghost predicate EventsAreCommitted(s: Stores, log: seq<Commit>) {
    && NoDuplicates(s.events)
    && (forall k :: k in s.events ==> k in Ids(log))
    && forall k :: k in s.rows && s.rows[k].eventId.Some? ==> k in s.events
  }

  ghost predicate WorkerOk(id: string, worker: Worker, s: Stores, log: seq<Commit>) {
    && worker.req.snapshotId == id && worker.req.data.LiftedFor(id)
    && worker.row.domain == worker.req.domain && worker.row.status == Current && worker.row.eventId == None
    && worker.point != Recorded
    && (worker.point == Validated ==> id !in Ids(log) && s.graph.Tagged(id) == EMPTY)
    && (worker.point == GraphWritten ==> id !in Ids(log) && s.graph.Tagged(id) == worker.req.data)
    && (worker.point == CutOverDone && worker.evicted.Some? ==>
         worker.evicted.value in Ids(log) && worker.evicted.value !in s.rows)
    && (worker.point in {CutOverDone, EvictedDeleted, Emitted} ==> id in Ids(log))
    && (worker.point == Emitted <==> id in s.events)
  }

  ghost predicate WorkersOk(workers: map<string, Worker>, s: Stores, log: seq<Commit>) {
    forall k :: k in workers ==> WorkerOk(k, workers[k], s, log)
  }

  ghost predicate Inv(w: World) {
    && RowsAreLastTwo(w.stores.rows, w.log)
    && DataPresent(w.stores.graph, w.stores.rows, w.log)
    && UnusedIsAbsent(w.stores.graph, w.used)
    && EventsAreCommitted(w.stores, w.log)
    && WorkersOk(w.workers, w.stores, w.log)
    && Ids(w.log) + w.workers.Keys <= w.used
  }

  lemma LastTwoMeansIndex(rows: Rows, log: seq<Commit>)
    requires RowsAreLastTwo(rows, log)
    ensures OnePerStatus(rows)
  {
    forall a, b | a in rows && b in rows && rows[a].domain == rows[b].domain && rows[a].status == rows[b].status
      ensures a == b
    {
      assert Has(rows, a, rows[a].domain, rows[a].status) && Has(rows, b, rows[a].domain, rows[a].status);
    }
  }

  lemma RowsAreLogged(rows: Rows, log: seq<Commit>, id: string)
    requires RowsAreLastTwo(rows, log)
    ensures id in rows ==> id in Ids(log)
  {
    if id in rows {
      assert Has(rows, id, rows[id].domain, rows[id].status);
      SlotsAreLogged(log, rows[id].domain, rows[id].status);
    }
  }

  // ---- Each step keeps the invariant ----

  lemma StartKeeps(w: World, req: Request)
    requires Inv(w) && Enabled(w, Start(req))
    ensures Inv(Apply(w, Start(req)))
  {
    hide Ids, DataOf, Slot, Has, NoDuplicates;
    var id, x := req.snapshotId, Apply(w, Start(req));
    assert id !in w.stores.events;
    assert WorkerOk(id, x.workers[id], x.stores, x.log);
  }

  lemma WriteKeeps(w: World, id: string)
    requires Inv(w) && Enabled(w, WriteGraph(id))
    ensures Inv(Apply(w, WriteGraph(id)))
  {
    hide Ids, DataOf, Slot, Has, NoDuplicates, Graph.Tagged, Graph.Write, Graph.LiftedFor;
    var s, x, data := w.stores, Apply(w, WriteGraph(id)), w.workers[id].req.data;
    forall k ensures x.stores.graph.Tagged(k) == if k == id then data else s.graph.Tagged(k) {
      PortFrame(s.graph, id, data, k);
    }
    RowsAreLogged(s.rows, w.log, id);
    forall k | k in x.workers ensures WorkerOk(k, x.workers[k], x.stores, x.log) {
      assert WorkerOk(k, w.workers[k], s, w.log);
    }
  }

  lemma CutRowsStayLastTwo(rows: Rows, log: seq<Commit>, c: Commit, row: Row, after: Rows)
    requires RowsAreLastTwo(rows, log) && c.id !in Ids(log) && row.domain == c.domain && row.status == Current
    requires IsCutOver(rows, c.id, row, after)
    ensures RowsAreLastTwo(after, log + [c])
  {
    hide Ids, Slot, Has, OnePerStatus;
    LogGrows(log, c);
    forall k, d, s ensures Has(after, k, d, s) <==> Slot(log + [c], d, s) == Some(k) {
      SlotsAreLogged(log, d, s);
      SlotsAreLogged(log, d, Current);
      assert Has(after, k, d, s) <==> HasAfter(rows, c.id, row, k, d, s);
      assert Has(rows, k, d, s) <==> Slot(log, d, s) == Some(k);
      assert Has(rows, k, d, Current) <==> Slot(log, d, Current) == Some(k);
    }
  }

  /** The rows the cut-over leaves, and the one it takes away. */
  lemma CutRowsAre(w: World, id: string)
    requires Inv(w) && At(w, id, GraphWritten)
    ensures var rows, row := w.stores.rows, w.workers[id].row;
            var evicted := Evicted(rows, row.domain);
            && CutOver(rows, id, row).Some?
            && id !in Ids(w.log)
            && IsCutOver(rows, id, row, CutOver(rows, id, row).value)
            && (evicted.Some? ==>
                 evicted.value in rows && evicted.value in Ids(w.log) && evicted.value !in CutOver(rows, id, row).value)
            && (forall k :: k in CutOver(rows, id, row).value && k != id ==> k in rows)
            && (forall k ::
                 k in CutOver(rows, id, row).value && k != id ==>
                     CutOver(rows, id, row).value[k].eventId == rows[k].eventId)
  {
    hide Ids, CutOver, Evicted, IsCutOver, OnePerStatus, Graph.Tagged, DataOf, NoDuplicates;
    var rows, row := w.stores.rows, w.workers[id].row;
    assert WorkerOk(id, w.workers[id], w.stores, w.log);
    LastTwoMeansIndex(rows, w.log);
    RowsAreLogged(rows, w.log, id);
    CutOverExactly(rows, id, row);
    CutOverKeys(rows, id, row);
    EvictedIsPrevious(rows, row.domain);
    if Evicted(rows, row.domain).Some? {
      assert Has(rows, Evicted(rows, row.domain).value, row.domain, Previous);
      RowsAreLogged(rows, w.log, Evicted(rows, row.domain).value);
    }
  }

  lemma CutKeeps(w: World, id: string)
    requires Inv(w) && Enabled(w, CutRows(id))
    ensures Inv(Apply(w, CutRows(id)))
  {
    hide Ids, DataOf, Slot, Has, NoDuplicates, Graph.Tagged, Graph.LiftedFor, OnePerStatus, CutOver, Evicted, IsCutOver,
         RowsAreLastTwo;
    var s, x, worker := w.stores, Apply(w, CutRows(id)), w.workers[id];
    var c := Commit(id, worker.req.domain, worker.req.data);
    assert WorkerOk(id, worker, s, w.log);
    CutRowsAre(w, id);
    LogGrows(w.log, c);
    assert x == Cut(w, id);
    CutRowsStayLastTwo(s.rows, w.log, c, worker.row, x.stores.rows);
    assert x.stores.rows[id] == worker.row by { CutOverKeys(s.rows, id, worker.row); }
    forall k | k in x.workers ensures WorkerOk(k, x.workers[k], x.stores, x.log) {
      assert WorkerOk(k, w.workers[k], s, w.log);
    }
  }

  lemma DeleteKeeps(w: World, id: string)
    requires Inv(w) && Enabled(w, DeleteData(id))
    ensures Inv(Apply(w, DeleteData(id)))
  {
    hide Ids, DataOf, Slot, Has, NoDuplicates, Graph.Tagged, Graph.Delete, RowsAreLastTwo;
    var s, x, evicted := w.stores, Apply(w, DeleteData(id)), w.workers[id].evicted;
    assert WorkerOk(id, w.workers[id], s, w.log);
    if evicted.Some? {
      forall k ensures x.stores.graph.Tagged(k) == if k == evicted.value then EMPTY else s.graph.Tagged(k) {
        PortFrame(s.graph, evicted.value, EMPTY, k);
      }
    }
    forall k | k in x.workers ensures WorkerOk(k, x.workers[k], x.stores, x.log) {
      assert WorkerOk(k, w.workers[k], s, w.log);
    }
  }

  lemma EmitKeeps(w: World, id: string)
    requires Inv(w) && Enabled(w, Emit(id))
    ensures Inv(Apply(w, Emit(id)))
  {
    hide Ids, DataOf, Slot, Has, Graph.Tagged, Graph.LiftedFor, RowsAreLastTwo;
    var s, x := w.stores, Apply(w, Emit(id));
    assert WorkerOk(id, w.workers[id], s, w.log);
    ElementsAppend(s.events, id);
    forall k | k in x.workers ensures WorkerOk(k, x.workers[k], x.stores, x.log) {
      assert WorkerOk(k, w.workers[k], s, w.log);
    }
  }

  lemma RecordKeeps(w: World, id: string)
    requires Inv(w) && Enabled(w, RecordEvent(id))
    ensures Inv(Apply(w, RecordEvent(id)))
  {
    hide Ids, DataOf, Slot, Graph.Tagged, Graph.LiftedFor, NoDuplicates;
    var s, x := w.stores, Apply(w, RecordEvent(id));
    assert WorkerOk(id, w.workers[id], s, w.log);
    assert forall k, d, t :: Has(x.stores.rows, k, d, t) <==> Has(s.rows, k, d, t);
    forall k | k in x.workers ensures WorkerOk(k, x.workers[k], x.stores, x.log) {
      assert WorkerOk(k, w.workers[k], s, w.log);
    }
  }

  lemma SweepKeeps(w: World)
    requires Inv(w) && Enabled(w, Sweep)
    ensures Inv(Apply(w, Sweep))
  {
    hide Ids, DataOf, Slot, Has, Graph.Tagged, NoDuplicates, Reaped;
    var g, rows := w.stores.graph, w.stores.rows;
    forall k | k in rows ensures Reaped(g, rows.Keys).Tagged(k) == g.Tagged(k) {
      ReapedKeepsKnown(g, rows.Keys, k);
    }
    forall k | g.Tagged(k).vertices == {} ensures Reaped(g, rows.Keys).Tagged(k) == g.Tagged(k) {
      SweepSparesTheEmpty(g, rows.Keys, k);
    }
    forall k | k in w.workers ensures WorkerOk(k, w.workers[k], Swept(w).stores, w.log) {
      assert WorkerOk(k, w.workers[k], w.stores, w.log);
      assert At(w, k, w.workers[k].point);
    }
  }

  lemma SweepSparesTheEmpty(g: Graph, known: set<string>, k: string)
    requires g.Tagged(k).vertices == {}
    ensures Reaped(g, known).Tagged(k) == g.Tagged(k)
  {
    PresentByVertices(g, k);
    var r := Reaped(g, known);
    assert r.Tagged(k).vertices == g.Tagged(k).vertices && r.Tagged(k).links == g.Tagged(k).links;
  }

  lemma StepKeeps(w: World, step: Step)
    requires Inv(w) && Enabled(w, step)
    ensures Inv(Apply(w, step))
  {
    hide RowsAreLastTwo, DataPresent, UnusedIsAbsent, EventsAreCommitted, WorkerOk, Ids;
    match step
    case Start(req) => StartKeeps(w, req);
    case WriteGraph(id) => WriteKeeps(w, id);
    case CutRows(id) => CutKeeps(w, id);
    case DeleteData(id) => DeleteKeeps(w, id);
    case Emit(id) => EmitKeeps(w, id);
    case RecordEvent(id) => RecordKeeps(w, id);
    case Crash(id) =>
    case Sweep => SweepKeeps(w);
  }

  lemma InitHolds()
    ensures Inv(INIT)
  {
  }

  // ---- Every run ----

  /** In every state of every run the invariant holds. */
  lemma {:induction false} RunsAreSafe(run: seq<World>, i: nat)
    requires IsRun(run) && i < |run|
    ensures Inv(run[i])
  {
    hide Inv, Enabled, Apply;
    if i == 0 {
      InitHolds();
    } else {
      RunsAreSafe(run, i - 1);
      assert Next(run[i - 1], run[i]);
      var step :| Enabled(run[i - 1], step) && run[i] == Apply(run[i - 1], step);
      StepKeeps(run[i - 1], step);
    }
  }

  /** What the invariant means for readers: at most one current and one previous row a domain, namely
      its last two cut-overs, each with the whole of its own data and nobody else's. */
  lemma {:induction false} ReadersSeeTheLastTwo(run: seq<World>, i: nat, domain: string)
    requires IsRun(run) && i < |run|
    ensures var w := run[i];
            && OnePerStatus(w.stores.rows)
            && (forall id, status :: Has(w.stores.rows, id, domain, status) <==>
                 Slot(w.log, domain, status) == Some(id))
            && (forall id, status ::
                 Has(w.stores.rows, id, domain, status) ==> w.stores.graph.Tagged(id) == DataOf(w.log, id))
  {
    hide Inv, IsRun, OnePerStatus, Slot, DataOf, Graph.Tagged;
    RunsAreSafe(run, i);
    RowsOfInv(run[i]);
    LastTwoMeansIndex(run[i].stores.rows, run[i].log);
  }

  lemma RowsOfInv(w: World)
    requires Inv(w)
    ensures RowsAreLastTwo(w.stores.rows, w.log) && DataPresent(w.stores.graph, w.stores.rows, w.log)
  {
  }

  lemma PresentByVertices(g: Graph, id: string)
    ensures id in g.SnapshotIds() <==> g.Tagged(id).vertices != {}
  {
    if id in g.SnapshotIds() {
      var v :| v in g.vertices && v.snapshotId == id;
      assert v in g.Tagged(id).vertices;
    }
    if g.Tagged(id).vertices != {} {
      var v :| v in g.Tagged(id).vertices;
      assert v.snapshotId in g.SnapshotIds();
    }
  }

  /** After a sweep, the graph's snapshot ids are those of the rows whose snapshots have vertices. */
  lemma {:induction false} SweepLeavesTheRows(run: seq<World>, i: nat)
    requires IsRun(run) && i < |run|
    ensures var w := run[i];
            Swept(w).stores.graph.SnapshotIds() == set id | id in w.stores.rows &&
                DataOf(w.log, id).vertices != {}
  {
    hide Inv, IsRun, Slot, DataOf, Ids;
    RunsAreSafe(run, i);
    RowsOfInv(run[i]);
    var g, rows := run[i].stores.graph, run[i].stores.rows;
    ReapedKeepsKnown(g, rows.Keys, "");
    forall id | id in rows ensures id in g.SnapshotIds() <==> DataOf(run[i].log, id).vertices != {} {
      PresentByVertices(g, id);
    }
  }

  /** Why a sweep must wait: between an ingest's graph write and its cut-over, a sweep takes the data
      written unless there are no vertices. */
  lemma {:induction false} SweepSparesInFlightExactly(run: seq<World>, i: nat, id: string)
    requires IsRun(run) && i < |run| && At(run[i], id, GraphWritten)
    ensures var w := run[i];
            var data := w.workers[id].req.data;
            Reaped(w.stores.graph, w.stores.rows.Keys).Tagged(id) == data <==> data.vertices == {}
  {
    hide Inv, IsRun, Slot, DataOf, Ids;
    RunsAreSafe(run, i);
    WrittenHasNoRow(run[i], id);
    var g, known, data := run[i].stores.graph, run[i].stores.rows.Keys, run[i].workers[id].req.data;
    ReapedKeepsKnown(g, known, id);
    PresentByVertices(g, id);
    if data.vertices == {} { SweepSparesTheEmpty(g, known, id); }
  }

  /** A sweep keeps the invariant if and only if it finds no written ingest with vertices: any other
      sweep takes data that a cut-over is about to make current. */
  lemma SweepKeepsExactly(w: World)
    requires Inv(w)
    ensures Inv(Swept(w)) <==> NoneWritten(w)
  {
    hide Inv;
    if NoneWritten(w) { SweepKeeps(w); }
    if Inv(Swept(w)) {
      forall id | At(w, id, GraphWritten) ensures w.workers[id].req.data.vertices == {} {
        if w.workers[id].req.data.vertices != {} { WrittenIsSwept(w, id); }
        WrittenHasNoRow(Swept(w), id);
      }
    }
  }

  /** A first ingest that a sweep interrupts goes on to make an empty snapshot current. */
  lemma InterruptedIngestIsEmpty() returns (run: seq<World>)
    ensures IsRun(run) && At(run[|run| - 1], "s1", GraphWritten)
    ensures var w := run[|run| - 1];
            && w.workers["s1"].req.data == OneNode("Node:a", "s1")
            && Has(Cut(Swept(w), "s1").stores.rows, "s1", "core-ip", Current)
            && Cut(Swept(w), "s1").stores.graph.Tagged("s1") == EMPTY
  {
    hide Inv, Demote, Graph.Tagged, Reaped;
    var req := NodeUpload("Node:a", "s1");
    OneNodeTagged("Node:a", "s1", "s1");
    InitHolds();
    run := StagesTo(INIT, req, GraphWritten);
    ChainIsRun(run);
    var w := run[|run| - 1];
    RunsAreSafe(run, |run| - 1);
    WrittenHasNoRow(w, "s1");
    assert w.stores.rows == map[];
    CutOverExactly(map[], "s1", w.workers["s1"].row);
    assert HasAfter(map[], "s1", w.workers["s1"].row, "s1", "core-ip", Current);
    WrittenIsSwept(w, "s1");
  }

  lemma WrittenIsSwept(w: World, id: string)
    requires Inv(w) && At(w, id, GraphWritten) && w.workers[id].req.data.vertices != {}
    ensures Reaped(w.stores.graph, w.stores.rows.Keys).Tagged(id) == EMPTY
  {
    hide Inv;
    WrittenHasNoRow(w, id);
    PresentByVertices(w.stores.graph, id);
    ReapedKeepsKnown(w.stores.graph, w.stores.rows.Keys, id);
  }

  lemma ChainIsRun(ws: seq<World>)
    requires Chain(ws) && ws[0] == INIT
    ensures IsRun(ws)
  {
  }

  lemma WrittenHasNoRow(w: World, id: string)
    requires Inv(w) && At(w, id, GraphWritten)
    ensures id !in w.stores.rows && w.stores.graph.Tagged(id) == w.workers[id].req.data
  {
    hide Ids, Slot, DataOf, Graph.Tagged;
    assert WorkerOk(id, w.workers[id], w.stores, w.log);
    RowsAreLogged(w.stores.rows, w.log, id);
  }

  // ---- One ingest alone is a run of the protocol ----

  ghost predicate Chain(ws: seq<World>) {
    ws != [] && forall i :: 0 < i < |ws| ==> Next(ws[i - 1], ws[i])
  }

  lemma ChainGrows(ws: seq<World>, step: Step)
    requires Chain(ws) && Enabled(ws[|ws| - 1], step)
    ensures Chain(ws + [Apply(ws[|ws| - 1], step)])
  {
    var x := Apply(ws[|ws| - 1], step);
    assert Next(ws[|ws| - 1], x);
    forall i | 0 < i < |ws| + 1 ensures Next((ws + [x])[i - 1], (ws + [x])[i]) {
    }
  }

  ghost predicate Reached(w: World, req: Request, point: Point, x: World) {
    && At(x, req.snapshotId, point)
    && x.workers - {req.snapshotId} == w.workers
    && x.workers[req.snapshotId].req == req && x.workers[req.snapshotId].row == NewRow(w.stores.rows, req)
    && (point == CutOverDone ==> x.workers[req.snapshotId].evicted == Evicted(w.stores.rows, req.domain))
    && x.stores == After(w.stores, req, point)
  }

  /** The world one step later. */
  lemma StageFollows(w: World, req: Request, x: World, point: Point, step: Step)
    requires Inv(w) && Enabled(w, Start(req)) && Inv(x) && Reached(w, req, point, x)
    requires || (point == Validated && step == WriteGraph(req.snapshotId))
             || (point == GraphWritten && step == CutRows(req.snapshotId))
             || (point == CutOverDone && step == DeleteData(req.snapshotId))
             || (point == EvictedDeleted && step == Emit(req.snapshotId))
    ensures Enabled(x, step) && Inv(Apply(x, step))
    ensures Reached(w, req, Following(point), Apply(x, step))
    ensures CutOver(w.stores.rows, req.snapshotId, NewRow(w.stores.rows, req)).Some?
  {
    hide Inv, Evicted, CutOver, Graph.Write, Graph.Delete, Graph.LiftedFor;
    FreshCutSucceeds(w, req);
    StepKeeps(x, step);
    assert Apply(x, step).workers - {req.snapshotId} == x.workers - {req.snapshotId};
  }

  function Following(point: Point): Point {
    match point
    case Validated => GraphWritten
    case GraphWritten => CutOverDone
    case CutOverDone => EvictedDeleted
    case EvictedDeleted => Emitted
    case Emitted => Recorded
    case Recorded => Recorded
  }

  lemma FreshCutSucceeds(w: World, req: Request)
    requires Inv(w) && Enabled(w, Start(req))
    ensures CutOver(w.stores.rows, req.snapshotId, NewRow(w.stores.rows, req)).Some?
  {
    hide Ids, Slot, DataOf, Graph.Tagged, CutOver, OnePerStatus;
    LastTwoMeansIndex(w.stores.rows, w.log);
    RowsAreLogged(w.stores.rows, w.log, req.snapshotId);
    CutOverExactly(w.stores.rows, req.snapshotId, NewRow(w.stores.rows, req));
  }

  /** From any state of the protocol, one ingest under a fresh id, stopped after any of its steps, is a
      run that leaves the stores as the service's own sequence of calls does. */
  lemma IngestIsARun(w: World, req: Request, point: Point) returns (ws: seq<World>)
    requires Inv(w) && Enabled(w, Start(req))
    ensures ws != [] && Chain(ws) && ws[0] == w
    ensures ws[|ws| - 1].stores == After(w.stores, req, point)
    ensures ws[|ws| - 1].workers == w.workers
  {
    hide Inv, Chain, After, Enabled, Apply, CutOver;
    if point == Recorded {
      ws := StagesTo(w, req, Emitted);
      RecordFinishes(w, req, ws[|ws| - 1]);
      ChainGrows(ws, RecordEvent(req.snapshotId));
      ws := ws + [Apply(ws[|ws| - 1], RecordEvent(req.snapshotId))];
    } else {
      ws := StagesTo(w, req, point);
      CrashFinishes(w, req, point, ws[|ws| - 1]);
      ChainGrows(ws, Crash(req.snapshotId));
      ws := ws + [Apply(ws[|ws| - 1], Crash(req.snapshotId))];
    }
  }

  lemma RecordFinishes(w: World, req: Request, x: World)
    requires Inv(w) && Enabled(w, Start(req)) && Reached(w, req, Emitted, x)
    ensures Enabled(x, RecordEvent(req.snapshotId))
    ensures Apply(x, RecordEvent(req.snapshotId)).stores == After(w.stores, req, Recorded)
    ensures Apply(x, RecordEvent(req.snapshotId)).workers == w.workers
  {
    hide CutOver, Evicted, Inv;
    FreshCutSucceeds(w, req);
  }

  lemma CrashFinishes(w: World, req: Request, point: Point, x: World)
    requires Reached(w, req, point, x)
    ensures Enabled(x, Crash(req.snapshotId))
    ensures Apply(x, Crash(req.snapshotId)).stores == After(w.stores, req, point)
    ensures Apply(x, Crash(req.snapshotId)).workers == w.workers
  {
    hide After;
  }

  lemma StagesTo(w: World, req: Request, point: Point) returns (ws: seq<World>)
    requires Inv(w) && Enabled(w, Start(req)) && point != Recorded
    ensures ws != [] && Chain(ws) && ws[0] == w
    ensures Inv(ws[|ws| - 1]) && Reached(w, req, point, ws[|ws| - 1])
    decreases Rank(point)
  {
    hide Inv, Chain, After, Enabled, Apply;
    if point == Validated {
      StartReaches(w, req);
      ws := [w];
      assert Chain(ws) by { ChainOfOne(w); }
      ChainGrows(ws, Start(req));
      ws := ws + [Apply(w, Start(req))];
    } else {
      var before, step := Preceding(point, req.snapshotId);
      ws := StagesTo(w, req, before);
      StageFollows(w, req, ws[|ws| - 1], before, step);
      ChainGrows(ws, step);
      ws := ws + [Apply(ws[|ws| - 1], step)];
    }
  }

  lemma ChainOfOne(w: World)
    ensures Chain([w])
  {
  }

  lemma StartReaches(w: World, req: Request)
    requires Inv(w) && Enabled(w, Start(req))
    ensures Inv(Apply(w, Start(req))) && Reached(w, req, Validated, Apply(w, Start(req)))
  {
    StepKeeps(w, Start(req));
    assert req.snapshotId !in w.workers;
    assert Apply(w, Start(req)).workers - {req.snapshotId} == w.workers;
  }

  function Rank(point: Point): nat {
    match point
    case Validated => 0
    case GraphWritten => 1
    case CutOverDone => 2
    case EvictedDeleted => 3
    case Emitted => 4
    case Recorded => 5
  }

  lemma Preceding(point: Point, id: string) returns (before: Point, step: Step)
    requires point in {GraphWritten, CutOverDone, EvictedDeleted, Emitted}
    ensures Rank(before) < Rank(point) && Following(before) == point
    ensures || (before == Validated && step == WriteGraph(id))
            || (before == GraphWritten && step == CutRows(id))
            || (before == CutOverDone && step == DeleteData(id))
            || (before == EvictedDeleted && step == Emit(id))
  {
    match point
    case GraphWritten => before, step := Validated, WriteGraph(id);
    case CutOverDone => before, step := GraphWritten, CutRows(id);
    case EvictedDeleted => before, step := CutOverDone, DeleteData(id);
    case Emitted => before, step := EvictedDeleted, Emit(id);
  }
}
