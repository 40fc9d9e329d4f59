/** The compile cycle under at-least-once delivery: any number of consumers, interleaved at the
    check, the persist transaction and the emit, with crashes and redeliveries anywhere. */
module CompileProtocol {
  import opened Common
  import opened Scenarios
  import opened CodebookStore

  datatype Worker =
    | Idle
    | Received(msg: Message)
    | Unprocessed(msg: Message)                             // passed the duplicate check
    | Duplicate(msg: Message, codebookId: string)           // found a codebook for the event
    | Emitting(msg: Message, codebookId: string, count: nat)

  /** A committed persist transaction. */
  datatype Commit = Commit(msg: Message, codebookId: string, scenarios: seq<Scenario>)

  /** `log` is the history of commits, `emissions` the outgoing topic, `deadLetters` the DLQ. */
  datatype World = World(
    tables: Tables,
    workers: map<nat, Worker>,
    emissions: seq<Emission>,
    deadLetters: seq<Message>,
    log: seq<Commit>)

  datatype Step =
    | Deliver(msg: Message)     // also a redelivery
    | Check
    | ReadMeta
    | FailCompile               // integration or vocabulary error
    | PersistStep(codebookId: string, scenarios: seq<Scenario>)
    | Emit
    | Crash

  const NO_TABLES := Tables(map[], map[], map[])

  ghost predicate Init(s: World) {
    && s.tables == NO_TABLES && s.emissions == [] && s.deadLetters == [] && s.log == []
    && forall w :: w in s.workers ==> s.workers[w].Idle?
  }

  function EmissionOf(w: Worker): Emission
    requires w.Emitting?
  {
    Emission(w.msg.eventId, w.msg.snapshotId, w.count, w.codebookId, w.msg.domain)
  }

  /** Worker `w` takes one step. The topic fixes each event's payload. */
  ghost predicate Next(topic: set<Message>, s: World, t: World, w: nat, step: Step) {
    w in s.workers &&
    var worker := s.workers[w];
    match step
    case Deliver(msg) =>
      worker.Idle? && msg in topic && t == s.(workers := s.workers[w := Received(msg)])
    case Check =>
      && worker.Received?
      && t == s.(workers := s.workers[w :=
           if worker.msg.eventId !in s.tables.processed then Unprocessed(worker.msg)
           else if s.tables.processed[worker.msg.eventId] in {None, Some("")} then Idle
           else Duplicate(worker.msg, s.tables.processed[worker.msg.eventId].value)])
    case ReadMeta =>
      && worker.Duplicate?
      && t == s.(workers := s.workers[w := Emitting(worker.msg, worker.codebookId,
           if worker.codebookId in s.tables.codebooks then s.tables.codebooks[worker.codebookId].scenarioCount else 0)])
    case FailCompile =>
      worker.Unprocessed? && t == s.(workers := s.workers[w := Idle], deadLetters := s.deadLetters + [worker.msg])
    case PersistStep(codebookId, scenarios) =>
      worker.Unprocessed? && codebookId != "" &&
      var committed := Persist(s.tables, codebookId, worker.msg, scenarios);
      if committed.None? then t == s.(workers := s.workers[w := Idle])   // aborted: the consumer crashes
      else t == s.(tables := committed.value,
                   workers := s.workers[w := Emitting(worker.msg, codebookId, |scenarios|)],
                   log := s.log + [Commit(worker.msg, codebookId, scenarios)])
    case Emit =>
      worker.Emitting? && t == s.(workers := s.workers[w := Idle], emissions := s.emissions + [EmissionOf(worker)])
    case Crash =>
      t == s.(workers := s.workers[w := Idle])
  }

  ghost predicate SomeStep(topic: set<Message>, s: World, t: World) {
    exists w, step :: Next(topic, s, t, w, step)
  }

  ghost predicate IsRun(topic: set<Message>, run: seq<World>) {
    && run != [] && Init(run[0])
    && forall i :: 0 < i < |run| ==> SomeStep(topic, run[i-1], run[i])
  }

  /** One payload per event id. */
  ghost predicate Topic(topic: set<Message>) {
    forall m, n :: m in topic && n in topic && m.eventId == n.eventId ==> m == n
  }

  // ---- The store is the sequential replay of the commits ----

  /** The tables after the commits one after another, or None when one of them would abort. */
  function Replay(log: seq<Commit>): Option<Tables> {
    if log == [] then Some(NO_TABLES)
    else
      var prior, last := Replay(log[..|log|-1]), log[|log|-1];
      if prior.None? then None else Persist(prior.value, last.codebookId, last.msg, last.scenarios)
  }

  /** The codebook committed last for a (domain, snapshot). */
  function LastFor(log: seq<Commit>, domain: string, snapshotId: string): Option<string> {
    if log == [] then None
    else if log[|log|-1].msg.domain == domain && log[|log|-1].msg.snapshotId == snapshotId
        then Some(log[|log|-1].codebookId)
    else LastFor(log[..|log|-1], domain, snapshotId)
  }

  /** The row a commit leaves behind: active while no later commit has the same key. */
  ghost predicate HasRow(t: Tables, log: seq<Commit>, c: Commit) {
    && c.codebookId in t.codebooks
    && t.codebooks[c.codebookId] == CodebookRow(c.msg.snapshotId, c.msg.domain,
         LastFor(log, c.msg.domain, c.msg.snapshotId) == Some(c.codebookId), |c.scenarios|)
    && c.msg.eventId in t.processed && t.processed[c.msg.eventId] == Some(c.codebookId)
    && HasScenarios(t, c)
  }

  /** Each scenario of a commit has its own row under the commit's codebook. */
  ghost predicate HasScenarios(t: Tables, c: Commit) {
    forall i :: 0 <= i < |c.scenarios| ==>
      var id := ScenarioId(c.codebookId, c.scenarios[i].faultOriginObjectId);
      id in t.scenarios && t.scenarios[id] == ScenarioRow(c.codebookId, c.scenarios[i])
  }

  /** The scenario row of some commit. */
  ghost predicate IsScenarioOf(log: seq<Commit>, id: string, row: ScenarioRow) {
    exists c :: c in log && row.codebookId == c.codebookId && row.scenario in c.scenarios &&
                id == ScenarioId(c.codebookId, row.scenario.faultOriginObjectId)
  }

  function EventsOf(log: seq<Commit>): set<string> {
    if log == [] then {} else EventsOf(log[..|log|-1]) + {log[|log|-1].msg.eventId}
  }

  function CodebooksOf(log: seq<Commit>): set<string> {
    if log == [] then {} else CodebooksOf(log[..|log|-1]) + {log[|log|-1].codebookId}
  }

  lemma {:induction false} InLog(log: seq<Commit>)
    requires log != []
    ensures forall c :: c in log <==> c in log[..|log|-1] || c == log[|log|-1]
  {
    assert log == log[..|log|-1] + [log[|log|-1]];
  }

  lemma {:induction false} CommitOfEvent(log: seq<Commit>, eventId: string) returns (c: Commit)
    requires eventId in EventsOf(log)
    ensures c in log && c.msg.eventId == eventId
  {
    InLog(log);
    if log[|log|-1].msg.eventId == eventId { c := log[|log|-1]; }
    else { c := CommitOfEvent(log[..|log|-1], eventId); }
  }

  lemma {:induction false} CommitOfCodebook(log: seq<Commit>, id: string) returns (c: Commit)
    requires id in CodebooksOf(log)
    ensures c in log && c.codebookId == id
  {
    InLog(log);
    if log[|log|-1].codebookId == id { c := log[|log|-1]; }
    else { c := CommitOfCodebook(log[..|log|-1], id); }
  }

  lemma {:induction false} LastForIsLogged(log: seq<Commit>, domain: string, snapshotId: string)
    ensures LastFor(log, domain, snapshotId).None? <==>
              forall c :: c in log ==> c.msg.domain != domain || c.msg.snapshotId != snapshotId
    ensures LastFor(log, domain, snapshotId).Some? ==>
              exists c :: c in log && c.codebookId == LastFor(log, domain, snapshotId).value
                          && c.msg.domain == domain && c.msg.snapshotId == snapshotId
  {
    if log != [] {
      LastForIsLogged(log[..|log|-1], domain, snapshotId);
      InLog(log);
    }
  }

  /** The tables hold exactly the commits: a row for each and nothing else. */
  lemma {:induction false} ReplayHoldsCommits(log: seq<Commit>)
    requires Replay(log).Some?
    ensures forall c :: c in log ==> HasRow(Replay(log).value, log, c)
    ensures Replay(log).value.codebooks.Keys == CodebooksOf(log)
    ensures Replay(log).value.processed.Keys == EventsOf(log)
    ensures forall id :: id in Replay(log).value.scenarios ==>
              IsScenarioOf(log, id, Replay(log).value.scenarios[id])
  {
    if log != [] {
      hide ScenarioId, InsertScenarios, HasScenarios, ScenarioIds;
      var front, last := log[..|log|-1], log[|log|-1];
      ReplayHoldsCommits(front);
      InLog(log);
      forall c | c in log ensures HasRow(Replay(log).value, log, c) {
        CommitHasScenarios(Replay(front).value, last, c);
        if c in front { assert HasRow(Replay(front).value, front, c); }
      }
      forall id | id in Replay(log).value.scenarios ensures IsScenarioOf(log, id, Replay(log).value.scenarios[id]) {
        CommitScenario(Replay(front).value, last, front, log, id);
      }
    }
  }

  lemma CommitHasScenarios(t: Tables, last: Commit, c: Commit)
    requires Persist(t, last.codebookId, last.msg, last.scenarios).Some?
    ensures c == last || HasScenarios(t, c) ==>
              HasScenarios(Persist(t, last.codebookId, last.msg, last.scenarios).value, c)
  {
    hide Persist, ScenarioId;
    PersistStores(t, last.codebookId, last.msg, last.scenarios);
  }

  lemma CommitScenario(t: Tables, last: Commit, front: seq<Commit>, log: seq<Commit>, id: string)
    requires Persist(t, last.codebookId, last.msg, last.scenarios).Some?
    requires id in Persist(t, last.codebookId, last.msg, last.scenarios).value.scenarios
    requires forall c :: c in front || c == last ==> c in log
    requires id in t.scenarios ==> IsScenarioOf(front, id, t.scenarios[id])
    ensures IsScenarioOf(log, id, Persist(t, last.codebookId, last.msg, last.scenarios).value.scenarios[id])
  {
    hide Persist, ScenarioId;
    PersistStores(t, last.codebookId, last.msg, last.scenarios);
    var after := Persist(t, last.codebookId, last.msg, last.scenarios).value;
    if id !in t.scenarios {
      var ids := ScenarioIds(last.codebookId, last.scenarios);
      assert id in Elements(ids);
      var i :| 0 <= i < |ids| && ids[i] == id;
      assert last.scenarios[i] in last.scenarios &&
          after.scenarios[id] == ScenarioRow(last.codebookId, last.scenarios[i]);
    }
  }

  /** No event and no codebook is committed twice. */
  lemma {:induction false} CommitsAreDistinct(log: seq<Commit>, c: Commit, d: Commit)
    requires Replay(log).Some? && c in log && d in log
    requires c.msg.eventId == d.msg.eventId || c.codebookId == d.codebookId
    ensures c == d
  {
    var front, last := log[..|log|-1], log[|log|-1];
    InLog(log);
    ReplayHoldsCommits(front);
    if c in front && d in front {
      CommitsAreDistinct(front, c, d);
    } else {
      assert forall x :: x in front ==> HasRow(Replay(front).value, front, x);
    }
  }

  // ---- The invariant of every reachable world ----

  /** The codebook an emission names is stored for its event, with the same count and key. */
  ghost predicate Backed(t: Tables, e: Emission) {
    && e.eventId in t.processed && t.processed[e.eventId] == Some(e.codebookId)
    && e.codebookId in t.codebooks
    && t.codebooks[e.codebookId].scenarioCount == e.scenarioCount
    && t.codebooks[e.codebookId].domain == e.domain && t.codebooks[e.codebookId].snapshotId == e.snapshotId
  }

  ghost predicate WorkerOk(topic: set<Message>, t: Tables, w: Worker) {
    && (!w.Idle? ==> w.msg in topic)
    && (w.Duplicate? ==> w.msg.eventId in t.processed && t.processed[w.msg.eventId] == Some(w.codebookId))
    && (w.Emitting? ==> Backed(t, EmissionOf(w)))
  }

  ghost predicate Inv(topic: set<Message>, s: World) {
    && Replay(s.log) == Some(s.tables)
    && (forall c :: c in s.log ==> c.msg in topic)
    && (forall e :: e in s.emissions ==> Backed(s.tables, e))
    && (forall w :: w in s.workers ==> WorkerOk(topic, s.tables, s.workers[w]))
  }

  /** A commit changes no processed event and no count or key of a stored codebook. */
  lemma PersistKeepsBacking(t: Tables, codebookId: string, msg: Message, scenarios: seq<Scenario>)
    requires Persist(t, codebookId, msg, scenarios).Some?
    ensures var after := Persist(t, codebookId, msg, scenarios).value;
      && (forall e :: Backed(t, e) ==> Backed(after, e))
      && (forall e :: e in t.processed ==> e in after.processed && after.processed[e] == t.processed[e])
      && Backed(after, Emission(msg.eventId, msg.snapshotId, |scenarios|, codebookId, msg.domain))
  {
  }

  lemma InvStep(topic: set<Message>, s: World, t: World, w: nat, step: Step)
    requires Topic(topic) && Inv(topic, s) && Next(topic, s, t, w, step)
    ensures Inv(topic, t)
  {
    hide Persist, Replay;
    var worker := s.workers[w];
    match step
    case PersistStep(codebookId, scenarios) =>
      if Persist(s.tables, codebookId, worker.msg, scenarios).Some? {
        InvPersist(topic, s, t, w, codebookId, scenarios);
      }
    case ReadMeta =>
      DuplicateHasRow(topic, s, w);
    case _ =>
  }

  lemma InvPersist(topic: set<Message>, s: World, t: World, w: nat, codebookId: string, scenarios: seq<Scenario>)
    requires Inv(topic, s) && Next(topic, s, t, w, PersistStep(codebookId, scenarios))
    requires Persist(s.tables, codebookId, s.workers[w].msg, scenarios).Some?
    ensures Inv(topic, t)
  {
    PersistKeepsBacking(s.tables, codebookId, s.workers[w].msg, scenarios);
    assert t.log[..|t.log|-1] == s.log;
    assert Replay(t.log) == Some(t.tables);
    hide Persist, Replay;
    InLog(t.log);
    forall v | v in t.workers ensures WorkerOk(topic, t.tables, t.workers[v]) {
      if v != w { assert WorkerOk(topic, s.tables, s.workers[v]); }
    }
  }

  lemma DuplicateHasRow(topic: set<Message>, s: World, w: nat)
    requires Topic(topic) && Inv(topic, s) && w in s.workers && s.workers[w].Duplicate?
    ensures s.workers[w].codebookId in s.tables.codebooks
    ensures var worker := s.workers[w];
      Backed(s.tables, Emission(worker.msg.eventId, worker.msg.snapshotId,
                                s.tables.codebooks[worker.codebookId].scenarioCount, worker.codebookId,
                                    worker.msg.domain))
  {
    var worker := s.workers[w];
    ReplayHoldsCommits(s.log);
    var c := CommitOfEvent(s.log, worker.msg.eventId);
    assert HasRow(s.tables, s.log, c);
    assert WorkerOk(topic, s.tables, worker);
    assert c.msg == worker.msg;
  }

  /** Every world of every run satisfies the invariant. */
  lemma {:induction false} RunsAreSafe(topic: set<Message>, run: seq<World>, n: nat)
    requires Topic(topic) && IsRun(topic, run) && n < |run|
    ensures Inv(topic, run[n])
    decreases n
  {
    if n > 0 {
      RunsAreSafe(topic, run, n - 1);
      var w, step :| Next(topic, run[n-1], run[n], w, step);
      InvStep(topic, run[n-1], run[n], w, step);
    }
  }

  // ---- What the invariant means ----

  /** In every run the scenario table holds exactly the scenarios of the commits. */
  lemma ScenariosAreStored(topic: set<Message>, run: seq<World>, n: nat, id: string)
    requires Topic(topic) && IsRun(topic, run) && n < |run|
    ensures forall c :: c in run[n].log ==> HasScenarios(run[n].tables, c)
    ensures id in run[n].tables.scenarios ==> IsScenarioOf(run[n].log, id, run[n].tables.scenarios[id])
  {
    hide IsRun, Replay, HasScenarios, IsScenarioOf;
    RunsAreSafe(topic, run, n);
    ReplayHoldsCommits(run[n].log);
    forall c | c in run[n].log ensures HasScenarios(run[n].tables, c) {
      assert HasRow(run[n].tables, run[n].log, c);
    }
  }

  /** In every run an event has at most one codebook, and all its emissions name that codebook, with
      its stored scenario count and the key of the trigger. */
  lemma OneCodebookPerEvent(topic: set<Message>, run: seq<World>, n: nat, e: Emission, f: Emission, c: Commit)
    requires Topic(topic) && IsRun(topic, run) && n < |run|
    requires e in run[n].emissions && c in run[n].log && c.msg.eventId == e.eventId
    ensures forall d :: d in run[n].log && d.msg.eventId == e.eventId ==> d == c
    ensures e == Emission(c.msg.eventId, c.msg.snapshotId, |c.scenarios|, c.codebookId, c.msg.domain)
    ensures f in run[n].emissions && f.eventId == e.eventId ==> f == e
  {
    RunsAreSafe(topic, run, n);
    var s := run[n];
    ReplayHoldsCommits(s.log);
    assert HasRow(s.tables, s.log, c);
    assert Backed(s.tables, e);
    forall d | d in s.log && d.msg.eventId == e.eventId ensures d == c {
      CommitsAreDistinct(s.log, c, d);
    }
    if f in s.emissions && f.eventId == e.eventId { assert Backed(s.tables, f); }
  }

  lemma OnlyEmitEmits(topic: set<Message>, s: World, t: World, w: nat, step: Step)
    requires Next(topic, s, t, w, step) && t.emissions != s.emissions
    ensures s.workers[w].Emitting? && t.emissions == s.emissions + [EmissionOf(s.workers[w])]
  {
    hide Persist;
  }

  lemma BackedIsLogged(s: World, e: Emission) returns (c: Commit)
    requires Replay(s.log) == Some(s.tables) && Backed(s.tables, e)
    ensures c in s.log && c.codebookId == e.codebookId && c.msg.eventId == e.eventId
  {
    ReplayHoldsCommits(s.log);
    c := CommitOfEvent(s.log, e.eventId);
    assert HasRow(s.tables, s.log, c);
  }

  lemma StepEmits(topic: set<Message>, s: World, t: World) returns (c: Commit)
    requires Inv(topic, s) && SomeStep(topic, s, t) && t.emissions != s.emissions
    ensures |t.emissions| == |s.emissions| + 1 && s.emissions <= t.emissions
    ensures c in s.log && c.codebookId == t.emissions[|s.emissions|].codebookId
    ensures c.msg.eventId == t.emissions[|s.emissions|].eventId
  {
    hide Persist, Replay, Backed;
    var w, step :| Next(topic, s, t, w, step);
    OnlyEmitEmits(topic, s, t, w, step);
    assert WorkerOk(topic, s.tables, s.workers[w]);
    c := BackedIsLogged(s, EmissionOf(s.workers[w]));
  }

  /** Nothing is emitted before it is persisted: when an emission appears, the codebook it names was
      already committed for its event. */
  lemma EmittedAfterPersisted(topic: set<Message>, run: seq<World>, n: nat)
    requires Topic(topic) && IsRun(topic, run) && 0 < n < |run| && run[n].emissions != run[n-1].emissions
    ensures |run[n].emissions| == |run[n-1].emissions| + 1 && run[n-1].emissions <= run[n].emissions
    ensures var e := run[n].emissions[|run[n-1].emissions|];
      exists c :: c in run[n-1].log && c.codebookId == e.codebookId && c.msg.eventId == e.eventId
  {
    RunsAreSafe(topic, run, n - 1);
    hide Inv, SomeStep;
    var c := StepEmits(topic, run[n-1], run[n]);
  }

  /** Each (domain, snapshot) that has a codebook has exactly one active one: the last persisted. */
  lemma ExactlyOneActive(topic: set<Message>, run: seq<World>, n: nat, domain: string, snapshotId: string)
    requires Topic(topic) && IsRun(topic, run) && n < |run|
    ensures var books := run[n].tables.codebooks;
      && (LastFor(run[n].log, domain, snapshotId).Some? <==>
            exists id :: id in books && books[id].domain == domain && books[id].snapshotId == snapshotId)
      && (forall id :: IsActiveFor(books, id, domain, snapshotId) <==>
           LastFor(run[n].log, domain, snapshotId) == Some(id))
  {
    var s := run[n];
    RunsAreSafe(topic, run, n);
    ReplayHoldsCommits(s.log);
    LastForIsLogged(s.log, domain, snapshotId);
    forall id | id in s.tables.codebooks && s.tables.codebooks[id].domain == domain &&
        s.tables.codebooks[id].snapshotId == snapshotId
      ensures LastFor(s.log, domain, snapshotId).Some?
      ensures s.tables.codebooks[id].active <==> LastFor(s.log, domain, snapshotId) == Some(id)
    {
      var c := CommitOfCodebook(s.log, id);
      assert HasRow(s.tables, s.log, c);
    }
    if LastFor(s.log, domain, snapshotId).Some? {
      var c :| c in s.log && c.codebookId == LastFor(s.log, domain, snapshotId).value
               && c.msg.domain == domain && c.msg.snapshotId == snapshotId;
      assert HasRow(s.tables, s.log, c);
    }
  }

  /** A crash between persist and emit is healed by redelivery: an idle worker that takes the message
      again, undisturbed, emits the stored codebook and commits nothing. */
  lemma RedeliveryReemits(topic: set<Message>, run: seq<World>, n: nat, w: nat, c: Commit)
    returns (s1: World, s2: World, s3: World, s4: World)
    requires Topic(topic) && IsRun(topic, run) && n < |run|
    requires c in run[n].log && w in run[n].workers && run[n].workers[w].Idle? && c.codebookId != ""
    ensures Next(topic, run[n], s1, w, Deliver(c.msg)) && Next(topic, s1, s2, w, Check)
    ensures Next(topic, s2, s3, w, ReadMeta) && Next(topic, s3, s4, w, Emit)
    ensures s4 == run[n].(emissions := run[n].emissions +
              [Emission(c.msg.eventId, c.msg.snapshotId, |c.scenarios|, c.codebookId, c.msg.domain)])
  {
    RunsAreSafe(topic, run, n);
    ReplayHoldsCommits(run[n].log);
    s1, s2, s3, s4 := UndisturbedRedelivery(topic, run[n], w, c);
  }

  lemma UndisturbedRedelivery(topic: set<Message>, s: World, w: nat, c: Commit)
    returns (s1: World, s2: World, s3: World, s4: World)
    requires c.msg in topic && HasRow(s.tables, s.log, c)
    requires w in s.workers && s.workers[w].Idle? && c.codebookId != ""
    ensures Next(topic, s, s1, w, Deliver(c.msg)) && Next(topic, s1, s2, w, Check)
    ensures Next(topic, s2, s3, w, ReadMeta) && Next(topic, s3, s4, w, Emit)
    ensures s4 == s.(emissions := s.emissions +
              [Emission(c.msg.eventId, c.msg.snapshotId, |c.scenarios|, c.codebookId, c.msg.domain)])
  {
    hide LastFor, Persist;
    s1 := s.(workers := s.workers[w := Received(c.msg)]);
    s2 := s.(workers := s1.workers[w := Duplicate(c.msg, c.codebookId)]);
    s3 := s.(workers := s2.workers[w := Emitting(c.msg, c.codebookId, |c.scenarios|)]);
    s4 := s.(emissions := s.emissions + [EmissionOf(s3.workers[w])]);
    assert s3.workers[w := Idle] == s.workers;
  }

  /** An undisturbed first delivery is a run too: what one call of `handle` does to the store and the
      topic when nothing interleaves. */
  lemma UndisturbedCompile(topic: set<Message>, s: World, w: nat, msg: Message, codebookId: string,
                           scenarios: seq<Scenario>)
    returns (s1: World, s2: World, s3: World, s4: World)
    requires msg in topic && w in s.workers && s.workers[w].Idle? && codebookId != ""
    requires Persist(s.tables, codebookId, msg, scenarios).Some?
    ensures Next(topic, s, s1, w, Deliver(msg)) && Next(topic, s1, s2, w, Check)
    ensures Next(topic, s2, s3, w, PersistStep(codebookId, scenarios)) && Next(topic, s3, s4, w, Emit)
    ensures s4.tables == Persist(s.tables, codebookId, msg, scenarios).value && s4.workers == s.workers
    ensures s4.emissions == s.emissions + [Emission(msg.eventId, msg.snapshotId, |scenarios|, codebookId, msg.domain)]
  {
    var after := Persist(s.tables, codebookId, msg, scenarios).value;
    assert msg.eventId !in s.tables.processed;
    hide Persist;
    s1 := s.(workers := s.workers[w := Received(msg)]);
    s2 := s.(workers := s1.workers[w := Unprocessed(msg)]);
    s3 := s2.(tables := after, workers := s2.workers[w := Emitting(msg, codebookId, |scenarios|)],
              log := s.log + [Commit(msg, codebookId, scenarios)]);
    s4 := s3.(workers := s3.workers[w := Idle], emissions := s.emissions + [EmissionOf(s3.workers[w])]);
    assert s4.workers == s.workers;
  }

  /** Two consumers that both passed the duplicate check: whichever commits second aborts. */
  lemma SecondCommitAborts(topic: set<Message>, s: World, t: World, v: nat, w: nat, id: string, batch: seq<Scenario>,
                           step: Step)
    requires Inv(topic, s) && v != w && w in s.workers && s.workers[w].Unprocessed?
    requires Next(topic, s, t, v, PersistStep(id, batch)) && s.workers[v].msg == s.workers[w].msg
    requires t.log != s.log
    ensures forall other, scenarios, u :: Next(topic, t, u, w, PersistStep(other, scenarios)) ==>
              u.tables == t.tables && u.log == t.log && u.workers[w].Idle?
  {
  }
}
