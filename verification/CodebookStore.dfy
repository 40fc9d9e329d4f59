/** The codebook store and the sequential compile cycle (store.py, pipeline.py, consumer.py). */
module CodebookStore {
  import opened Common
  import ManagedObjectIds
  import opened Reachability
  import opened Propagation
  import opened Scenarios

  datatype CodebookRow = CodebookRow(snapshotId: string, domain: string, active: bool, scenarioCount: nat)

  datatype ScenarioRow = ScenarioRow(codebookId: string, scenario: Scenario)

  /** The three tables by primary key; a processed event may have produced no codebook. */
  datatype Tables = Tables(
    codebooks: map<string, CodebookRow>,
    scenarios: map<string, ScenarioRow>,
    processed: map<string, Option<string>>)

  datatype Message = Message(eventId: string, snapshotId: string, domain: string)

  /** A `codebook.generated` event, with the id of the trigger it answers. */
  datatype Emission = Emission(eventId: string, snapshotId: string, scenarioCount: nat, codebookId: string,
                               domain: string)

  function ScenarioId(codebookId: string, originId: string): string {
    codebookId + ":" + originId
  }

  lemma ScenarioIdInjective(codebookId: string, a: string, b: string)
    requires ScenarioId(codebookId, a) == ScenarioId(codebookId, b)
    ensures a == b
  {
    var k := |codebookId| + 1;
    assert ScenarioId(codebookId, a)[k..] == a && ScenarioId(codebookId, b)[k..] == b;
  }

  /** Codebook ids without a colon keep their scenarios' keys apart. */
  lemma CodebooksSeparate(c: string, a: string, d: string, b: string)
    requires ':' !in c && ':' !in d && ScenarioId(c, a) == ScenarioId(d, b)
    ensures c == d && a == b
  {
    assert ScenarioId(c, a) == c + [':'] + a && ScenarioId(d, b) == d + [':'] + b;
    ManagedObjectIds.HeadsAgree(c, a, d, b, ':');
    ScenarioIdInjective(c, a, b);
  }

  // ---- The persist transaction ----

  function Demote(codebooks: map<string, CodebookRow>, domain: string, snapshotId: string): map<string, CodebookRow> {
    map id | id in codebooks ::
      if codebooks[id].domain == domain && codebooks[id].snapshotId == snapshotId
      then codebooks[id].(active := false) else codebooks[id]
  }

  /** The scenario rows inserted one by one, or None on a primary-key conflict. */
  function InsertScenarios(rows: map<string, ScenarioRow>, codebookId: string,
                           scenarios: seq<Scenario>): Option<map<string, ScenarioRow>> {
    if scenarios == [] then Some(rows)
    else
      var last := scenarios[|scenarios|-1];
      var prior := InsertScenarios(rows, codebookId, scenarios[..|scenarios|-1]);
      var id := ScenarioId(codebookId, last.faultOriginObjectId);
      if prior.None? || id in prior.value then None
      else Some(prior.value[id := ScenarioRow(codebookId, last)])
  }

  /** The committed tables, or None when the transaction aborts on a key conflict. */
  function Persist(t: Tables, codebookId: string, msg: Message, scenarios: seq<Scenario>): Option<Tables> {
    var rows := InsertScenarios(t.scenarios, codebookId, scenarios);
    if codebookId in t.codebooks || rows.None? || msg.eventId in t.processed then None
    else Some(Tables(
      Demote(t.codebooks, msg.domain, msg.snapshotId)[codebookId :=
          CodebookRow(msg.snapshotId, msg.domain, true, |scenarios|)],
      rows.value,
      t.processed[msg.eventId := Some(codebookId)]))
  }

  /** What a commit leaves: one row for the codebook, one for the event, and one for each of its
      scenarios; every other scenario row is as it was. */
  ghost predicate Stores(before: Tables, after: Tables, codebookId: string, msg: Message, batch: seq<Scenario>) {
    && codebookId in after.codebooks
    && after.codebooks[codebookId] == CodebookRow(msg.snapshotId, msg.domain, true, |batch|)
    && msg.eventId in after.processed && after.processed[msg.eventId] == Some(codebookId)
    && after.scenarios.Keys == before.scenarios.Keys + Elements(ScenarioIds(codebookId, batch))
    && (forall i :: 0 <= i < |batch| ==>
          var id := ScenarioId(codebookId, batch[i].faultOriginObjectId);
          id in after.scenarios && after.scenarios[id] == ScenarioRow(codebookId, batch[i]))
    && (forall id :: id in before.scenarios ==> id in after.scenarios && after.scenarios[id] == before.scenarios[id])
  }

  lemma PersistStores(t: Tables, codebookId: string, msg: Message, batch: seq<Scenario>)
    requires Persist(t, codebookId, msg, batch).Some?
    ensures Stores(t, Persist(t, codebookId, msg, batch).value, codebookId, msg, batch)
  {
    hide ScenarioId, InsertScenarios, Demote;
    InsertsExactly(t.scenarios, codebookId, batch);
    var ids, after := ScenarioIds(codebookId, batch), Persist(t, codebookId, msg, batch).value;
    forall i | 0 <= i < |batch|
      ensures var id := ScenarioId(codebookId, batch[i].faultOriginObjectId);
              id in after.scenarios && after.scenarios[id] == ScenarioRow(codebookId, batch[i])
    {
      assert ids[i] == ScenarioId(codebookId, batch[i].faultOriginObjectId);
    }
  }

  function ScenarioIds(codebookId: string, scenarios: seq<Scenario>): seq<string> {
    seq(|scenarios|, i requires 0 <= i < |scenarios| => ScenarioId(codebookId, scenarios[i].faultOriginObjectId))
  }

  lemma IdsDistinctExactly(codebookId: string, scenarios: seq<Scenario>)
    ensures NoDuplicates(ScenarioIds(codebookId, scenarios)) <==>
              forall i, j ::
                  0 <= i < j < |scenarios| ==> scenarios[i].faultOriginObjectId != scenarios[j].faultOriginObjectId
  {
    var ids := ScenarioIds(codebookId, scenarios);
    forall i, j | 0 <= i < j < |scenarios|
      ensures ids[i] == ids[j] <==> scenarios[i].faultOriginObjectId == scenarios[j].faultOriginObjectId
    {
      if ids[i] == ids[j] {
        ScenarioIdInjective(codebookId, scenarios[i].faultOriginObjectId, scenarios[j].faultOriginObjectId);
      }
    }
  }

  /** A scenario batch inserts exactly when its keys are distinct (that is, its origins are) and none
      is taken; every scenario then has its row and no other row changes. */
  lemma {:induction false} InsertsExactly(rows: map<string, ScenarioRow>, codebookId: string, scenarios: seq<Scenario>)
    ensures var ids := ScenarioIds(codebookId, scenarios);
      InsertScenarios(rows, codebookId, scenarios).Some? <==> NoDuplicates(ids) && Elements(ids) !! rows.Keys
    ensures InsertScenarios(rows, codebookId, scenarios).Some? ==>
              var ids, after := ScenarioIds(codebookId, scenarios), InsertScenarios(rows, codebookId, scenarios).value;
              && after.Keys == rows.Keys + Elements(ids)
              && (forall id :: id in rows ==> after[id] == rows[id])
              && (forall i ::
                   0 <= i < |ids| ==> ids[i] in after && after[ids[i]] == ScenarioRow(codebookId, scenarios[i]))
  {
    if scenarios != [] {
      hide ScenarioId, NoDuplicates;
      var front, last := scenarios[..|scenarios|-1], scenarios[|scenarios|-1];
      var ids, prior := ScenarioIds(codebookId, scenarios), ScenarioIds(codebookId, front);
      InsertsExactly(rows, codebookId, front);
      assert ids == prior + [ScenarioId(codebookId, last.faultOriginObjectId)];
      ElementsAppend(prior, ids[|ids|-1]);
      NoDuplicatesAppend(prior, ids[|ids|-1]);
    }
  }

  predicate IsActiveFor(codebooks: map<string, CodebookRow>, id: string, domain: string, snapshotId: string) {
    id in codebooks && codebooks[id].active && codebooks[id].domain == domain && codebooks[id].snapshotId == snapshotId
  }

  /** The partial unique index: at most one active codebook per (domain, snapshot). */
  ghost predicate OneActive(codebooks: map<string, CodebookRow>) {
    forall a, b ::
      a in codebooks && b in codebooks && codebooks[a].active && codebooks[b].active
      && codebooks[a].domain == codebooks[b].domain && codebooks[a].snapshotId == codebooks[b].snapshotId ==>
        a == b
  }

  class CodebookStore {
    var codebooks: map<string, CodebookRow>
    var scenarios: map<string, ScenarioRow>
    var processed: map<string, Option<string>>

    function View(): Tables
      reads this
    {
      Tables(codebooks, scenarios, processed)
    }

    constructor ()
      ensures View() == Tables(map[], map[], map[])
    {
      codebooks, scenarios, processed := map[], map[], map[];
    }

    /** None: not processed; Some("") : processed without a codebook. */
    method AlreadyProcessed(eventId: string) returns (r: Option<string>)
      ensures r.None? <==> eventId !in processed
      ensures r.Some? ==> r.value == if processed[eventId].Some? then processed[eventId].value else ""
    {
      if eventId !in processed { return None; }
      r := Some(if processed[eventId].Some? then processed[eventId].value else "");
    }

    /** Demote, insert, record, in one transaction: on a key conflict everything is rolled back. */
    method PersistCodebook(codebookId: string, msg: Message, batch: seq<Scenario>) returns (ok: bool)
      modifies this
      ensures ok <==> Persist(old(View()), codebookId, msg, batch).Some?
      ensures View() == if ok then Persist(old(View()), codebookId, msg, batch).value else old(View())
      ensures ok ==> Stores(old(View()), View(), codebookId, msg, batch)
      ensures old(OneActive(codebooks)) ==> OneActive(codebooks)
    {
      hide Stores, ScenarioIds;
      var begin := View();
      codebooks := Demote(codebooks, msg.domain, msg.snapshotId);
      if codebookId in codebooks { Rollback(begin); return false; }
      codebooks := codebooks[codebookId := CodebookRow(msg.snapshotId, msg.domain, true, |batch|)];
      for i := 0 to |batch|
        invariant InsertScenarios(begin.scenarios, codebookId, batch[..i]) == Some(scenarios)
        invariant codebooks ==
          Demote(begin.codebooks, msg.domain, msg.snapshotId)[codebookId :=
              CodebookRow(msg.snapshotId, msg.domain, true, |batch|)]
        invariant processed == begin.processed
      {
        var id := ScenarioId(codebookId, batch[i].faultOriginObjectId);
        assert batch[..i+1][..i] == batch[..i];
        if id in scenarios {
          ConflictStays(begin.scenarios, codebookId, batch, i + 1);
          Rollback(begin);
          return false;
        }
        scenarios := scenarios[id := ScenarioRow(codebookId, batch[i])];
      }
      assert batch[..|batch|] == batch;
      if msg.eventId in processed { Rollback(begin); return false; }
      processed := processed[msg.eventId := Some(codebookId)];
      PersistStores(begin, codebookId, msg, batch);
      ok := true;
    }

    method Rollback(begin: Tables)
      modifies this
      ensures View() == begin
    {
      codebooks, scenarios, processed := begin.codebooks, begin.scenarios, begin.processed;
    }

    method RecordProcessedNoCodebook(eventId: string) returns (ok: bool)
      modifies this`processed
      ensures ok <==> eventId !in old(processed)
      ensures processed == if ok then old(processed)[eventId := None] else old(processed)
    {
      ok := eventId !in processed;
      if ok { processed := processed[eventId := None]; }
    }

    method GetActive(domain: string, snapshotId: string) returns (id: Option<string>)
      ensures id.Some? ==> IsActiveFor(codebooks, id.value, domain, snapshotId)
      ensures id.None? ==> forall c :: !IsActiveFor(codebooks, c, domain, snapshotId)
    {
      var rows := set c | c in codebooks && IsActiveFor(codebooks, c, domain, snapshotId);
      if rows == {} {
        assert forall c :: IsActiveFor(codebooks, c, domain, snapshotId) ==> c in rows;
        return None;
      }
      var c :| c in rows;
      id := Some(c);
    }
  }

  lemma {:induction false} ConflictStays(rows: map<string, ScenarioRow>, codebookId: string, batch: seq<Scenario>,
                                         n: nat)
    requires n <= |batch| && InsertScenarios(rows, codebookId, batch[..n]).None?
    ensures InsertScenarios(rows, codebookId, batch).None?
    decreases |batch| - n
  {
    if n == |batch| {
      assert batch[..n] == batch;
    } else {
      assert batch[..n+1][..n] == batch[..n];
      ConflictStays(rows, codebookId, batch, n + 1);
    }
  }

  // ---- One compile cycle, without interleaving ----

  /** What the collaborators return: inputs and vocabulary, or an integration error. */
  datatype Fetched = Fetched(inputs: Inputs, vocabulary: set<string>) | Unavailable

  /** What `compile` returns or raises: an integration or vocabulary error, or an error nobody handles. */
  datatype Outcome =
    | Compiled(codebookId: string, scenarioCount: nat, deduped: bool)
    | Failed
    | Crashed

  class Pipeline {
    const store: CodebookStore
    var emitted: seq<Emission>

    constructor (store: CodebookStore)
      ensures this.store == store && emitted == []
    {
      this.store := store;
      emitted := [];
    }

    /** One compile. A duplicate changes no row and emits the recorded codebook, if there is one, again;
        errors leave no trace in the store, so a later delivery compiles again; a missing origin alarm
        or a key conflict crashes the consumer. Every call that returns emits exactly once, unless the
        event was processed without a codebook. */
    method Compile(msg: Message, fetched: Fetched, freshId: string) returns (r: Outcome)
      modifies this, store
      ensures msg.eventId in old(store.processed) <==> r.Compiled? && r.deduped
      ensures r.Compiled? && r.deduped ==>
                && store.View() == old(store.View())
                && r.codebookId == CodebookFor(old(store.View()), msg.eventId)
                && r.scenarioCount == CountOf(store.View(), r.codebookId)
      ensures r.Compiled? && !r.deduped ==>
                && fetched.Fetched? && r.codebookId == freshId
                && exists batch: seq<Scenario> ::
                     && IsCompiledBatch(fetched, batch) && r.scenarioCount == |batch|
                     && Persist(old(store.View()), freshId, msg, batch) == Some(store.View())
                     && Stores(old(store.View()), store.View(), freshId, msg, batch)
      ensures !r.Compiled? ==> store.View() == old(store.View())
      ensures emitted == old(emitted) +
                if r.Compiled? && !(r.deduped && r.codebookId == "")
                then [Emission(msg.eventId, msg.snapshotId, r.scenarioCount, r.codebookId, msg.domain)] else []
      ensures r.Failed? <==> Fails(old(store.View()), msg, fetched)
      ensures r.Compiled? <==> Compiles(old(store.View()), msg, fetched, freshId)
    {
      hide CompiledFor, AllAlarmed, AllKnown, KeysFree;
      var prior := store.AlreadyProcessed(msg.eventId);
      if prior.Some? {
        if prior.value == "" { return Compiled("", CountOf(store.View(), ""), true); }
        var count := CountOf(store.View(), prior.value);
        emitted := emitted + [Emission(msg.eventId, msg.snapshotId, count, prior.value, msg.domain)];
        return Compiled(prior.value, count, true);
      }
      if fetched.Unavailable? { return Failed; }
      var scenarios := BuildScenarios(fetched.inputs);
      AlarmedExactly(fetched.inputs);
      if scenarios.Err? { return Crashed; }
      KnownExactly(fetched, scenarios.value);
      PersistsExactly(store.View(), freshId, msg, fetched.inputs, scenarios.value);
      if ValidateScenarios(scenarios.value, fetched.vocabulary).Err? { return Failed; }
      var ok := store.PersistCodebook(freshId, msg, scenarios.value);
      if !ok { return Crashed; }
      emitted := emitted + [Emission(msg.eventId, msg.snapshotId, |scenarios.value|, freshId, msg.domain)];
      r := Compiled(freshId, |scenarios.value|, false);
    }
  }

  /** The codebook recorded for an event, or the empty string. */
  function CodebookFor(t: Tables, eventId: string): string {
    if eventId in t.processed && t.processed[eventId].Some? then t.processed[eventId].value else ""
  }

  function CountOf(t: Tables, codebookId: string): nat {
    if codebookId != "" && codebookId in t.codebooks then t.codebooks[codebookId].scenarioCount else 0
  }

  /** A committed codebook is the one recorded for its event, with its number of scenarios: so a duplicate
      emits what the first delivery emitted. */
  lemma RecordedIsFound(t: Tables, codebookId: string, msg: Message, batch: seq<Scenario>)
    requires codebookId != "" && Persist(t, codebookId, msg, batch).Some?
    ensures var after := Persist(t, codebookId, msg, batch).value;
            CodebookFor(after, msg.eventId) == codebookId && CountOf(after, codebookId) == |batch|
  {
    PersistStores(t, codebookId, msg, batch);
  }

  lemma NothingIsFound(t: Tables, eventId: string)
    ensures eventId !in t.processed || t.processed[eventId].None? ==> CodebookFor(t, eventId) == ""
  {
  }

  /** One compiled scenario for each origin, all tokens known. */
  ghost predicate IsCompiledBatch(fetched: Fetched, batch: seq<Scenario>)
    requires fetched.Fetched?
  {
    && IsBatch(fetched.inputs, batch)
    && (forall c: Scenario, s :: c in batch && s in c.predictedSymptoms ==> s.alarmType in fetched.vocabulary)
  }

  // ---- When a message compiles ----

  /** Every listed origin's type has an alarm. */
  ghost predicate AllAlarmed(inputs: Inputs) {
    forall n :: n in Origins(inputs, inputs.types) ==> OriginAlarmType(n.objectType, inputs.types).Ok?
  }

  /** Every predicted symptom of every listed origin has a known token. */
  ghost predicate AllKnown(inputs: Inputs, vocabulary: set<string>) {
    forall n, q :: n in Origins(inputs, inputs.types) && Predicts(inputs, n, q) ==> q.alarmType in vocabulary
  }

  /** No origin is listed twice, and the codebook's and its scenarios' keys are free. */
  ghost predicate KeysFree(t: Tables, codebookId: string, origins: seq<NodeDto>) {
    && (forall i, j :: 0 <= i < j < |origins| ==> origins[i].managedObjectId != origins[j].managedObjectId)
    && codebookId !in t.codebooks
    && (forall n :: n in origins ==> ScenarioId(codebookId, n.managedObjectId) !in t.scenarios)
  }

  /** The errors that are handled: unavailable inputs, or an unknown token although all origins have alarms. */
  ghost predicate Fails(t: Tables, msg: Message, fetched: Fetched) {
    && msg.eventId !in t.processed
    && (fetched.Fetched? ==> AllAlarmed(fetched.inputs) && !AllKnown(fetched.inputs, fetched.vocabulary))
  }

  /** What neither compiles nor fails crashes the consumer. */
  ghost predicate Compiles(t: Tables, msg: Message, fetched: Fetched, freshId: string) {
    || msg.eventId in t.processed
    || (&& fetched.Fetched? && AllAlarmed(fetched.inputs) && AllKnown(fetched.inputs, fetched.vocabulary)
        && KeysFree(t, freshId, Origins(fetched.inputs, fetched.inputs.types)))
  }

  lemma AlarmedExactly(inputs: Inputs)
    ensures AllAlarmed(inputs) <==>
      forall n :: n in Origins(inputs, inputs.types) ==> OriginAlarmType(n.objectType, inputs.types).Ok?
  {
  }

  /** One scenario for each listed origin. */
  ghost predicate IsBatch(inputs: Inputs, batch: seq<Scenario>) {
    var origins := Origins(inputs, inputs.types);
    |batch| == |origins| && forall i :: 0 <= i < |batch| ==> CompiledFor(inputs, origins[i], batch[i])
  }

  /** Validation passes exactly when what the inputs predict is known. */
  lemma KnownExactly(fetched: Fetched, batch: seq<Scenario>)
    requires fetched.Fetched? && IsBatch(fetched.inputs, batch)
    ensures ValidateScenarios(batch, fetched.vocabulary).Ok? <==> AllKnown(fetched.inputs, fetched.vocabulary)
    ensures ValidateScenarios(batch, fetched.vocabulary).Ok? <==> IsCompiledBatch(fetched, batch)
  {
    hide CompiledFor, Predicts, ValidateScenarios, Origins;
    var inputs, vocabulary := fetched.inputs, fetched.vocabulary;
    var origins := Origins(inputs, inputs.types);
    ValidExactly(batch, vocabulary);
    forall i, q | 0 <= i < |batch| ensures q in batch[i].predictedSymptoms <==> Predicts(inputs, origins[i], q) {
      CompiledPredicts(inputs, origins[i], batch[i], q);
    }
    if AllKnown(inputs, vocabulary) {
      forall c: Scenario, s | c in batch && s in c.predictedSymptoms ensures s.alarmType in vocabulary {
        var i :| 0 <= i < |batch| && batch[i] == c;
        assert origins[i] in origins && Predicts(inputs, origins[i], s);
      }
    }
    if forall c: Scenario, s :: c in batch && s in c.predictedSymptoms ==> s.alarmType in vocabulary {
      forall n, q | n in origins && Predicts(inputs, n, q) ensures q.alarmType in vocabulary {
        var i :| 0 <= i < |origins| && origins[i] == n;
        assert batch[i] in batch && q in batch[i].predictedSymptoms;
      }
    }
  }

  lemma CompiledForOrigin(inputs: Inputs, node: NodeDto, c: Scenario)
    requires CompiledFor(inputs, node, c)
    ensures c.faultOriginObjectId == node.managedObjectId
  {
  }

  /** The batch persists exactly when the event is new and the keys are free. */
  lemma PersistsExactly(t: Tables, codebookId: string, msg: Message, inputs: Inputs, batch: seq<Scenario>)
    requires IsBatch(inputs, batch)
    ensures Persist(t, codebookId, msg, batch).Some? <==>
      msg.eventId !in t.processed && KeysFree(t, codebookId, Origins(inputs, inputs.types))
  {
    hide ScenarioId, InsertScenarios, Origins, NoDuplicates, CompiledFor, Demote;
    var origins, ids := Origins(inputs, inputs.types), ScenarioIds(codebookId, batch);
    forall i | 0 <= i < |batch| ensures batch[i].faultOriginObjectId == origins[i].managedObjectId {
      CompiledForOrigin(inputs, origins[i], batch[i]);
    }
    InsertsExactly(t.scenarios, codebookId, batch);
    IdsDistinctExactly(codebookId, batch);
    if Elements(ids) !! t.scenarios.Keys {
      forall n | n in origins ensures ScenarioId(codebookId, n.managedObjectId) !in t.scenarios {
        var i :| 0 <= i < |origins| && origins[i] == n;
        assert ids[i] in Elements(ids);
      }
    }
    if forall n :: n in origins ==> ScenarioId(codebookId, n.managedObjectId) !in t.scenarios {
      forall id | id in Elements(ids) ensures id !in t.scenarios {
        var i :| 0 <= i < |ids| && ids[i] == id;
        assert origins[i] in origins;
      }
    }
  }

  /** An origin that is listed twice keeps its event from ever compiling: its two scenarios have one key,
      whatever is stored and whatever codebook id is drawn. */
  lemma RepeatedOriginNeverCompiles(fetched: Fetched, i: nat, j: nat, t: Tables, msg: Message, freshId: string)
    requires fetched.Fetched? && i < j < |Origins(fetched.inputs, fetched.inputs.types)|
    requires var origins := Origins(fetched.inputs, fetched.inputs.types);
             origins[i].managedObjectId == origins[j].managedObjectId
    ensures Compiles(t, msg, fetched, freshId) <==> msg.eventId in t.processed
  {
    hide Origins;
  }

  /** A fault-origin type that is given twice: one node with an alarm and nothing to propagate. */
  function TwiceGiven(node: NodeDto, alarm: string): Inputs {
    var given := FaultOriginType(node.objectType, Some(alarm));
    Inputs([given, given], [], _ => [node], _ => Traversal([], []), _ => [])
  }

  /** Its tokens are all known, and every delivery of it crashes the consumer. */
  lemma TwiceGivenAlwaysCrashes(node: NodeDto, alarm: string, t: Tables, msg: Message, freshId: string)
    requires alarm != "" && msg.eventId !in t.processed
    ensures var fetched := Fetched(TwiceGiven(node, alarm), {alarm});
            !Fails(t, msg, fetched) && !Compiles(t, msg, fetched, freshId)
  {
    hide Predicts, OriginAlarmType;
    var inputs := TwiceGiven(node, alarm);
    OriginsOfTwo(inputs);
    assert Origins(inputs, inputs.types) == [node, node];
    RepeatedOriginNeverCompiles(Fetched(inputs, {alarm}), 0, 1, t, msg, freshId);
    forall q | Predicts(inputs, node, q) ensures q.alarmType == alarm {
      NothingPropagates(node, alarm, q);
    }
  }

  lemma OriginsOfTwo(inputs: Inputs)
    requires |inputs.types| == 2
    ensures Origins(inputs, inputs.types) ==
      inputs.listByType(inputs.types[0].objectType) + inputs.listByType(inputs.types[1].objectType)
  {
    assert inputs.types[..1][..0] == [] && Origins(inputs, []) == [];
    assert Origins(inputs, inputs.types[..1]) == [] + inputs.listByType(inputs.types[0].objectType);
  }

  lemma NothingPropagates(node: NodeDto, alarm: string, q: Symptom)
    requires alarm != "" && Predicts(TwiceGiven(node, alarm), node, q)
    ensures q == Symptom(alarm, node.managedObjectId)
  {
    var inputs, own := TwiceGiven(node, alarm), Symptom(alarm, node.managedObjectId);
    ReachesStaysInside(Cascading(inputs, node), own, q, {own});
  }

  // ---- The handler of one raw delivery ----

  /** A raw message: it does not decode, or it has a type, an event id and perhaps a snapshot and a domain. */
  datatype Delivery =
    | Undecodable
    | Decoded(eventType: string, eventId: string, snapshotId: Option<string>, domain: Option<string>)

  function ResolveDomain(domain: Option<string>, defaultDomain: string): string {
    if domain.Some? && !IsBlank(domain.value) then domain.value else defaultDomain
  }

  /** The trigger a delivery carries, or None when it can only be dead-lettered. */
  function TriggerOf(raw: Delivery, defaultDomain: string): Option<Message> {
    if raw.Undecodable? || raw.eventType != "TrailsBuiltEvent" || raw.snapshotId.None? || raw.snapshotId.value == ""
        then None
    else Some(Message(raw.eventId, raw.snapshotId.value, ResolveDomain(raw.domain, defaultDomain)))
  }

  /** A trigger is a decoded event of the right type that names a snapshot; its domain is its own unless
      that is blank. */
  lemma TriggerExactly(raw: Delivery, defaultDomain: string, msg: Message)
    ensures TriggerOf(raw, defaultDomain) == Some(msg) <==>
      && raw.Decoded? && raw.eventType == "TrailsBuiltEvent" && raw.eventId == msg.eventId
      && msg.snapshotId != "" && raw.snapshotId == Some(msg.snapshotId)
      && (|| (raw.domain == Some(msg.domain) && !IsBlank(msg.domain))
          || (msg.domain == defaultDomain && (raw.domain.None? || IsBlank(raw.domain.value))))
  {
  }

  class TrailsBuiltHandler {
    const pipeline: Pipeline
    const defaultDomain: string
    var deadLetters: seq<Delivery>

    constructor (pipeline: Pipeline, defaultDomain: string)
      ensures this.pipeline == pipeline && this.defaultDomain == defaultDomain && deadLetters == []
    {
      this.pipeline := pipeline;
      this.defaultDomain := defaultDomain;
      deadLetters := [];
    }

    /** None when the message went to the dead-letter topic. That is where every message without a usable
        trigger and every failed compile goes, leaving the store and the topic alone; a crash leaves the
        message to be delivered again. */
    method Handle(raw: Delivery, fetched: Fetched, freshId: string) returns (r: Option<Outcome>)
      modifies this, pipeline, pipeline.store
      ensures deadLetters == old(deadLetters) + if r.None? then [raw] else []
      ensures r.None? ==>
        pipeline.store.View() == old(pipeline.store.View()) && pipeline.emitted == old(pipeline.emitted)
      ensures r.None? <==> TriggerOf(raw, defaultDomain).None? ||
                             Fails(old(pipeline.store.View()), TriggerOf(raw, defaultDomain).value, fetched)
      ensures r.Some? ==>
                (r.value.Compiled? <==>
                   Compiles(old(pipeline.store.View()), TriggerOf(raw, defaultDomain).value, fetched, freshId))
      ensures r.Some? ==>
                && !r.value.Failed? && TriggerOf(raw, defaultDomain).Some?
                && var msg := TriggerOf(raw, defaultDomain).value;
                && (msg.eventId in old(pipeline.store.processed) <==> r.value.Compiled? && r.value.deduped)
                && pipeline.emitted == old(pipeline.emitted) +
                     if r.value.Compiled? && !(r.value.deduped && r.value.codebookId == "")
                     then [Emission(msg.eventId, msg.snapshotId, r.value.scenarioCount, r.value.codebookId, msg.domain)]
                         else []
      ensures r.Some? && r.value.Compiled? && r.value.deduped ==>
                && pipeline.store.View() == old(pipeline.store.View())
                && r.value.codebookId ==
                     CodebookFor(old(pipeline.store.View()), TriggerOf(raw, defaultDomain).value.eventId)
                && r.value.scenarioCount == CountOf(pipeline.store.View(), r.value.codebookId)
      ensures r.Some? && r.value.Compiled? && !r.value.deduped ==>
                && fetched.Fetched? && r.value.codebookId == freshId
                && exists batch: seq<Scenario> ::
                     && IsCompiledBatch(fetched, batch) && r.value.scenarioCount == |batch|
                     && Persist(old(pipeline.store.View()), freshId, TriggerOf(raw, defaultDomain).value, batch)
                          == Some(pipeline.store.View())
      ensures r == Some(Crashed) ==> pipeline.store.View() == old(pipeline.store.View())
    {
      hide IsCompiledBatch, Persist, Fails, Compiles;
      if raw.Undecodable? || raw.eventType != "TrailsBuiltEvent" || raw.snapshotId.None? || raw.snapshotId.value == "" {
        deadLetters := deadLetters + [raw];
        return None;
      }
      var msg := Message(raw.eventId, raw.snapshotId.value, ResolveDomain(raw.domain, defaultDomain));
      var outcome := pipeline.Compile(msg, fetched, freshId);
      if outcome.Failed? {
        deadLetters := deadLetters + [raw];
        return None;
      }
      r := Some(outcome);
    }
  }
}
