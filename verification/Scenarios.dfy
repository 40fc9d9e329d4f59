/** Compiled scenarios of the codebook generator: building, tagging, validation and the
    Correlation-Engine projection (pipeline.py, tagging.py, vocabulary.py, projection.py). */
module Scenarios {
  import opened Common
  import opened Reachability
  import opened Propagation

  datatype Scenario = Scenario(
    scenarioId: string,
    faultOriginObjectId: string,
    faultOriginType: string,
    predictedSymptoms: seq<Symptom>,
    trailIds: seq<string>)

  type TrailLookup = string -> seq<string>

  // ---- Tagging ----

  /** Every trail id the lookup gives for the symptoms, in symptom order, repeats included. */
  function AllTrails(symptoms: seq<Symptom>, trailsFor: TrailLookup): seq<string> {
    if symptoms == [] then []
    else AllTrails(symptoms[..|symptoms|-1], trailsFor) + trailsFor(symptoms[|symptoms|-1].managedObjectId)
  }

  lemma {:induction false} FirstOccurrencesKnown<T(!new)>(xs: seq<T>, ys: seq<T>)
    requires forall y :: y in ys ==> y in xs
    ensures FirstOccurrences(xs + ys) == FirstOccurrences(xs)
  {
    if ys == [] {
      assert xs + ys == xs;
    } else {
      var front, last := ys[..|ys|-1], ys[|ys|-1];
      FirstOccurrencesKnown(xs, front);
      assert xs + ys == (xs + front) + [last];
      FirstOccurrencesPush(xs + front, last);
    }
  }

  lemma {:induction false} TrailsOfSymptom(symptoms: seq<Symptom>, trailsFor: TrailLookup, t: string)
    ensures t in AllTrails(symptoms, trailsFor) <==> exists s :: s in symptoms && t in trailsFor(s.managedObjectId)
  {
    if symptoms != [] {
      var front, last := symptoms[..|symptoms|-1], symptoms[|symptoms|-1];
      assert symptoms == front + [last];
      TrailsOfSymptom(front, trailsFor, t);
    }
  }

  lemma {:induction false} AllTrailsConcat(a: seq<Symptom>, b: seq<Symptom>, trailsFor: TrailLookup)
    ensures AllTrails(a + b, trailsFor) == AllTrails(a, trailsFor) + AllTrails(b, trailsFor)
  {
    if b == [] {
      assert a + b == a;
    } else {
      var front, last := b[..|b|-1], b[|b|-1];
      AllTrailsConcat(a, front, trailsFor);
      assert (a + b)[..|a + b|-1] == a + front;
      ConcatAssociates(AllTrails(a, trailsFor), AllTrails(front, trailsFor), trailsFor(last.managedObjectId));
    }
  }

  lemma AllTrailsOfOne(s: Symptom, trailsFor: TrailLookup)
    ensures AllTrails([s], trailsFor) == trailsFor(s.managedObjectId)
  {
    assert [s][..0] == [];
  }

  /** Each object is looked up once; the result is nevertheless the union over all symptoms, without
      repeats and in first-seen order. */
  method TagScenario(symptoms: seq<Symptom>, trailsFor: TrailLookup) returns (ordered: seq<string>)
    ensures ordered == FirstOccurrences(AllTrails(symptoms, trailsFor))
    ensures NoDuplicates(ordered)
    ensures forall t :: t in ordered <==> exists s :: s in symptoms && t in trailsFor(s.managedObjectId)
  {
    ordered := [];
    var seen: set<string>, queried: set<string> := {}, {};
    for i := 0 to |symptoms|
      invariant ordered == FirstOccurrences(AllTrails(symptoms[..i], trailsFor))
      invariant seen == Elements(ordered)
      invariant forall o :: o in queried ==> exists k :: 0 <= k < i && symptoms[k].managedObjectId == o
    {
      var objectId := symptoms[i].managedObjectId;
      ghost var before := AllTrails(symptoms[..i], trailsFor);
      assert symptoms[..i+1][..i] == symptoms[..i];
      var ids := trailsFor(objectId);
      if objectId in queried {
        AlreadyQueried(symptoms[..i], trailsFor, objectId);
        FirstOccurrencesKnown(before, ids);
      } else {
        queried := queried + {objectId};
        ordered, seen := AddUnseen(ids, ordered, seen, before);
      }
    }
    assert symptoms[..|symptoms|] == symptoms;
    forall t ensures t in ordered <==> exists s :: s in symptoms && t in trailsFor(s.managedObjectId) {
      TrailsOfSymptom(symptoms, trailsFor, t);
      assert t in ordered <==> t in Elements(ordered);
    }
  }

  lemma AlreadyQueried(symptoms: seq<Symptom>, trailsFor: TrailLookup, objectId: string)
    requires exists k :: 0 <= k < |symptoms| && symptoms[k].managedObjectId == objectId
    ensures forall t :: t in trailsFor(objectId) ==> t in AllTrails(symptoms, trailsFor)
  {
    forall t | t in trailsFor(objectId) ensures t in AllTrails(symptoms, trailsFor) {
      TrailsOfSymptom(symptoms, trailsFor, t);
    }
  }

  method AddUnseen(ids: seq<string>, start: seq<string>, known: set<string>, ghost before: seq<string>)
    returns (ordered: seq<string>, seen: set<string>)
    requires start == FirstOccurrences(before) && known == Elements(start)
    ensures ordered == FirstOccurrences(before + ids) && seen == Elements(ordered)
  {
    hide FirstOccurrences;
    ordered, seen := start, known;
    assert before + ids[..0] == before;
    for j := 0 to |ids|
      invariant ordered == FirstOccurrences(before + ids[..j]) && seen == Elements(ordered)
    {
      FirstOccurrencesPush(before + ids[..j], ids[j]);
      assert before + ids[..j+1] == (before + ids[..j]) + [ids[j]];
      ElementsAppend(ordered, ids[j]);
      if ids[j] !in seen {
        seen := seen + {ids[j]};
        ordered := ordered + [ids[j]];
      }
    }
    assert ids[..|ids|] == ids;
  }

  // ---- Vocabulary ----

  datatype VocabularyError = UnknownToken(scenarioId: string, symptom: Symptom) | NoSymptoms(scenarioId: string)

  function FirstUnknown(symptoms: seq<Symptom>, vocabulary: set<string>): Option<Symptom> {
    if symptoms == [] then None
    else if symptoms[0].alarmType !in vocabulary then Some(symptoms[0])
    else FirstUnknown(symptoms[1..], vocabulary)
  }

  function ValidateScenarios(scenarios: seq<Scenario>, vocabulary: set<string>): Result<(), VocabularyError> {
    if scenarios == [] then Ok(())
    else
      var unknown := FirstUnknown(scenarios[0].predictedSymptoms, vocabulary);
      if unknown.Some? then Err(UnknownToken(scenarios[0].scenarioId, unknown.value))
      else ValidateScenarios(scenarios[1..], vocabulary)
  }

  lemma {:induction false} FirstUnknownExactly(symptoms: seq<Symptom>, vocabulary: set<string>)
    ensures FirstUnknown(symptoms, vocabulary).None? <==> forall s :: s in symptoms ==> s.alarmType in vocabulary
    ensures FirstUnknown(symptoms, vocabulary).Some? ==>
              FirstUnknown(symptoms, vocabulary).value in symptoms &&
                  FirstUnknown(symptoms, vocabulary).value.alarmType !in vocabulary
  {
    if symptoms != [] { FirstUnknownExactly(symptoms[1..], vocabulary); }
  }

  /** Validation passes exactly when every symptom of every scenario has a known token; otherwise it
      names a scenario and a symptom of it whose token is unknown. */
  lemma {:induction false} ValidExactly(scenarios: seq<Scenario>, vocabulary: set<string>)
    ensures ValidateScenarios(scenarios, vocabulary).Ok?
       <==> forall c, s :: c in scenarios && s in c.predictedSymptoms ==> s.alarmType in vocabulary
    ensures ValidateScenarios(scenarios, vocabulary).Err? ==>
              exists c :: c in scenarios &&
                ValidateScenarios(scenarios, vocabulary).error.UnknownToken? &&
                ValidateScenarios(scenarios, vocabulary).error.scenarioId == c.scenarioId &&
                ValidateScenarios(scenarios, vocabulary).error.symptom in c.predictedSymptoms &&
                ValidateScenarios(scenarios, vocabulary).error.symptom.alarmType !in vocabulary
  {
    if scenarios != [] {
      FirstUnknownExactly(scenarios[0].predictedSymptoms, vocabulary);
      ValidExactly(scenarios[1..], vocabulary);
      assert scenarios == [scenarios[0]] + scenarios[1..];
    }
  }

  function FirstOn(symptoms: seq<Symptom>, objectId: string): Option<string> {
    if symptoms == [] then None
    else if symptoms[0].managedObjectId == objectId then Some(symptoms[0].alarmType)
    else FirstOn(symptoms[1..], objectId)
  }

  function RootCauseAlarmType(scenario: Scenario): Result<string, VocabularyError> {
    var own := FirstOn(scenario.predictedSymptoms, scenario.faultOriginObjectId);
    if own.Some? then Ok(own.value)
    else if scenario.predictedSymptoms != [] then Ok(scenario.predictedSymptoms[0].alarmType)
    else Err(NoSymptoms(scenario.scenarioId))
  }

  /** The first symptom on the origin names the root cause, else the first symptom of all; only a scenario
      without symptoms has none. */
  lemma RootCauseExactly(c: Scenario, alarm: string)
    ensures RootCauseAlarmType(c) == Ok(alarm) <==>
      || (exists i: nat :: IsFirstOn(c.predictedSymptoms, c.faultOriginObjectId, i) &&
                      c.predictedSymptoms[i].alarmType == alarm)
      || ((forall s :: s in c.predictedSymptoms ==> s.managedObjectId != c.faultOriginObjectId) &&
          c.predictedSymptoms != [] && c.predictedSymptoms[0].alarmType == alarm)
    ensures RootCauseAlarmType(c).Err? <==> c.predictedSymptoms == []
  {
    FirstOnExactly(c.predictedSymptoms, c.faultOriginObjectId, alarm);
  }

  ghost predicate IsFirstOn(symptoms: seq<Symptom>, objectId: string, i: nat) {
    && i < |symptoms| && symptoms[i].managedObjectId == objectId
    && (forall j :: 0 <= j < i ==> symptoms[j].managedObjectId != objectId)
  }

  lemma {:induction false} FirstOnExactly(symptoms: seq<Symptom>, objectId: string, alarm: string)
    ensures FirstOn(symptoms, objectId) == Some(alarm) <==>
      exists i: nat :: IsFirstOn(symptoms, objectId, i) && symptoms[i].alarmType == alarm
    ensures FirstOn(symptoms, objectId).None? <==> forall s :: s in symptoms ==> s.managedObjectId != objectId
  {
    if symptoms != [] {
      var rest := symptoms[1..];
      assert symptoms == [symptoms[0]] + rest;
      FirstOnExactly(rest, objectId, alarm);
      if symptoms[0].managedObjectId == objectId {
        assert IsFirstOn(symptoms, objectId, 0);
      } else {
        assert forall i: nat :: IsFirstOn(rest, objectId, i) ==> IsFirstOn(symptoms, objectId, i + 1);
        assert forall i: nat :: IsFirstOn(symptoms, objectId, i) ==> i > 0 && IsFirstOn(rest, objectId, i - 1);
      }
    }
  }

  // ---- Building scenarios ----

  datatype Traversal = Traversal(reached: seq<NodeDto>, edges: seq<TraversalEdge>)

  datatype Inputs = Inputs(
    types: seq<FaultOriginType>,
    templates: seq<Template>,
    listByType: string -> seq<NodeDto>,
    traverse: string -> Traversal,
    trailsFor: TrailLookup)

  /** A scenario as one pass of the inner loop makes it for `node`. */
  ghost predicate CompiledFor(inputs: Inputs, node: NodeDto, c: Scenario) {
    var origin := OriginAlarmType(node.objectType, inputs.types);
    && origin.Ok?
    && c.faultOriginObjectId == node.managedObjectId && c.faultOriginType == node.objectType
    && NoDuplicates(c.predictedSymptoms)
    && c.predictedSymptoms != [] && c.predictedSymptoms[0] == Symptom(origin.value, node.managedObjectId)
    && (exists g ::
         Carries(g, node, inputs.traverse(node.managedObjectId).reached, inputs.traverse(node.managedObjectId).edges,
                            |inputs.traverse(node.managedObjectId).edges|)
                    && IsSignature(g, inputs.templates, c.predictedSymptoms[0], c.predictedSymptoms)
                    && InDepthOrder(Firing(g, inputs.templates), c.predictedSymptoms)
                    && InFiringOrder(g, inputs.templates, c.predictedSymptoms))
    && NoDuplicates(c.trailIds)
    && (forall t :: t in c.trailIds <==>
         exists s :: s in c.predictedSymptoms && t in inputs.trailsFor(s.managedObjectId))
  }

  /** One firing, told from the inputs: a traversed edge, and a template for its relation and the types of
      its ends. */
  ghost predicate Cascades(inputs: Inputs, node: NodeDto, a: Symptom, b: Symptom) {
    var traversal := inputs.traverse(node.managedObjectId);
    exists e, t ::
      && e in traversal.edges && t in inputs.templates
      && e.source == a.managedObjectId && e.target == b.managedObjectId && e.relation == t.edgeType
      && t.trigger == Endpoint(TypeOf(node, traversal.reached, e.source), a.alarmType)
      && t.effect == Endpoint(TypeOf(node, traversal.reached, e.target), b.alarmType)
  }

  ghost function Cascading(inputs: Inputs, node: NodeDto): (Symptom, Symptom) -> bool {
    (a, b) => Cascades(inputs, node, a, b)
  }

  /** The origin's own alarm leads to `q`. */
  ghost predicate Predicts(inputs: Inputs, node: NodeDto, q: Symptom) {
    var origin := OriginAlarmType(node.objectType, inputs.types);
    origin.Ok? && Reaches(Cascading(inputs, node), Symptom(origin.value, node.managedObjectId), q)
  }

  lemma {:induction false} ArcsAreEdges(edges: seq<TraversalEdge>, source: string, arc: Arc)
    ensures arc in ArcsFrom(edges, source) <==> TraversalEdge(source, arc.target, arc.relation) in edges
  {
    if edges != [] {
      var front, last := edges[..|edges|-1], edges[|edges|-1];
      assert edges == front + [last];
      ArcsAreEdges(front, source, arc);
    }
  }

  lemma CarriedArcs(g: TypedGraph, node: NodeDto, traversal: Traversal, source: string, arc: Arc)
    requires Carries(g, node, traversal.reached, traversal.edges, |traversal.edges|)
    ensures arc in g.OutArcs(source) <==> TraversalEdge(source, arc.target, arc.relation) in traversal.edges
  {
    hide TypeOf, ArcsFrom;
    var edges := traversal.edges;
    assert edges[..|edges|] == edges;
    ArcsAreEdges(edges, source, arc);
    assert arc in multiset(g.OutArcs(source)) <==> arc in multiset(ArcsFrom(edges, source));
  }

  /** Every graph that carries the traversal fires as the inputs do. */
  lemma CarriedFires(g: TypedGraph, inputs: Inputs, node: NodeDto, a: Symptom, b: Symptom)
    requires var traversal := inputs.traverse(node.managedObjectId);
             Carries(g, node, traversal.reached, traversal.edges, |traversal.edges|)
    ensures Fires(g, inputs.templates, a, b) <==> Cascades(inputs, node, a, b)
  {
    hide TypeOf, ArcsFrom;
    var traversal := inputs.traverse(node.managedObjectId);
    var source := a.managedObjectId;
    if Fires(g, inputs.templates, a, b) {
      var arc, t :| arc in g.out[source] && t in inputs.templates && Matches(g, t, a, arc) &&
                    b == Symptom(t.effect.alarmType, arc.target);
      CarriedArcs(g, node, traversal, source, arc);
      var e := TraversalEdge(source, arc.target, arc.relation);
      assert e in traversal.edges && t.trigger == Endpoint(g.types[source], a.alarmType);
    }
    if Cascades(inputs, node, a, b) {
      var e, t :| && e in traversal.edges && t in inputs.templates
                  && e.source == source && e.target == b.managedObjectId && e.relation == t.edgeType
                  && t.trigger == Endpoint(TypeOf(node, traversal.reached, e.source), a.alarmType)
                  && t.effect == Endpoint(TypeOf(node, traversal.reached, e.target), b.alarmType);
      var arc := Arc(e.target, e.relation);
      CarriedArcs(g, node, traversal, source, arc);
      assert arc in g.out[source] && Matches(g, t, a, arc);
    }
  }

  /** A compiled scenario's symptoms are those its inputs predict. */
  lemma CompiledPredicts(inputs: Inputs, node: NodeDto, c: Scenario, q: Symptom)
    requires CompiledFor(inputs, node, c)
    ensures q in c.predictedSymptoms <==> Predicts(inputs, node, q)
  {
    hide Carries, InDepthOrder, InFiringOrder, Fires, Cascades, OriginAlarmType;
    var traversal := inputs.traverse(node.managedObjectId);
    var g :| && Carries(g, node, traversal.reached, traversal.edges, |traversal.edges|)
             && IsSignature(g, inputs.templates, c.predictedSymptoms[0], c.predictedSymptoms)
             && InDepthOrder(Firing(g, inputs.templates), c.predictedSymptoms)
             && InFiringOrder(g, inputs.templates, c.predictedSymptoms);
    var fires, cascades := Firing(g, inputs.templates), Cascading(inputs, node);
    forall a, b ensures fires(a, b) <==> cascades(a, b) { CarriedFires(g, inputs, node, a, b); }
    if Reaches(fires, c.predictedSymptoms[0], q) { ReachesMonotone(fires, cascades, c.predictedSymptoms[0], q); }
    if Reaches(cascades, c.predictedSymptoms[0], q) { ReachesMonotone(cascades, fires, c.predictedSymptoms[0], q); }
  }

  function Origins(inputs: Inputs, types: seq<FaultOriginType>): seq<NodeDto> {
    if types == [] then []
    else Origins(inputs, types[..|types|-1]) + inputs.listByType(types[|types|-1].objectType)
  }

  /** The origins are the nodes listed for the given types, type by type. */
  lemma {:induction false} OriginsConcat(inputs: Inputs, a: seq<FaultOriginType>, b: seq<FaultOriginType>)
    ensures Origins(inputs, a + b) == Origins(inputs, a) + Origins(inputs, b)
  {
    if b == [] {
      assert a + b == a;
    } else {
      var front, last := b[..|b|-1], b[|b|-1];
      OriginsConcat(inputs, a, front);
      assert (a + b)[..|a + b|-1] == a + front;
      ConcatAssociates(Origins(inputs, a), Origins(inputs, front), inputs.listByType(last.objectType));
    }
  }

  lemma OriginsOfOne(inputs: Inputs, t: FaultOriginType)
    ensures Origins(inputs, [t]) == inputs.listByType(t.objectType)
  {
    assert [t][..0] == [];
  }

  method BuildScenario(inputs: Inputs, node: NodeDto) returns (r: Result<Scenario, string>)
    ensures r.Ok? <==> OriginAlarmType(node.objectType, inputs.types).Ok?
    ensures r.Ok? ==> CompiledFor(inputs, node, r.value)
  {
    var traversal := inputs.traverse(node.managedObjectId);
    var closure := BuildClosureGraph(node, traversal.reached, traversal.edges);
    var symptoms := Propagate(node, closure, inputs.templates, inputs.types);
    if symptoms.Err? { return Err(symptoms.error); }
    var trailIds := TagScenario(symptoms.value, inputs.trailsFor);
    r := Ok(Scenario(node.managedObjectId, node.managedObjectId, node.objectType, symptoms.value, trailIds));
  }

  /** One scenario per listed origin, in order; the build fails exactly when some listed origin's
      type has no alarm token. */
  method BuildScenarios(inputs: Inputs) returns (r: Result<seq<Scenario>, string>)
    ensures var origins := Origins(inputs, inputs.types);
      && (r.Ok? <==> forall n :: n in origins ==> OriginAlarmType(n.objectType, inputs.types).Ok?)
      && (r.Ok? ==> |r.value| == |origins| && forall i ::
           0 <= i < |origins| ==> CompiledFor(inputs, origins[i], r.value[i]))
  {
    hide CompiledFor, OriginAlarmType;
    var types := inputs.types;
    var scenarios: seq<Scenario> := [];
    ghost var all := Origins(inputs, types);
    for i := 0 to |types|
      invariant |scenarios| == |Origins(inputs, types[..i])|
      invariant Origins(inputs, types[..i]) <= all
      invariant forall k :: 0 <= k < |scenarios| ==> CompiledFor(inputs, all[k], scenarios[k])
      invariant forall k :: 0 <= k < |scenarios| ==> OriginAlarmType(all[k].objectType, types).Ok?
    {
      var nodes := inputs.listByType(types[i].objectType);
      ghost var start := |scenarios|;
      assert types[..i+1][..i] == types[..i];
      OriginsPrefix(inputs, types, i + 1);
      for j := 0 to |nodes|
        invariant |scenarios| == start + j
        invariant forall k :: 0 <= k < |scenarios| ==> CompiledFor(inputs, all[k], scenarios[k])
        invariant forall k :: 0 <= k < |scenarios| ==> OriginAlarmType(all[k].objectType, types).Ok?
      {
        assert all[start + j] == nodes[j];
        var scenario := BuildScenario(inputs, nodes[j]);
        if scenario.Err? {
          assert nodes[j] in all;
          return Err(scenario.error);
        }
        scenarios := scenarios + [scenario.value];
      }
    }
    assert types[..|types|] == types;
    r := Ok(scenarios);
  }

  lemma {:induction false} OriginsPrefix(inputs: Inputs, types: seq<FaultOriginType>, n: nat)
    requires n <= |types|
    ensures Origins(inputs, types[..n]) <= Origins(inputs, types)
    decreases |types| - n
  {
    if n < |types| {
      OriginsPrefix(inputs, types, n + 1);
      assert types[..n+1][..n] == types[..n];
    } else {
      assert types[..n] == types;
    }
  }

  /** The projected root cause is the origin type's own alarm token, wherever the cascade goes, and
      validation puts it in the vocabulary. */
  lemma RootCauseIsOriginAlarm(inputs: Inputs, node: NodeDto, scenarios: seq<Scenario>, c: Scenario,
                               vocabulary: set<string>)
    requires CompiledFor(inputs, node, c) && c in scenarios
    ensures RootCauseAlarmType(c) == Ok(OriginAlarmType(node.objectType, inputs.types).value)
    ensures exists i: nat :: IsFirstAlarm(node.objectType, inputs.types, i, RootCauseAlarmType(c).value)
    ensures ValidateScenarios(scenarios, vocabulary).Ok? ==> RootCauseAlarmType(c).value in vocabulary
  {
    ValidExactly(scenarios, vocabulary);
    OriginAlarmExactly(node.objectType, inputs.types, OriginAlarmType(node.objectType, inputs.types).value);
    assert c.predictedSymptoms[0] in c.predictedSymptoms;
  }

  // ---- Projection ----

  datatype Signature = Signature(trailId: string, scenarioId: string, rootCause: string, expectedSymptoms: seq<Symptom>)

  function ForTrails(c: Scenario, rootCause: string, trailIds: seq<string>): seq<Signature> {
    seq(|trailIds|, i
        requires 0 <= i < |trailIds| => Signature(trailIds[i], c.scenarioId, rootCause, c.predictedSymptoms))
  }

  function ProjectScenario(c: Scenario, trailId: Option<string>): Result<seq<Signature>, VocabularyError> {
    var rootCause := RootCauseAlarmType(c);
    if rootCause.Err? then Err(rootCause.error)
    else if trailId.Some? then
      (if trailId.value in c.trailIds then Ok(ForTrails(c, rootCause.value, [trailId.value])) else Ok([]))
    else Ok(ForTrails(c, rootCause.value, c.trailIds))
  }

  /** A compiled scenario projects to one signature for each of its trails asked for, in order, and each
      names its origin type's own alarm as the root cause of all its symptoms. */
  lemma ProjectionNamesOrigin(inputs: Inputs, node: NodeDto, c: Scenario, trailId: Option<string>, k: nat)
    requires CompiledFor(inputs, node, c)
    ensures ProjectScenario(c, trailId).Ok?
    ensures var asked := if trailId.None? then c.trailIds else
      if trailId.value in c.trailIds then [trailId.value] else [];
            && |ProjectScenario(c, trailId).value| == |asked|
            && (k < |asked| ==>
                  var s := ProjectScenario(c, trailId).value[k];
                  && s.trailId == asked[k] && s.scenarioId == c.scenarioId
                  && s.expectedSymptoms == c.predictedSymptoms
                  && exists i: nat :: IsFirstAlarm(node.objectType, inputs.types, i, s.rootCause))
  {
    hide CompiledFor, RootCauseAlarmType;
    RootCauseIsOriginAlarm(inputs, node, [c], c, {});
  }

  function OnTrail(signatures: seq<Signature>, trailId: string): seq<Signature> {
    if signatures == [] then []
    else
      var last := signatures[|signatures|-1];
      OnTrail(signatures[..|signatures|-1], trailId) + if last.trailId == trailId then [last] else []
  }

  function Occurrences(xs: seq<string>, x: string): nat {
    if xs == [] then 0 else Occurrences(xs[..|xs|-1], x) + if xs[|xs|-1] == x then 1 else 0
  }

  lemma {:induction false} OnTrailCounts(c: Scenario, rootCause: string, trailIds: seq<string>, t: string)
    ensures |OnTrail(ForTrails(c, rootCause, trailIds), t)| == Occurrences(trailIds, t)
    ensures forall s ::
      s in OnTrail(ForTrails(c, rootCause, trailIds), t) ==>
          s == Signature(t, c.scenarioId, rootCause, c.predictedSymptoms)
  {
    if trailIds != [] {
      OnTrailCounts(c, rootCause, trailIds[..|trailIds|-1], t);
      assert ForTrails(c, rootCause, trailIds)[..|trailIds|-1] == ForTrails(c, rootCause, trailIds[..|trailIds|-1]);
    }
  }

  lemma {:induction false} OccursIfPresent(xs: seq<string>, x: string)
    ensures Occurrences(xs, x) > 0 <==> x in xs
    ensures NoDuplicates(xs) ==> Occurrences(xs, x) <= 1
  {
    if xs != [] {
      var front, last := xs[..|xs|-1], xs[|xs|-1];
      assert xs == front + [last];
      OccursIfPresent(front, x);
    }
  }

  lemma {:induction false} OccurrencesCount(xs: seq<string>, x: string)
    ensures Occurrences(xs, x) == multiset(xs)[x]
  {
    if xs != [] {
      assert xs == xs[..|xs|-1] + [xs[|xs|-1]];
      OccurrencesCount(xs[..|xs|-1], x);
    }
  }

  lemma OnTrailOfOne(s: Signature, trailId: string)
    ensures OnTrail([s], trailId) == if s.trailId == trailId then [s] else []
  {
    assert [s][..0] == [];
  }

  lemma {:induction false} RepeatOccursTwice(xs: seq<string>) returns (x: string)
    requires !NoDuplicates(xs)
    ensures Occurrences(xs, x) > 1
  {
    var front, last := xs[..|xs|-1], xs[|xs|-1];
    if NoDuplicates(front) {
      var i, j :| 0 <= i < j < |xs| && xs[i] == xs[j];
      x := last;
      assert forall k :: 0 <= k < |front| ==> xs[k] == front[k];
      assert j == |xs| - 1 && front[i] == last;
      OccursIfPresent(front, last);
    } else {
      x := RepeatOccursTwice(front);
    }
  }

  /** Projecting for one trail is filtering the full fan-out, for every trail id, exactly when the
      scenario's trail ids are distinct; tagging makes them so. */
  lemma ProjectionIsFilterExactly(c: Scenario)
    requires RootCauseAlarmType(c).Ok?
    ensures (forall t :: ProjectScenario(c, Some(t)).value == OnTrail(ProjectScenario(c, None).value, t))
       <==> NoDuplicates(c.trailIds)
  {
    if NoDuplicates(c.trailIds) {
      forall t ensures ProjectScenario(c, Some(t)).value == OnTrail(ProjectScenario(c, None).value, t) {
        ProjectionForTrail(c, t);
        OccursIfPresent(c.trailIds, t);
      }
    } else {
      var t := RepeatOccursTwice(c.trailIds);
      ProjectionForTrail(c, t);
    }
  }

  lemma ProjectionForTrail(c: Scenario, t: string)
    requires RootCauseAlarmType(c).Ok?
    ensures ProjectScenario(c, Some(t)).value == OnTrail(ProjectScenario(c, None).value, t) <==>
      Occurrences(c.trailIds, t) <= 1
  {
    OccursIfPresent(c.trailIds, t);
    OnTrailCounts(c, RootCauseAlarmType(c).value, c.trailIds, t);
    var one, filtered := ProjectScenario(c, Some(t)).value, OnTrail(ProjectScenario(c, None).value, t);
    if |filtered| == 1 {
      assert filtered[0] in filtered;
      assert one == [filtered[0]];
    }
  }

  /** Every scenario's signatures in order; the first scenario without a root cause raises. */
  function ProjectAll(scenarios: seq<Scenario>, trailId: Option<string>): Result<seq<Signature>, VocabularyError> {
    if scenarios == [] then Ok([])
    else
      var before := ProjectAll(scenarios[..|scenarios|-1], trailId);
      if before.Err? then before
      else
        var last := ProjectScenario(scenarios[|scenarios|-1], trailId);
        if last.Err? then last else Ok(before.value + last.value)
  }

  /** Projections of parts follow one another; the first part that raises decides. */
  lemma {:induction false} ProjectConcat(a: seq<Scenario>, b: seq<Scenario>, trailId: Option<string>)
    ensures ProjectAll(a + b, trailId) ==
              if ProjectAll(a, trailId).Err? then ProjectAll(a, trailId)
              else if ProjectAll(b, trailId).Err? then ProjectAll(b, trailId)
              else Ok(ProjectAll(a, trailId).value + ProjectAll(b, trailId).value)
  {
    hide ProjectScenario;
    if b == [] {
      assert a + b == a;
      if ProjectAll(a, trailId).Ok? { assert ProjectAll(a, trailId).value + [] == ProjectAll(a, trailId).value; }
    } else {
      var front, last := b[..|b|-1], b[|b|-1];
      ProjectConcat(a, front, trailId);
      assert (a + b)[..|a + b|-1] == a + front;
      if ProjectAll(a, trailId).Ok? && ProjectAll(front, trailId).Ok? && ProjectScenario(last, trailId).Ok? {
        ConcatAssociates(ProjectAll(a, trailId).value, ProjectAll(front, trailId).value,
                         ProjectScenario(last, trailId).value);
      }
    }
  }

  lemma ProjectOne(c: Scenario, trailId: Option<string>)
    ensures ProjectAll([c], trailId) == ProjectScenario(c, trailId)
  {
    hide ProjectScenario;
    assert [c][..0] == [];
    var one := ProjectScenario(c, trailId);
    if one.Ok? { assert [] + one.value == one.value; }
  }

  method ProjectCodebook(scenarios: seq<Scenario>, trailId: Option<string>)
      returns (r: Result<seq<Signature>, VocabularyError>)
    ensures r == ProjectAll(scenarios, trailId)
  {
    var signatures := [];
    for i := 0 to |scenarios|
      invariant ProjectAll(scenarios[..i], trailId) == Ok(signatures)
    {
      assert scenarios[..i+1][..i] == scenarios[..i];
      var projected := ProjectScenario(scenarios[i], trailId);
      if projected.Err? {
        FirstErrorWins(scenarios, i + 1, trailId);
        return projected;
      }
      signatures := signatures + projected.value;
    }
    assert scenarios[..|scenarios|] == scenarios;
    r := Ok(signatures);
  }

  lemma {:induction false} FirstErrorWins(scenarios: seq<Scenario>, i: nat, trailId: Option<string>)
    requires i <= |scenarios| && ProjectAll(scenarios[..i], trailId).Err?
    ensures ProjectAll(scenarios, trailId) == ProjectAll(scenarios[..i], trailId)
    decreases |scenarios|
  {
    if i == |scenarios| {
      assert scenarios[..i] == scenarios;
    } else {
      assert scenarios[..|scenarios|-1][..i] == scenarios[..i];
      FirstErrorWins(scenarios[..|scenarios|-1], i, trailId);
    }
  }

  ghost predicate AllNamed(scenarios: seq<Scenario>) {
    forall i :: 0 <= i < |scenarios| ==> RootCauseAlarmType(scenarios[i]).Ok?
  }

  lemma {:induction false} OnTrailConcat(a: seq<Signature>, b: seq<Signature>, t: string)
    ensures OnTrail(a + b, t) == OnTrail(a, t) + OnTrail(b, t)
  {
    if b == [] {
      assert a + b == a;
    } else {
      OnTrailConcat(a, b[..|b|-1], t);
      assert (a + b)[..|a + b|-1] == a + b[..|b|-1];
    }
  }

  /** For one trail: the codebook's projection is the filtered fan-out exactly when no scenario lists
      the trail twice. */
  lemma {:induction false} CodebookForTrail(scenarios: seq<Scenario>, t: string)
    requires AllNamed(scenarios)
    ensures ProjectAll(scenarios, Some(t)).Ok? && ProjectAll(scenarios, None).Ok?
    ensures |ProjectAll(scenarios, Some(t)).value| <= |OnTrail(ProjectAll(scenarios, None).value, t)|
    ensures var same := ProjectAll(scenarios, Some(t)).value == OnTrail(ProjectAll(scenarios, None).value, t);
            same <==> forall i :: 0 <= i < |scenarios| ==> Occurrences(scenarios[i].trailIds, t) <= 1
  {
    hide OnTrail, Occurrences, RootCauseAlarmType;
    if scenarios == [] {
      NothingOnTrail(t);
    } else {
      var front, last := scenarios[..|scenarios|-1], scenarios[|scenarios|-1];
      CodebookForTrail(front, t);
      ProjectionForTrail(last, t);
      ProjectionIsShort(last, t);
      OnTrailConcat(ProjectAll(front, None).value, ProjectScenario(last, None).value, t);
      var a, b := ProjectAll(front, Some(t)).value, ProjectScenario(last, Some(t)).value;
      var x, y := OnTrail(ProjectAll(front, None).value, t), OnTrail(ProjectScenario(last, None).value, t);
      if a + b == x + y {
        assert |a| == |x| && a == (a + b)[..|a|] && x == (x + y)[..|x|];
        assert b == (a + b)[|a|..] && y == (x + y)[|x|..];
      }
      assert forall i :: 0 <= i < |front| ==> scenarios[i] == front[i];
    }
  }

  lemma NothingOnTrail(t: string)
    ensures OnTrail([], t) == []
  {
  }

  lemma ProjectionIsShort(c: Scenario, t: string)
    requires RootCauseAlarmType(c).Ok?
    ensures |ProjectScenario(c, Some(t)).value| <= |OnTrail(ProjectScenario(c, None).value, t)|
  {
    OccursIfPresent(c.trailIds, t);
    OnTrailCounts(c, RootCauseAlarmType(c).value, c.trailIds, t);
  }
}
