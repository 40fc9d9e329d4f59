/** The labelled alarm stream of engine/scenario_runner.py and engine/noise.py. Random draws are given:
    any origin, start, jitter and filler may be drawn. */
module Synthesis {
  import opened Common
  import opened Decimals
  import opened Cascade
  import opened Labels
  import opened StreamSizing

  datatype TypedNode = TypedNode(managedObjectId: string, objectType: string)

  datatype NoiseClass = NoiseClass(name: string, alarmTypes: seq<string>)

  datatype Pack = Pack(templates: seq<Template>, library: seq<ScenarioDef>, vocabulary: seq<string>,
                       noiseClasses: seq<NoiseClass>)

  datatype Settings = Settings(selectedScenarios: seq<string>, scenarioInstances: nat, totalAlarms: Option<nat>,
                               backgroundFraction: real, noiseRate: real, baseIntervalMs: real, jitterStddevMs: real)

  /** The index choices and the time drawn for one filler alarm. */
  datatype FillerDraw = FillerDraw(node: nat, class_: nat, alarmType: nat, raisedAt: real)

  datatype Draws = Draws(origin: nat -> nat, start: nat -> real, jitter: nat -> nat -> real,
                         background: nat -> FillerDraw, noise: nat -> FillerDraw)

  function Pick<T>(xs: seq<T>, draw: nat): T
    requires xs != []
  {
    xs[draw % |xs|]
  }

  function FaultOriginCandidates(nodes: seq<TypedNode>, objectType: string): seq<string> {
    if nodes == [] then []
    else
      var front, last := nodes[..|nodes| - 1], nodes[|nodes| - 1];
      FaultOriginCandidates(front, objectType) + if last.objectType == objectType then [last.managedObjectId] else []
  }

  lemma {:induction false} CandidatesAreNodes(nodes: seq<TypedNode>, objectType: string, id: string)
    ensures id in FaultOriginCandidates(nodes, objectType) <==> TypedNode(id, objectType) in nodes
  {
    if nodes != [] {
      var front, last := nodes[..|nodes| - 1], nodes[|nodes| - 1];
      CandidatesAreNodes(front, objectType, id);
      assert nodes == front + [last];
    }
  }

  /** Candidates keep the order of the nodes. */
  lemma {:induction false} CandidatesConcat(a: seq<TypedNode>, b: seq<TypedNode>, objectType: string)
    ensures FaultOriginCandidates(a + b, objectType) ==
              FaultOriginCandidates(a, objectType) + FaultOriginCandidates(b, objectType)
  {
    if b == [] {
      assert a + b == a;
    } else {
      var front, last := b[..|b| - 1], b[|b| - 1];
      CandidatesConcat(a, front, objectType);
      assert (a + b)[..|a + b| - 1] == a + front;
      ConcatAssociates(FaultOriginCandidates(a, objectType), FaultOriginCandidates(front, objectType),
                       if last.objectType == objectType then [last.managedObjectId] else []);
    }
  }

  /** A later scenario of the same type replaces an earlier one. */
  function ByType(library: seq<ScenarioDef>): (m: map<string, ScenarioDef>)
    ensures forall k :: k in m ==> m[k].scenarioType == k
  {
    if library == [] then map[]
    else
      var last := library[|library| - 1];
      ByType(library[..|library| - 1])[last.scenarioType := last]
  }

  function Selected(names: seq<string>, byType: map<string, ScenarioDef>): seq<ScenarioDef> {
    if names == [] then []
    else
      var last := names[|names| - 1];
      Selected(names[..|names| - 1], byType) + if last in byType then [byType[last]] else []
  }

  /** The last library entry of the type. */
  ghost predicate IsLastOf(library: seq<ScenarioDef>, name: string, s: ScenarioDef) {
    exists i: nat :: IsLastAt(library, name, i) && library[i] == s
  }

  ghost predicate IsLastAt(library: seq<ScenarioDef>, name: string, i: nat) {
    && i < |library| && library[i].scenarioType == name
    && (forall j :: i < j < |library| ==> library[j].scenarioType != name)
  }

  /** The lookup has each type of the library, with its last entry, and no other key. */
  lemma {:induction false} ByTypeExactly(library: seq<ScenarioDef>, name: string)
    ensures name in ByType(library) <==> exists s :: s in library && s.scenarioType == name
    ensures name in ByType(library) ==> IsLastOf(library, name, ByType(library)[name])
  {
    if library != [] {
      var front, last := library[..|library| - 1], library[|library| - 1];
      assert library == front + [last];
      ByTypeExactly(front, name);
      if last.scenarioType == name {
        assert IsLastAt(library, name, |library| - 1);
      } else if name in ByType(front) {
        var i: nat :| IsLastAt(front, name, i) && front[i] == ByType(front)[name];
        assert IsLastAt(library, name, i) && library[i] == front[i];
      }
    }
  }

  function ScenarioId(scenarioType: string, inst: nat): string {
    "sc-" + (scenarioType + ("-" + Padded(inst, 3)))
  }

  function LastDash(s: string): int {
    if s == "" then -1 else if s[|s| - 1] == '-' then |s| - 1 else LastDash(s[..|s| - 1])
  }

  lemma {:induction false} DashBefore(a: string, p: string)
    requires '-' !in p
    ensures LastDash(a + ("-" + p)) == |a|
  {
    var s := a + ("-" + p);
    if p != "" {
      DashBefore(a, p[..|p| - 1]);
      assert s[..|s| - 1] == a + ("-" + p[..|p| - 1]);
      assert s[|s| - 1] == p[|p| - 1];
      assert p[|p| - 1] in p;
    }
  }

  /** The id names the type and the instance, whatever characters the type has. */
  lemma ScenarioIdInjective(a: string, i: nat, b: string, j: nat)
    ensures ScenarioId(a, i) == ScenarioId(b, j) <==> a == b && i == j
  {
    hide Padded;
    if ScenarioId(a, i) == ScenarioId(b, j) {
      var p, q := Padded(i, 3), Padded(j, 3);
      PaddedRoundTrip(i, 3);
      PaddedRoundTrip(j, 3);
      var s, t := a + ("-" + p), b + ("-" + q);
      assert ScenarioId(a, i)[3..] == s && ScenarioId(b, j)[3..] == t;
      DashBefore(a, p);
      DashBefore(b, q);
      assert s[..|a|] == a && t[..|b|] == b;
      assert s[|a| + 1..] == p && t[|b| + 1..] == q;
    }
  }

  // ---- Fillers ----

  /** Background needs objects and alarm types, unless none is asked for. */
  predicate CanBackground(nodes: seq<TypedNode>, pack: Pack, count: int) {
    count > 0 ==> nodes != [] && pack.vocabulary != []
  }

  /** Noise needs objects and alarm types in each class that is drawn. */
  predicate CanNoise(nodes: seq<TypedNode>, pack: Pack, count: int, draws: nat -> FillerDraw) {
    && (count > 0 ==> nodes != [] && pack.noiseClasses != [])
    && (forall i: nat :: i < count ==>
          pack.noiseClasses[draws(i).class_ % |pack.noiseClasses|].alarmTypes != [])
  }

  /** On the drawn object, with the drawn type of the vocabulary, at the drawn time. */
  ghost predicate IsBackgroundAlarm(a: SynthAlarm, nodes: seq<TypedNode>, pack: Pack, i: nat, draw: FillerDraw)
    requires nodes != [] && pack.vocabulary != []
  {
    && a.managedObjectId == nodes[draw.node % |nodes|].managedObjectId
    && a.alarmType == pack.vocabulary[draw.alarmType % |pack.vocabulary|]
    && a.raisedAt == draw.raisedAt && a.traceId == "bg-" + Digits(i) && a.isBackground && !a.isNoise
  }

  /** On the drawn object, with the drawn type of the drawn class, at the drawn time. */
  ghost predicate IsNoiseAlarm(a: SynthAlarm, nodes: seq<TypedNode>, pack: Pack, i: nat, draw: FillerDraw)
    requires nodes != [] && pack.noiseClasses != []
  {
    var cls := pack.noiseClasses[draw.class_ % |pack.noiseClasses|];
    && cls.alarmTypes != []
    && a.managedObjectId == nodes[draw.node % |nodes|].managedObjectId
    && a.alarmType == cls.alarmTypes[draw.alarmType % |cls.alarmTypes|]
    && a.raisedAt == draw.raisedAt && a.traceId == "noise-" + cls.name + "-" + Digits(i)
    && a.isNoise && !a.isBackground
  }

  /** As many alarms as asked for (none for a count below one), under the next ids, outside every scenario. */
  ghost predicate IsFiller(out: seq<SynthAlarm>, count: int, first: nat) {
    && |out| == (if count > 0 then count else 0)
    && forall i ::
         0 <= i < |out| ==> out[i].alarmId == AlarmId(first + i) && out[i].scenarioId == None && !out[i].isRoot
  }

  ghost predicate IsBackground(out: seq<SynthAlarm>, nodes: seq<TypedNode>, pack: Pack, count: int,
                               draws: nat -> FillerDraw, first: nat) {
    && IsFiller(out, count, first) && CanBackground(nodes, pack, count)
    && forall i :: 0 <= i < |out| ==> IsBackgroundAlarm(out[i], nodes, pack, i, draws(i))
  }

  ghost predicate IsNoise(out: seq<SynthAlarm>, nodes: seq<TypedNode>, pack: Pack, count: int, draws: nat -> FillerDraw,
                          first: nat) {
    && IsFiller(out, count, first) && CanNoise(nodes, pack, count, draws)
    && forall i :: 0 <= i < |out| ==> IsNoiseAlarm(out[i], nodes, pack, i, draws(i))
  }

  /** Choosing from nothing raises. */
  method GenerateBackground(nodes: seq<TypedNode>, pack: Pack, count: int, draws: nat -> FillerDraw, ids: AlarmIds)
      returns (out: Option<seq<SynthAlarm>>)
    modifies ids
    ensures out.Some? <==> CanBackground(nodes, pack, count)
    ensures out.Some? ==> IsBackground(out.value, nodes, pack, count, draws, old(ids.next))
    ensures ids.next == old(ids.next) + if out.Some? then |out.value| else 0
  {
    hide AlarmId, Digits;
    if count <= 0 { return Some([]); }
    if nodes == [] || pack.vocabulary == [] { return None; }
    var alarms: seq<SynthAlarm> := [];
    for i := 0 to count
      invariant IsFiller(alarms, i, old(ids.next)) && ids.next == old(ids.next) + i
      invariant forall k :: 0 <= k < i ==> IsBackgroundAlarm(alarms[k], nodes, pack, k, draws(k))
    {
      var id := ids.Next();
      var objectId, alarmType := Pick(nodes, draws(i).node).managedObjectId, Pick(pack.vocabulary, draws(i).alarmType);
      alarms := alarms + [SynthAlarm(id, objectId, alarmType, draws(i).raisedAt, "bg-" + Digits(i), None,
                                     false, false, true)];
    }
    out := Some(alarms);
  }

  /** The same; here the class is drawn first. */
  method GenerateNoise(nodes: seq<TypedNode>, pack: Pack, count: int, draws: nat -> FillerDraw, ids: AlarmIds)
      returns (out: Option<seq<SynthAlarm>>)
    modifies ids
    ensures out.Some? <==> CanNoise(nodes, pack, count, draws)
    ensures out.Some? ==> IsNoise(out.value, nodes, pack, count, draws, old(ids.next))
    ensures out.Some? ==> ids.next == old(ids.next) + |out.value|
  {
    hide AlarmId, Digits;
    if count <= 0 { return Some([]); }
    if nodes == [] || pack.noiseClasses == [] { return None; }
    var alarms: seq<SynthAlarm> := [];
    for i := 0 to count
      invariant IsFiller(alarms, i, old(ids.next)) && ids.next == old(ids.next) + i
      invariant forall k: nat :: k < i ==> Pick(pack.noiseClasses, draws(k).class_).alarmTypes != []
      invariant forall k :: 0 <= k < i ==> IsNoiseAlarm(alarms[k], nodes, pack, k, draws(k))
    {
      var cls := Pick(pack.noiseClasses, draws(i).class_);
      if cls.alarmTypes == [] { return None; }
      var id := ids.Next();
      var objectId, alarmType := Pick(nodes, draws(i).node).managedObjectId, Pick(cls.alarmTypes, draws(i).alarmType);
      alarms := alarms + [SynthAlarm(id, objectId, alarmType, draws(i).raisedAt, "noise-" + cls.name + "-" + Digits(i),
                                     None, false, true, false)];
    }
    out := Some(alarms);
  }

  // ---- A stable sort by time ----

  function InsertByTime(xs: seq<SynthAlarm>, a: SynthAlarm): seq<SynthAlarm> {
    if xs == [] || xs[|xs| - 1].raisedAt <= a.raisedAt then xs + [a]
    else InsertByTime(xs[..|xs| - 1], a) + [xs[|xs| - 1]]
  }

  function SortByTime(xs: seq<SynthAlarm>): seq<SynthAlarm> {
    if xs == [] then [] else InsertByTime(SortByTime(xs[..|xs| - 1]), xs[|xs| - 1])
  }

  ghost predicate InTimeOrder(xs: seq<SynthAlarm>) {
    forall i, j :: 0 <= i < j < |xs| ==> xs[i].raisedAt <= xs[j].raisedAt
  }

  /** The alarms of one instant, in stream order. */
  function AtTime(xs: seq<SynthAlarm>, t: real): seq<SynthAlarm> {
    if xs == [] then [] else AtTime(xs[..|xs| - 1], t) + if xs[|xs| - 1].raisedAt == t then [xs[|xs| - 1]] else []
  }

  lemma {:induction false} InsertPermutes(xs: seq<SynthAlarm>, a: SynthAlarm)
    ensures multiset(InsertByTime(xs, a)) == multiset(xs) + multiset{a}
  {
    if xs != [] && xs[|xs| - 1].raisedAt > a.raisedAt {
      InsertPermutes(xs[..|xs| - 1], a);
      assert xs == xs[..|xs| - 1] + [xs[|xs| - 1]];
    }
  }

  /** Every alarm of the list is at or before `t`. */
  ghost predicate Until(xs: seq<SynthAlarm>, t: real) {
    forall i :: 0 <= i < |xs| ==> xs[i].raisedAt <= t
  }

  lemma {:induction false} InsertSorts(xs: seq<SynthAlarm>, a: SynthAlarm, t: real)
    requires InTimeOrder(xs)
    ensures InTimeOrder(InsertByTime(xs, a))
    ensures Until(xs, t) && a.raisedAt <= t ==> Until(InsertByTime(xs, a), t)
  {
    if xs != [] && xs[|xs| - 1].raisedAt > a.raisedAt {
      InsertSorts(xs[..|xs| - 1], a, xs[|xs| - 1].raisedAt);
      InsertSorts(xs[..|xs| - 1], a, t);
    }
  }

  lemma {:induction false} InsertKeepsOrder(xs: seq<SynthAlarm>, a: SynthAlarm, t: real)
    ensures AtTime(InsertByTime(xs, a), t) == AtTime(xs, t) + if a.raisedAt == t then [a] else []
  {
    if xs == [] || xs[|xs| - 1].raisedAt <= a.raisedAt {
      assert (xs + [a])[..|xs|] == xs;
    } else {
      var inserted, last := InsertByTime(xs[..|xs| - 1], a), xs[|xs| - 1];
      InsertKeepsOrder(xs[..|xs| - 1], a, t);
      assert (inserted + [last])[..|inserted|] == inserted;
    }
  }

  /** Python's `list.sort` by key: time-ordered, a permutation, and alarms of one instant keep their order. */
  lemma {:induction false} SortIsStable(xs: seq<SynthAlarm>, t: real)
    ensures InTimeOrder(SortByTime(xs)) && multiset(SortByTime(xs)) == multiset(xs)
    ensures AtTime(SortByTime(xs), t) == AtTime(xs, t)
  {
    hide InsertByTime;
    if xs != [] {
      var front, last := xs[..|xs| - 1], xs[|xs| - 1];
      assert xs == front + [last];
      SortIsStable(front, t);
      InsertPermutes(SortByTime(front), last);
      InsertSorts(SortByTime(front), last, t);
      InsertKeepsOrder(SortByTime(front), last, t);
    }
  }

  // ---- The scenario runs ----

  /** One scenario instance: the cascade from its origin and its label. */
  datatype Run = Run(scenario: ScenarioDef, root: string, timing: Timing, expanded: seq<string>, progress: Progress,
                     truth: GroundTruthLabel, first: nat)

  ghost predicate IsCascadeRun(g: CausalGraph, templates: seq<Template>, r: Run) {
    var rules, root := Rules(templates, r.scenario.relations), Effect(r.root, r.scenario.rootAlarmType);
    && r.root in g
    && IsWalk(g, rules, root, CoMembers(g[r.root], r.scenario.coFailureRelation), r.expanded, [])
    && Tells(r.progress, AllEffects(g, rules, root, r.expanded), r.first, r.timing, r.truth.scenarioId)
    && IsLabelOf(r.truth, r.scenario, r.truth.scenarioId, r.root, r.progress)
  }

  /** A run's ids are consecutive, and its label names all of them: the first as the root cause. */
  ghost predicate IsLabelled(r: Run) {
    && |r.progress.alarms| > 0 && |r.truth.children| == |r.progress.alarms| - 1
    && r.truth.rootCause == AlarmId(r.first)
    && (forall k :: 0 <= k < |r.progress.alarms| ==> r.progress.alarms[k].alarmId == AlarmId(r.first + k))
    && (forall k :: 0 <= k < |r.progress.alarms| ==> r.progress.alarms[k].scenarioId == Some(r.truth.scenarioId))
    && (forall k :: 0 <= k < |r.truth.children| ==> r.truth.children[k] == AlarmId(r.first + k + 1))
  }

  /** The runs take the ids from zero up to `end`, each where the one before it stopped. */
  ghost predicate Consecutive(runs: seq<Run>, end: nat) {
    if runs == [] then end == 0
    else
      var front, last := runs[..|runs| - 1], runs[|runs| - 1];
      IsLabelled(last) && end == last.first + |last.progress.alarms| && Consecutive(front, last.first)
  }

  function Signal(runs: seq<Run>): seq<SynthAlarm> {
    if runs == [] then [] else Signal(runs[..|runs| - 1]) + runs[|runs| - 1].progress.alarms
  }

  function ScenarioIds(runs: seq<Run>): seq<string> {
    seq(|runs|, i requires 0 <= i < |runs| => runs[i].truth.scenarioId)
  }

  /** What recording the runs' labels in turn leaves in the store. */
  function LabelsOf(runs: seq<Run>): map<string, GroundTruthLabel> {
    if runs == [] then map[]
        else LabelsOf(runs[..|runs| - 1])[runs[|runs| - 1].truth.scenarioId := runs[|runs| - 1].truth]
  }

  function InstanceIds(scenarioType: string, instances: nat): seq<string> {
    seq(instances, i requires 0 <= i => ScenarioId(scenarioType, i))
  }

  function PlannedIds(types: seq<string>, instances: nat): seq<string> {
    if types == [] then [] else PlannedIds(types[..|types| - 1], instances) + InstanceIds(types[|types| - 1], instances)
  }

  /** The types of the scenarios that have somewhere to start. */
  function Runnable(scenarios: seq<ScenarioDef>, nodes: seq<TypedNode>): seq<string> {
    if scenarios == [] then []
    else
      var front, last := scenarios[..|scenarios| - 1], scenarios[|scenarios| - 1];
      Runnable(front, nodes) +
          if FaultOriginCandidates(nodes, last.faultOriginType) == [] then [] else [last.scenarioType]
  }

  /** A scenario instance to run. */
  datatype Instance = Instance(scenario: ScenarioDef, inst: nat)

  function InstancesOf(scenario: ScenarioDef, instances: nat): seq<Instance> {
    seq(instances, i requires 0 <= i => Instance(scenario, i))
  }

  /** Every runnable scenario's instances, in order. */
  function Plan(scenarios: seq<ScenarioDef>, nodes: seq<TypedNode>, instances: nat): seq<Instance> {
    if scenarios == [] then []
    else
      var front, last := scenarios[..|scenarios| - 1], scenarios[|scenarios| - 1];
      Plan(front, nodes, instances) +
          if FaultOriginCandidates(nodes, last.faultOriginType) == [] then [] else InstancesOf(last, instances)
  }

  /** The i-th selected name has a library scenario, and some node is of its fault-origin type. */
  ghost function Starts(names: seq<string>, library: seq<ScenarioDef>, nodes: seq<TypedNode>): nat -> bool {
    (i: nat) => i < |names| && HasStart(names[i], library, nodes)
  }

  ghost predicate HasStart(name: string, library: seq<ScenarioDef>, nodes: seq<TypedNode>) {
    exists s, n :: IsLastOf(library, name, s) && n in nodes && n.objectType == s.faultOriginType
  }

  /** The n-th instance is of the scenario of the picked name, block by block. */
  ghost predicate IsPicked(names: seq<string>, library: seq<ScenarioDef>, picks: seq<nat>, instances: nat, n: nat,
                           p: Instance) {
    && instances > 0 && n / instances < |picks| && picks[n / instances] < |names|
    && IsLastOf(library, names[picks[n / instances]], p.scenario) && p.inst == n % instances
  }

  /** Exactly the selected names that have a start are planned, in selection order, each with all its
      instances. */
  ghost predicate PlansSelection(names: seq<string>, library: seq<ScenarioDef>, nodes: seq<TypedNode>, instances: nat,
                                 picks: seq<nat>, plan: seq<Instance>) {
    && Picks(picks, |names|, Starts(names, library, nodes)) && |plan| == |picks| * instances
    && forall n: nat :: n < |plan| ==> IsPicked(names, library, picks, instances, n, plan[n])
  }

  lemma IsLastOfOne(library: seq<ScenarioDef>, name: string, s: ScenarioDef, t: ScenarioDef)
    requires IsLastOf(library, name, s) && IsLastOf(library, name, t)
    ensures s == t && s.scenarioType == name
  {
  }

  lemma StartsExactly(name: string, library: seq<ScenarioDef>, nodes: seq<TypedNode>)
    ensures HasStart(name, library, nodes) <==>
      name in ByType(library) && FaultOriginCandidates(nodes, ByType(library)[name].faultOriginType) != []
  {
    ByTypeExactly(library, name);
    if name in ByType(library) {
      var s := ByType(library)[name];
      forall t | IsLastOf(library, name, t) ensures t == s { IsLastOfOne(library, name, t, s); }
      var candidates := FaultOriginCandidates(nodes, s.faultOriginType);
      if candidates != [] {
        CandidatesAreNodes(nodes, s.faultOriginType, candidates[0]);
      }
      if n :| n in nodes && n.objectType == s.faultOriginType {
        CandidatesAreNodes(nodes, s.faultOriginType, n.managedObjectId);
      }
    }
  }

  lemma {:induction false} PlanIsSelection(names: seq<string>, library: seq<ScenarioDef>, nodes: seq<TypedNode>,
                                           instances: nat) returns (picks: seq<nat>)
    ensures PlansSelection(names, library, nodes, instances, picks,
                           Plan(Selected(names, ByType(library)), nodes, instances))
  {
    if names == [] {
      picks := [];
    } else {
      hide PlansSelection, FaultOriginCandidates, ByType, InstancesOf;
      var n := |names| - 1;
      var front, last := names[..n], names[n];
      var prior := PlanIsSelection(front, library, nodes, instances);
      var byType := ByType(library);
      var chosen := Selected(front, byType);
      StartsExactly(last, library, nodes);
      ByTypeExactly(library, last);
      assert Selected(names, byType) == chosen + if last in byType then [byType[last]] else [];
      if last in byType { PlanOneMore(chosen, byType[last], nodes, instances); } else { assert chosen + [] == chosen; }
      var before, plan := Plan(chosen, nodes, instances), Plan(Selected(names, byType), nodes, instances);
      picks := SelectionGrows(names, library, nodes, instances, prior, before, plan,
                              if last in byType then byType[last] else ScenarioDef("", "", "", None, None));
    }
  }

  lemma PlanOneMore(chosen: seq<ScenarioDef>, s: ScenarioDef, nodes: seq<TypedNode>, instances: nat)
    ensures Plan(chosen + [s], nodes, instances) == Plan(chosen, nodes, instances) +
              if FaultOriginCandidates(nodes, s.faultOriginType) == [] then [] else InstancesOf(s, instances)
  {
    assert (chosen + [s])[..|chosen|] == chosen;
  }

  lemma SelectionGrows(names: seq<string>, library: seq<ScenarioDef>, nodes: seq<TypedNode>, instances: nat,
                       prior: seq<nat>, before: seq<Instance>, plan: seq<Instance>, s: ScenarioDef)
    returns (picks: seq<nat>)
    requires names != [] && PlansSelection(names[..|names| - 1], library, nodes, instances, prior, before)
    requires var last := names[|names| - 1];
             && (HasStart(last, library, nodes) ==> IsLastOf(library, last, s))
             && plan == before + if HasStart(last, library, nodes) then InstancesOf(s, instances) else []
    ensures PlansSelection(names, library, nodes, instances, picks, plan)
  {
    hide HasStart, IsLastOf;
    var n := |names| - 1;
    var front := names[..n];
    picks := PicksOneMore(prior, n, Starts(front, library, nodes), Starts(names, library, nodes));
    Distributes(|prior|, instances);
    forall k: nat | k < |plan| ensures IsPicked(names, library, picks, instances, k, plan[k]) {
      if k < |before| {
        assert IsPicked(front, library, prior, instances, k, before[k]);
      } else {
        BlockOf(k, |prior|, instances);
      }
    }
  }

  lemma Distributes(p: nat, m: nat)
    ensures (p + 1) * m == p * m + m
  {
  }

  lemma BlockOf(k: nat, p: nat, m: nat)
    requires p * m <= k < p * m + m
    ensures k / m == p && k % m == k - p * m
  {
    var q := k / m;
    assert k == q * m + k % m && k % m < m;
    if q < p { Blocks(m, q, p); }
    if p < q { Blocks(m, p, q); }
  }

  lemma {:induction false} Blocks(m: nat, q: nat, p: nat)
    requires q < p
    ensures q * m + m <= p * m
  {
    Distributes(p - 1, m);
    if q < p - 1 { Blocks(m, q, p - 1); }
  }

  /** The n-th run: the planned scenario and instance, from the drawn candidate at the drawn time. */
  ghost predicate RunsAs(nodes: seq<TypedNode>, settings: Settings, draws: Draws, p: Instance, n: nat, r: Run) {
    var candidates := FaultOriginCandidates(nodes, p.scenario.faultOriginType);
    && candidates != []
    && r.scenario == p.scenario && r.truth.scenarioId == ScenarioId(p.scenario.scenarioType, p.inst)
    && r.root == candidates[draws.origin(n) % |candidates|]
    && r.timing == Timing(draws.start(n), settings.baseIntervalMs, settings.jitterStddevMs, draws.jitter(n))
  }

  ghost predicate FollowsPlan(nodes: seq<TypedNode>, settings: Settings, draws: Draws, plan: seq<Instance>,
                              runs: seq<Run>) {
    |runs| == |plan| && forall n :: 0 <= n < |runs| ==> RunsAs(nodes, settings, draws, plan[n], n, runs[n])
  }

  lemma FollowsOneMore(nodes: seq<TypedNode>, settings: Settings, draws: Draws, plan: seq<Instance>, runs: seq<Run>,
                       p: Instance, r: Run)
    requires FollowsPlan(nodes, settings, draws, plan, runs) && RunsAs(nodes, settings, draws, p, |runs|, r)
    ensures FollowsPlan(nodes, settings, draws, plan + [p], runs + [r])
  {
    hide RunsAs;
  }

  /** Following the plan fixes the scenario ids. */
  lemma {:induction false} PlanFixesIds(nodes: seq<TypedNode>, settings: Settings, draws: Draws,
                                        scenarios: seq<ScenarioDef>, instances: nat, runs: seq<Run>)
    requires FollowsPlan(nodes, settings, draws, Plan(scenarios, nodes, instances), runs)
    ensures ScenarioIds(runs) == PlannedIds(Runnable(scenarios, nodes), instances)
  {
    hide ScenarioId, FaultOriginCandidates;
    var plan := Plan(scenarios, nodes, instances);
    PlanIds(scenarios, nodes, instances);
    forall n | 0 <= n < |runs| ensures ScenarioIds(runs)[n] == PlannedIds(Runnable(scenarios, nodes), instances)[n] {
      assert RunsAs(nodes, settings, draws, plan[n], n, runs[n]);
    }
  }

  /** Every selected name that has a start runs the last library scenario of that type, once for each instance
      and under that instance's id, in selection order; nothing else runs. */
  ghost predicate RunsSelection(names: seq<string>, library: seq<ScenarioDef>, nodes: seq<TypedNode>, instances: nat,
                                picks: seq<nat>, runs: seq<Run>) {
    && Picks(picks, |names|, Starts(names, library, nodes)) && |runs| == |picks| * instances
    && forall n: nat :: n < |runs| ==> IsPickedRun(names, library, picks, instances, n, runs[n])
  }

  ghost predicate IsPickedRun(names: seq<string>, library: seq<ScenarioDef>, picks: seq<nat>, instances: nat, n: nat,
                              r: Run) {
    && instances > 0 && n / instances < |picks| && picks[n / instances] < |names|
    && IsLastOf(library, names[picks[n / instances]], r.scenario)
    && r.truth.scenarioId == ScenarioId(names[picks[n / instances]], n % instances)
  }

  lemma SelectionIsRun(nodes: seq<TypedNode>, settings: Settings, draws: Draws, library: seq<ScenarioDef>,
                       instances: nat, runs: seq<Run>)
    requires FollowsPlan(nodes, settings, draws,
                         Plan(Selected(settings.selectedScenarios, ByType(library)), nodes, instances), runs)
    ensures exists picks: seq<nat> ::
              RunsSelection(settings.selectedScenarios, library, nodes, instances, picks, runs)
  {
    hide Plan, Selected, ByType, ScenarioId, Picks, FaultOriginCandidates;
    var names := settings.selectedScenarios;
    var plan := Plan(Selected(names, ByType(library)), nodes, instances);
    var picks := PlanIsSelection(names, library, nodes, instances);
    forall n: nat | n < |runs| ensures IsPickedRun(names, library, picks, instances, n, runs[n]) {
      assert IsPicked(names, library, picks, instances, n, plan[n]);
      assert RunsAs(nodes, settings, draws, plan[n], n, runs[n]);
      IsLastOfOne(library, names[picks[n / instances]], plan[n].scenario, plan[n].scenario);
    }
    assert RunsSelection(names, library, nodes, instances, picks, runs);
  }

  ghost predicate NamesPlan(plan: seq<Instance>, ids: seq<string>) {
    && |plan| == |ids|
    && (forall n :: 0 <= n < |plan| ==> ids[n] == ScenarioId(plan[n].scenario.scenarioType, plan[n].inst))
  }

  lemma {:induction false} PlanIds(scenarios: seq<ScenarioDef>, nodes: seq<TypedNode>, instances: nat)
    ensures NamesPlan(Plan(scenarios, nodes, instances), PlannedIds(Runnable(scenarios, nodes), instances))
  {
    hide ScenarioId, FaultOriginCandidates;
    if scenarios != [] {
      var front, last := scenarios[..|scenarios| - 1], scenarios[|scenarios| - 1];
      hide NamesPlan, InstancesOf, InstanceIds;
      PlanIds(front, nodes, instances);
      var types, plan := Runnable(front, nodes), Plan(front, nodes, instances);
      if FaultOriginCandidates(nodes, last.faultOriginType) == [] {
        assert types + [] == types && plan + [] == plan;
      } else {
        assert (types + [last.scenarioType])[..|types|] == types;
        InstancesAreNamed(last, instances);
        NamesConcat(plan, PlannedIds(types, instances), InstancesOf(last, instances),
                    InstanceIds(last.scenarioType, instances));
      }
    } else {
      assert NamesPlan([], []);
    }
  }

  lemma InstancesAreNamed(scenario: ScenarioDef, instances: nat)
    ensures NamesPlan(InstancesOf(scenario, instances), InstanceIds(scenario.scenarioType, instances))
  {
    hide ScenarioId;
  }

  lemma NamesConcat(p: seq<Instance>, x: seq<string>, q: seq<Instance>, y: seq<string>)
    requires NamesPlan(p, x) && NamesPlan(q, y)
    ensures NamesPlan(p + q, x + y)
  {
    hide ScenarioId;
  }

  ghost predicate AreCascades(g: CausalGraph, templates: seq<Template>, runs: seq<Run>) {
    forall i :: 0 <= i < |runs| ==> IsCascadeRun(g, templates, runs[i])
  }

  lemma CascadeIsLabelled(g: CausalGraph, templates: seq<Template>, r: Run)
    requires IsCascadeRun(g, templates, r)
    ensures IsLabelled(r)
  {
    hide AlarmId, IsWalk, RaisedAt;
  }

  lemma OneMoreRun(g: CausalGraph, templates: seq<Template>, runs: seq<Run>, r: Run)
    requires AreCascades(g, templates, runs) && IsCascadeRun(g, templates, r) && Consecutive(runs, r.first)
    ensures AreCascades(g, templates, runs + [r]) && Consecutive(runs + [r], r.first + |r.progress.alarms|)
    ensures Signal(runs + [r]) == Signal(runs) + r.progress.alarms
    ensures LabelsOf(runs + [r]) == LabelsOf(runs)[r.truth.scenarioId := r.truth]
  {
    hide IsCascadeRun, IsLabelled;
    CascadeIsLabelled(g, templates, r);
    assert (runs + [r])[..|runs|] == runs;
  }

  method RunInstance(g: CausalGraph, templates: seq<Template>, scenario: ScenarioDef, origin: string, inst: nat,
                     t: Timing, ids: AlarmIds)
    returns (p: Progress, truth: GroundTruthLabel, ghost run: Run)
    requires IsDiGraph(g) && origin in g
    modifies ids
    ensures IsCascadeRun(g, templates, run) && run.first == old(ids.next) && ids.next == old(ids.next) + |p.alarms|
    ensures run.progress == p && run.truth == truth && truth.scenarioId == ScenarioId(scenario.scenarioType, inst)
    ensures run.scenario == scenario && run.root == origin && run.timing == t
  {
    hide IsDiGraph, IsWalk, Tells, ScenarioId;
    var scenarioId := ScenarioId(scenario.scenarioType, inst);
    ghost var first := ids.next;
    ghost var expanded;
    p, truth, expanded := Propagate(g, templates, scenario, origin, scenarioId, t, ids);
    run := Run(scenario, origin, t, expanded, p, truth, first);
    PropagatedIsRun(g, templates, run);
  }

  lemma OneMoreInstance(scenario: ScenarioDef, inst: nat, plan: seq<Instance>)
    ensures plan + InstancesOf(scenario, 0) == plan
    ensures plan + InstancesOf(scenario, inst + 1) == plan + InstancesOf(scenario, inst) + [Instance(scenario, inst)]
  {
  }

  /** All instances of one scenario. */
  method RunScenario(g: CausalGraph, nodes: seq<TypedNode>, templates: seq<Template>, scenario: ScenarioDef,
                     instances: nat, settings: Settings, draws: Draws, ids: AlarmIds, labels: LabelStore,
                     signal: seq<SynthAlarm>, counter: nat, ghost runs: seq<Run>, ghost plan: seq<Instance>)
    returns (all: seq<SynthAlarm>, used: nat, ghost done: seq<Run>)
    requires IsDiGraph(g) && FaultOriginCandidates(nodes, scenario.faultOriginType) != []
    requires Elements(FaultOriginCandidates(nodes, scenario.faultOriginType)) <= g.Keys
    requires FollowsPlan(nodes, settings, draws, plan, runs) && counter == |runs|
    requires labels.Valid() && labels.byId == LabelsOf(runs)
    requires AreCascades(g, templates, runs) && Consecutive(runs, ids.next) && signal == Signal(runs)
    modifies ids, labels
    ensures labels.Valid() && labels.byId == LabelsOf(done)
    ensures AreCascades(g, templates, done) && Consecutive(done, ids.next) && all == Signal(done)
    ensures FollowsPlan(nodes, settings, draws, plan + InstancesOf(scenario, instances), done) && used == |done|
  {
    hide IsCascadeRun, AreCascades, Consecutive, Signal, LabelsOf, ScenarioId, InstancesOf, IsDiGraph, LabelStore.Valid,
         FollowsPlan, FaultOriginCandidates;
    var candidates := FaultOriginCandidates(nodes, scenario.faultOriginType);
    all, used, done := signal, counter, runs;
    ghost var followed := plan;
    OneMoreInstance(scenario, 0, plan);
    for inst := 0 to instances
      invariant labels.Valid() && labels.byId == LabelsOf(done)
      invariant AreCascades(g, templates, done) && Consecutive(done, ids.next) && all == Signal(done)
      invariant FollowsPlan(nodes, settings, draws, followed, done) && followed == plan + InstancesOf(scenario, inst) &&
        used == |done|
    {
      var origin := Pick(candidates, draws.origin(used));
      assert origin in Elements(candidates);
      var t := Timing(draws.start(used), settings.baseIntervalMs, settings.jitterStddevMs, draws.jitter(used));
      var p, truth, run := RunInstance(g, templates, scenario, origin, inst, t, ids);
      OneMoreRun(g, templates, done, run);
      OneMoreInstance(scenario, inst, plan);
      FollowsOneMore(nodes, settings, draws, followed, done, Instance(scenario, inst), run);
      done := done + [run];
      followed := followed + [Instance(scenario, inst)];
      all := all + p.alarms;
      labels.Record(truth);
      used := used + 1;
    }
  }

  lemma PropagatedIsRun(g: CausalGraph, templates: seq<Template>, r: Run)
    requires r.root in g
    requires var rules, root := Rules(templates, r.scenario.relations), Effect(r.root, r.scenario.rootAlarmType);
             && IsWalk(g, rules, root, CoMembers(g[r.root], r.scenario.coFailureRelation), r.expanded, [])
             && Tells(r.progress, AllEffects(g, rules, root, r.expanded), r.first, r.timing, r.truth.scenarioId)
             && IsLabelOf(r.truth, r.scenario, r.truth.scenarioId, r.root, r.progress)
    ensures IsCascadeRun(g, templates, r)
  {
    hide IsWalk, Tells;
  }

  /** The size of a scenario's cascade from its first candidate, or one where nothing can start it. */
  ghost predicate IsCascadeSize(g: CausalGraph, nodes: seq<TypedNode>, templates: seq<Template>, scenario: ScenarioDef,
                                size: nat) {
    var candidates := FaultOriginCandidates(nodes, scenario.faultOriginType);
    if candidates == [] then size == 1
    else
      && candidates[0] in g
      && var rules, root := Rules(templates, scenario.relations), Effect(candidates[0], scenario.rootAlarmType);
         exists expanded ::
             IsWalk(g, rules, root, CoMembers(g[candidates[0]], scenario.coFailureRelation), expanded, []) &&
                 size == |AllEffects(g, rules, root, expanded)|
  }

  method ExpectedCascadeSize(g: CausalGraph, nodes: seq<TypedNode>, templates: seq<Template>, scenario: ScenarioDef,
                             now: real) returns (size: nat)
    requires IsDiGraph(g) && forall n :: n in nodes ==> n.managedObjectId in g
    ensures IsCascadeSize(g, nodes, templates, scenario, size) && size > 0
  {
    hide IsDiGraph, IsWalk;
    var candidates := FaultOriginCandidates(nodes, scenario.faultOriginType);
    if candidates == [] { return 1; }
    CandidatesAreNodes(nodes, scenario.faultOriginType, candidates[0]);
    var estimate := new AlarmIds();
    var p, truth, expanded :=
        Propagate(g, templates, scenario, candidates[0], "estimate", Timing(now, 1.0, 0.0, _ => 0.0), estimate);
    size := |p.alarms|;
  }

  function Sum(sizes: seq<nat>): nat {
    if sizes == [] then 0 else Sum(sizes[..|sizes| - 1]) + sizes[|sizes| - 1]
  }

  lemma {:induction false} SumConcat(a: seq<nat>, b: seq<nat>)
    ensures Sum(a + b) == Sum(a) + Sum(b)
  {
    if b == [] {
      assert a + b == a;
    } else {
      SumConcat(a, b[..|b| - 1]);
      assert (a + b)[..|a + b| - 1] == a + b[..|b| - 1];
    }
  }

  lemma SumOfOne(size: nat)
    ensures Sum([size]) == size
  {
    assert [size][..0] == [];
  }

  /** As configured, or planned from the target total and the size of each scenario's cascade. */
  ghost predicate IsSolved(g: CausalGraph, nodes: seq<TypedNode>, templates: seq<Template>, scenarios: seq<ScenarioDef>,
                           settings: Settings, instances: nat, sizes: seq<nat>) {
    && (settings.totalAlarms.None? ==> instances == settings.scenarioInstances)
    && (settings.totalAlarms.Some? ==>
          && |sizes| == |scenarios| && Sum(sizes) >= |scenarios|
          && (forall i :: 0 <= i < |sizes| ==> IsCascadeSize(g, nodes, templates, scenarios[i], sizes[i]))
          && instances == Instances(settings.totalAlarms.value, settings.backgroundFraction, settings.noiseRate,
                                    |scenarios|, Sum(sizes)))
  }

  /** Instances of each scenario. */
  method SolveInstances(g: CausalGraph, nodes: seq<TypedNode>, templates: seq<Template>, scenarios: seq<ScenarioDef>,
                        settings: Settings, now: real)
    returns (instances: nat, ghost sizes: seq<nat>)
    requires IsDiGraph(g) && forall n :: n in nodes ==> n.managedObjectId in g
    ensures IsSolved(g, nodes, templates, scenarios, settings, instances, sizes)
  {
    hide IsCascadeSize, IsDiGraph, Instances;
    sizes := [];
    if settings.totalAlarms.None? { return settings.scenarioInstances, sizes; }
    var sum := 0;
    for i := 0 to |scenarios|
      invariant |sizes| == i && sum == Sum(sizes) && sum >= i
      invariant forall k :: 0 <= k < i ==> IsCascadeSize(g, nodes, templates, scenarios[k], sizes[k])
    {
      var size := ExpectedCascadeSize(g, nodes, templates, scenarios[i], now);
      assert (sizes + [size])[..i] == sizes;
      sizes := sizes + [size];
      sum := sum + size;
    }
    instances :=
        Instances(settings.totalAlarms.value, settings.backgroundFraction, settings.noiseRate, |scenarios|, sum);
  }

  datatype SynthesisResult = SynthesisResult(alarms: seq<SynthAlarm>, resolvedInstances: nat, backgroundCount: nat,
                                             noiseCount: nat)

  /** The scenario runs in order, then background, then noise; the stream is the stable sort of all three.
      A filler that has nothing to choose from ends the synthesis. */
  method Synthesize(g: CausalGraph, nodes: seq<TypedNode>, pack: Pack, settings: Settings, draws: Draws, now: real,
                    labels: LabelStore, ids: AlarmIds)
    returns (result: Option<SynthesisResult>, ghost runs: seq<Run>, ghost background: seq<SynthAlarm>,
             ghost noise: seq<SynthAlarm>, instances: nat, ghost sizes: seq<nat>)
    requires IsDiGraph(g) && (forall n :: n in nodes ==> n.managedObjectId in g)
    requires labels.Valid() && labels.byId == map[] && ids.next == 0
    modifies labels, ids
    ensures labels.Valid() && labels.byId == LabelsOf(runs) && AreCascades(g, pack.templates, runs)
    ensures Consecutive(runs, |Signal(runs)|)
    ensures var scenarios := Selected(settings.selectedScenarios, ByType(pack.library));
            && IsSolved(g, nodes, pack.templates, scenarios, settings, instances, sizes)
            && FollowsPlan(nodes, settings, draws, Plan(scenarios, nodes, instances), runs)
    ensures exists picks: seq<nat> ::
              RunsSelection(settings.selectedScenarios, pack.library, nodes, instances, picks, runs)
    ensures var signal := |Signal(runs)|;
            var backgroundCount := BackgroundCount(signal, settings.backgroundFraction, settings.noiseRate);
            var noiseCount := NoiseCount(signal, settings.backgroundFraction, settings.noiseRate);
            && (result.Some? <==>
                  CanBackground(nodes, pack, backgroundCount) && CanNoise(nodes, pack, noiseCount, draws.noise))
            && (result.Some? ==>
                  && IsBackground(background, nodes, pack, backgroundCount, draws.background, signal)
                  && IsNoise(noise, nodes, pack, noiseCount, draws.noise, signal + |background|))
    ensures result.Some? ==>
              && result.value.alarms == SortByTime(Signal(runs) + background + noise)
              && HasSize(settings, |Signal(runs)|, |result.value.alarms|)
              && result.value.backgroundCount == |background| && result.value.noiseCount == |noise|
              && result.value.resolvedInstances == instances
  {
    hide AreCascades, Consecutive, Signal, LabelsOf, IsDiGraph, LabelStore.Valid, SortByTime, CanBackground, CanNoise,
         FollowsPlan, Plan, BackgroundCount, NoiseCount, Selected, ByType, IsFiller, IsBackground, IsNoise, HasSize,
         IsSolved, RunsSelection;
    background, noise := [], [];
    var scenarios := Selected(settings.selectedScenarios, ByType(pack.library));
    instances, sizes := SolveInstances(g, nodes, pack.templates, scenarios, settings, now);
    var signal;
    signal, runs := RunScenarios(g, nodes, pack.templates, scenarios, instances, settings, draws, ids, labels);
    SelectionIsRun(nodes, settings, draws, pack.library, instances, runs);
    var backgroundCount := BackgroundCount(|signal|, settings.backgroundFraction, settings.noiseRate);
    var noiseCount := NoiseCount(|signal|, settings.backgroundFraction, settings.noiseRate);
    var b := GenerateBackground(nodes, pack, backgroundCount, draws.background, ids);
    if b.None? { return None, runs, background, noise, instances, sizes; }
    var n := GenerateNoise(nodes, pack, noiseCount, draws.noise, ids);
    if n.None? { return None, runs, background, noise, instances, sizes; }
    background, noise := b.value, n.value;
    result := Some(SynthesisResult(SortByTime(signal + b.value + n.value), instances, |b.value|, |n.value|));
    StreamHasSize(settings, signal, b.value, n.value, nodes, pack, draws);
  }

  /** With fractions as the settings allow them, the stream has the size its signal asks for, and misses
      the ideal by at most one unless the signal fraction is clamped. */
  ghost predicate HasSize(settings: Settings, signal: nat, size: nat) {
    var background, noise := settings.backgroundFraction, settings.noiseRate;
    background >= 0.0 && noise >= 0.0 ==>
      && size == StreamSize(signal, background, noise)
      && (1.0 - background - noise >= FLOOR ==> IsNear(size, signal, background, noise))
  }

  lemma StreamHasSize(settings: Settings, signal: seq<SynthAlarm>, background: seq<SynthAlarm>, noise: seq<SynthAlarm>,
                      nodes: seq<TypedNode>, pack: Pack, draws: Draws)
    requires IsBackground(background, nodes, pack,
                          BackgroundCount(|signal|, settings.backgroundFraction, settings.noiseRate),
                          draws.background, |signal|)
    requires IsNoise(noise, nodes, pack, NoiseCount(|signal|, settings.backgroundFraction, settings.noiseRate),
                     draws.noise, |signal| + |background|)
    ensures HasSize(settings, |signal|, |SortByTime(signal + background + noise)|)
  {
    hide SortByTime, BackgroundCount, NoiseCount, IsBackgroundAlarm, IsNoiseAlarm, CanBackground, CanNoise;
    var all := signal + background + noise;
    SortIsStable(all, 0.0);
    assert |multiset(SortByTime(all))| == |multiset(all)|;
    if settings.backgroundFraction >= 0.0 && settings.noiseRate >= 0.0 {
      CountsAreNatural(|signal|, settings.backgroundFraction, settings.noiseRate);
      if 1.0 - settings.backgroundFraction - settings.noiseRate >= FLOOR {
        Unclamped(|signal|, settings.backgroundFraction, settings.noiseRate);
      }
    }
  }

  method RunScenarios(g: CausalGraph, nodes: seq<TypedNode>, templates: seq<Template>, scenarios: seq<ScenarioDef>,
                      instances: nat, settings: Settings, draws: Draws, ids: AlarmIds, labels: LabelStore)
    returns (signal: seq<SynthAlarm>, ghost runs: seq<Run>)
    requires IsDiGraph(g) && forall n :: n in nodes ==> n.managedObjectId in g
    requires labels.Valid() && labels.byId == map[] && ids.next == 0
    modifies labels, ids
    ensures labels.Valid() && labels.byId == LabelsOf(runs) && AreCascades(g, templates, runs)
    ensures Consecutive(runs, ids.next) && signal == Signal(runs) && ids.next == |signal|
    ensures FollowsPlan(nodes, settings, draws, Plan(scenarios, nodes, instances), runs)
  {
    hide AreCascades, Consecutive, Signal, LabelsOf, IsDiGraph, LabelStore.Valid, FollowsPlan, InstancesOf,
         FaultOriginCandidates;
    var used := 0;
    signal, runs := [], [];
    NothingRun(g, templates);
    NothingPlanned(nodes, settings, draws);
    for i := 0 to |scenarios|
      invariant labels.Valid() && labels.byId == LabelsOf(runs)
      invariant AreCascades(g, templates, runs) && Consecutive(runs, ids.next) && signal == Signal(runs)
      invariant FollowsPlan(nodes, settings, draws, Plan(scenarios[..i], nodes, instances), runs) && used == |runs|
    {
      assert scenarios[..i + 1][..i] == scenarios[..i];
      ghost var plan := Plan(scenarios[..i], nodes, instances);
      assert plan + [] == plan;
      if FaultOriginCandidates(nodes, scenarios[i].faultOriginType) != [] {
        CandidatesInGraph(g, nodes, scenarios[i].faultOriginType);
        signal, used, runs := RunScenario(g, nodes, templates, scenarios[i], instances, settings, draws, ids, labels,
                                          signal, used, runs, plan);
      }
    }
    assert scenarios[..|scenarios|] == scenarios;
    SignalCounts(runs, ids.next);
  }

  lemma NothingRun(g: CausalGraph, templates: seq<Template>)
    ensures AreCascades(g, templates, []) && Consecutive([], 0) && Signal([]) == [] && LabelsOf([]) == map[]
  {
  }

  lemma NothingPlanned(nodes: seq<TypedNode>, settings: Settings, draws: Draws)
    ensures FollowsPlan(nodes, settings, draws, [], [])
  {
  }

  lemma CandidatesInGraph(g: CausalGraph, nodes: seq<TypedNode>, objectType: string)
    requires forall n :: n in nodes ==> n.managedObjectId in g
    ensures Elements(FaultOriginCandidates(nodes, objectType)) <= g.Keys
  {
    forall id | id in FaultOriginCandidates(nodes, objectType) ensures id in g {
      CandidatesAreNodes(nodes, objectType, id);
    }
  }

  lemma {:induction false} SignalCounts(runs: seq<Run>, end: nat)
    requires Consecutive(runs, end)
    ensures |Signal(runs)| == end
  {
    hide IsLabelled;
    if runs != [] { SignalCounts(runs[..|runs| - 1], runs[|runs| - 1].first); }
  }
}
