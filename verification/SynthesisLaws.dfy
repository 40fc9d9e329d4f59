/** Which label names which alarm of a synthesized stream. */
module SynthesisLaws {
  import opened Common
  import opened Cascade
  import opened CascadeLaws
  import opened StreamSizing
  import opened Synthesis

  ghost predicate Covers(truth: GroundTruthLabel, alarmId: string) {
    alarmId == truth.rootCause || alarmId in truth.children
  }

  /** Exactly one label of the store names the alarm. */
  ghost predicate LabelledOnce(labels: map<string, GroundTruthLabel>, alarmId: string) {
    exists sid :: sid in labels && IsOnlyLabel(labels, sid, alarmId)
  }

  ghost predicate IsOnlyLabel(labels: map<string, GroundTruthLabel>, sid: string, alarmId: string) {
    sid in labels && Covers(labels[sid], alarmId) && forall other ::
        other in labels && Covers(labels[other], alarmId) ==> other == sid
  }

  lemma CoversItsRange(r: Run, n: nat)
    requires IsLabelled(r)
    ensures Covers(r.truth, AlarmId(n)) <==> r.first <= n < r.first + |r.progress.alarms|
  {
    hide AlarmId;
    forall m: nat ensures AlarmId(m) == AlarmId(n) <==> m == n { AlarmIdsDiffer(m, n); }
    if r.first < n < r.first + |r.progress.alarms| {
      assert r.truth.children[n - r.first - 1] == AlarmId(n);
    }
  }

  lemma {:induction false} RunRange(runs: seq<Run>, end: nat, i: nat)
    requires Consecutive(runs, end) && i < |runs|
    ensures IsLabelled(runs[i]) && runs[i].first + |runs[i].progress.alarms| <= end
    ensures forall j :: i < j < |runs| ==> runs[i].first + |runs[i].progress.alarms| <= runs[j].first
  {
    hide IsLabelled;
    var front, last := runs[..|runs| - 1], runs[|runs| - 1];
    if i < |front| {
      RunRange(front, last.first, i);
      assert front[i] == runs[i];
      forall j | i < j < |runs| ensures runs[i].first + |runs[i].progress.alarms| <= runs[j].first {
        if j < |front| { assert front[j] == runs[j]; }
      }
    }
  }

  /** A stored label is that of the last run under its id. */
  lemma {:induction false} StoredLabel(runs: seq<Run>, sid: string) returns (i: nat)
    requires sid in LabelsOf(runs)
    ensures i < |runs| && LabelsOf(runs)[sid] == runs[i].truth && runs[i].truth.scenarioId == sid
    ensures forall j :: i < j < |runs| ==> runs[j].truth.scenarioId != sid
  {
    var front, last := runs[..|runs| - 1], runs[|runs| - 1];
    if last.truth.scenarioId == sid {
      i := |runs| - 1;
    } else {
      i := StoredLabel(front, sid);
      forall j | i < j < |runs| ensures runs[j].truth.scenarioId != sid {
        if j < |front| { assert front[j] == runs[j]; }
      }
    }
  }

  lemma {:induction false} LastIsStored(runs: seq<Run>, i: nat)
    requires i < |runs| && forall j :: i < j < |runs| ==> runs[j].truth.scenarioId != runs[i].truth.scenarioId
    ensures runs[i].truth.scenarioId in LabelsOf(runs) && LabelsOf(runs)[runs[i].truth.scenarioId] == runs[i].truth
  {
    var front := runs[..|runs| - 1];
    if i < |front| {
      assert runs[i] == front[i];
      assert runs[|runs| - 1].truth.scenarioId != runs[i].truth.scenarioId;
      forall j | i < j < |front| ensures front[j].truth.scenarioId != front[i].truth.scenarioId {
        assert front[j] == runs[j];
      }
      LastIsStored(front, i);
    }
  }

  ghost predicate IsLatest(runs: seq<Run>, i: nat)
    requires i < |runs|
  {
    forall j :: i < j < |runs| ==> runs[j].truth.scenarioId != runs[i].truth.scenarioId
  }

  /** A stored label names an alarm of a run exactly when it is that run's own, not replaced by a later
      run under the same id. */
  lemma NamedByOwnLabel(runs: seq<Run>, end: nat, i: nat, k: nat, sid: string)
    requires Consecutive(runs, end) && i < |runs| && k < |runs[i].progress.alarms| && sid in LabelsOf(runs)
    ensures var own := sid == runs[i].truth.scenarioId && IsLatest(runs, i);
            Covers(LabelsOf(runs)[sid], runs[i].progress.alarms[k].alarmId) <==> own
  {
    hide IsLabelled, Consecutive, LabelsOf, AlarmId, Covers;
    var j := StoredLabel(runs, sid);
    RunRange(runs, end, i);
    RunRange(runs, end, j);
    LabelledAt(runs[i], k);
    CoversItsRange(runs[j], runs[i].first + k);
  }

  lemma LabelledOnceIfLatest(runs: seq<Run>, end: nat, i: nat, k: nat)
    requires Consecutive(runs, end) && i < |runs| && k < |runs[i].progress.alarms|
    ensures LabelledOnce(LabelsOf(runs), runs[i].progress.alarms[k].alarmId) <==> IsLatest(runs, i)
  {
    hide Consecutive, LabelsOf, Covers;
    var labels, id := LabelsOf(runs), runs[i].progress.alarms[k].alarmId;
    forall sid | sid in labels
        ensures Covers(labels[sid], id) <==> sid == runs[i].truth.scenarioId && IsLatest(runs, i) {
      NamedByOwnLabel(runs, end, i, k, sid);
    }
    if IsLatest(runs, i) {
      LastIsStored(runs, i);
      assert IsOnlyLabel(labels, runs[i].truth.scenarioId, id);
    }
  }

  lemma LabelledAt(r: Run, k: nat)
    requires IsLabelled(r) && k < |r.progress.alarms|
    ensures r.progress.alarms[k].alarmId == AlarmId(r.first + k)
  {
    hide AlarmId;
  }

  lemma {:induction false} SignalMember(runs: seq<Run>, a: SynthAlarm) returns (i: nat, k: nat)
    requires a in Signal(runs)
    ensures i < |runs| && k < |runs[i].progress.alarms| && runs[i].progress.alarms[k] == a
  {
    var front, last := runs[..|runs| - 1], runs[|runs| - 1];
    if a in last.progress.alarms {
      i := |runs| - 1;
      k :| 0 <= k < |last.progress.alarms| && last.progress.alarms[k] == a;
    } else {
      i, k := SignalMember(front, a);
      assert front[i] == runs[i];
    }
  }

  lemma {:induction false} MemberOfSignal(runs: seq<Run>, i: nat, k: nat)
    requires i < |runs| && k < |runs[i].progress.alarms|
    ensures runs[i].progress.alarms[k] in Signal(runs)
  {
    if i < |runs| - 1 {
      assert runs[..|runs| - 1][i] == runs[i];
      MemberOfSignal(runs[..|runs| - 1], i, k);
    }
  }

  /** Every signal alarm is in exactly one label if and only if no scenario id was used twice. */
  lemma LabelledOnceExactly(runs: seq<Run>, end: nat)
    requires Consecutive(runs, end)
    ensures (forall a :: a in Signal(runs) ==> LabelledOnce(LabelsOf(runs), a.alarmId)) <==>
      NoDuplicates(ScenarioIds(runs))
  {
    hide Consecutive, LabelsOf, LabelledOnce, Signal, IsLabelled;
    var ids := ScenarioIds(runs);
    if NoDuplicates(ids) {
      forall a | a in Signal(runs) ensures LabelledOnce(LabelsOf(runs), a.alarmId) {
        var i, k := SignalMember(runs, a);
        forall j | i < j < |runs| ensures runs[j].truth.scenarioId != runs[i].truth.scenarioId {
          assert ids[i] != ids[j];
        }
        LabelledOnceIfLatest(runs, end, i, k);
      }
    }
    if forall a :: a in Signal(runs) ==> LabelledOnce(LabelsOf(runs), a.alarmId) {
      forall i: nat, j: nat | i < j < |ids| ensures ids[i] != ids[j] {
        RunRange(runs, end, i);
        assert |runs[i].progress.alarms| > 0 by { LabelledSome(runs[i]); }
        MemberOfSignal(runs, i, 0);
        LabelledOnceIfLatest(runs, end, i, 0);
      }
    }
  }

  lemma LabelledSome(r: Run)
    requires IsLabelled(r)
    ensures |r.progress.alarms| > 0
  {
    hide AlarmId;
  }

  // ---- When scenario ids repeat ----

  lemma InstanceIdsDistinct(scenarioType: string, instances: nat)
    ensures NoDuplicates(InstanceIds(scenarioType, instances))
  {
    hide ScenarioId;
    forall i: nat, j: nat | i < j < instances ensures ScenarioId(scenarioType, i) != ScenarioId(scenarioType, j) {
      ScenarioIdInjective(scenarioType, i, scenarioType, j);
    }
  }

  lemma {:induction false} PlannedMember(types: seq<string>, instances: nat, id: string) returns (k: nat, inst: nat)
    requires id in PlannedIds(types, instances)
    ensures k < |types| && inst < instances && id == ScenarioId(types[k], inst)
  {
    hide ScenarioId;
    var front, last := types[..|types| - 1], types[|types| - 1];
    if id in InstanceIds(last, instances) {
      k := |types| - 1;
      inst :| 0 <= inst < instances && InstanceIds(last, instances)[inst] == id;
    } else {
      k, inst := PlannedMember(front, instances, id);
      assert front[k] == types[k];
    }
  }

  lemma {:induction false} FirstInstancePlanned(types: seq<string>, instances: nat, k: nat)
    requires k < |types| && instances > 0
    ensures ScenarioId(types[k], 0) in PlannedIds(types, instances)
  {
    hide ScenarioId;
    if k < |types| - 1 {
      assert types[..|types| - 1][k] == types[k];
      FirstInstancePlanned(types[..|types| - 1], instances, k);
    } else {
      assert InstanceIds(types[k], instances)[0] == ScenarioId(types[k], 0);
    }
  }

  lemma {:induction false} PlannedDistinctExactly(types: seq<string>, instances: nat)
    ensures NoDuplicates(PlannedIds(types, instances)) <==> instances == 0 || NoDuplicates(types)
  {
    hide ScenarioId, NoDuplicates;
    if types == [] {
      NothingRepeats();
    } else {
      var front, last := types[..|types| - 1], types[|types| - 1];
      assert types == front + [last];
      PlannedDistinctExactly(front, instances);
      InstanceIdsDistinct(last, instances);
      NoDuplicatesConcat(PlannedIds(front, instances), InstanceIds(last, instances));
      NoDuplicatesConcat(front, [last]);
      SingleHasNoDuplicates(last);
      LastTypeRepeats(front, last, instances);
    }
  }

  lemma NothingRepeats()
    ensures NoDuplicates<string>([])
  {
  }

  lemma LastTypeRepeats(front: seq<string>, last: string, instances: nat)
    ensures Elements(PlannedIds(front, instances)) !! Elements(InstanceIds(last, instances)) <==>
      instances == 0 || Elements(front) !! Elements([last])
  {
    hide ScenarioId, PlannedIds;
    var ids := InstanceIds(last, instances);
    if instances > 0 && last in front {
      var k :| 0 <= k < |front| && front[k] == last;
      FirstInstancePlanned(front, instances, k);
      assert ids[0] in Elements(ids) && ids[0] in Elements(PlannedIds(front, instances));
    }
    if !(Elements(PlannedIds(front, instances)) !! Elements(ids)) {
      var id :| id in Elements(PlannedIds(front, instances)) && id in Elements(ids);
      var k, inst := PlannedMember(front, instances, id);
      var other :| 0 <= other < instances && ids[other] == id;
      ScenarioIdInjective(front[k], inst, last, other);
      assert last in Elements(front) && last in Elements([last]);
    }
  }

  /** Every signal alarm of a synthesized stream is in exactly one label if and only if the runnable
      scenarios selected are distinct (or nothing is run): a scenario selected twice runs again under
      the same ids, and its new labels replace the old ones. */
  lemma SignalLabelledExactly(runs: seq<Run>, end: nat, nodes: seq<TypedNode>, settings: Settings, draws: Draws,
                              scenarios: seq<ScenarioDef>, instances: nat)
    requires Consecutive(runs, end) && FollowsPlan(nodes, settings, draws, Plan(scenarios, nodes, instances), runs)
    ensures var distinct := instances == 0 || NoDuplicates(Runnable(scenarios, nodes));
            (forall a :: a in Signal(runs) ==> LabelledOnce(LabelsOf(runs), a.alarmId)) <==> distinct
  {
    hide Consecutive, LabelsOf, LabelledOnce, Signal, ScenarioIds, PlannedIds, Plan, Runnable, FollowsPlan;
    LabelledOnceExactly(runs, end);
    PlanFixesIds(nodes, settings, draws, scenarios, instances, runs);
    PlannedDistinctExactly(Runnable(scenarios, nodes), instances);
  }

  lemma SelectOneMore(names: seq<string>, byType: map<string, ScenarioDef>, nodes: seq<TypedNode>)
    requires names != [] && forall k :: k in byType ==> byType[k].scenarioType == k
    ensures var before, now :=
      Runnable(Selected(names[..|names| - 1], byType), nodes), Runnable(Selected(names, byType), nodes);
            now == before || now == before + [names[|names| - 1]]
  {
    hide FaultOriginCandidates;
    var last, before := names[|names| - 1], Selected(names[..|names| - 1], byType);
    if last in byType {
      assert (before + [byType[last]])[..|before|] == before;
    } else {
      assert before + [] == before;
    }
  }

  /** Distinct selected names give distinct runnable types. */
  lemma {:induction false} DistinctSelection(names: seq<string>, byType: map<string, ScenarioDef>,
                                             nodes: seq<TypedNode>)
    requires NoDuplicates(names) && forall k :: k in byType ==> byType[k].scenarioType == k
    ensures NoDuplicates(Runnable(Selected(names, byType), nodes))
    ensures Elements(Runnable(Selected(names, byType), nodes)) <= Elements(names)
  {
    hide Runnable;
    if names == [] {
      RunnableOfNothing(byType, nodes);
    } else {
      hide Selected;
      var front, last := names[..|names| - 1], names[|names| - 1];
      DistinctSelection(front, byType, nodes);
      SelectOneMore(names, byType, nodes);
      ElementsDropLast(names);
      assert last !in front;
      ElementsAppend(Runnable(Selected(front, byType), nodes), last);
    }
  }

  lemma RunnableOfNothing(byType: map<string, ScenarioDef>, nodes: seq<TypedNode>)
    ensures Runnable(Selected([], byType), nodes) == []
  {
  }

  /** No label names a background or noise alarm. */
  lemma FillersUnlabelled(runs: seq<Run>, end: nat, out: seq<SynthAlarm>, count: int, first: nat, i: nat, sid: string)
    requires Consecutive(runs, end) && IsFiller(out, count, first) && first >= end
    requires i < |out| && sid in LabelsOf(runs)
    ensures !Covers(LabelsOf(runs)[sid], out[i].alarmId)
  {
    hide Consecutive, LabelsOf, AlarmId, Covers, IsLabelled;
    var j := StoredLabel(runs, sid);
    RunRange(runs, end, j);
    CoversItsRange(runs[j], first + i);
  }

  // ---- A scenario selected twice ----

  function OneNodeScenario(name: string): ScenarioDef {
    ScenarioDef(name, "Node", "NodeDown", None, None)
  }

  function FirstDraws(): Draws {
    Draws(_ => 0, _ => 0.0, _ => (_ => 0.0), _ => FillerDraw(0, 0, 0, 0.0), _ => FillerDraw(0, 0, 0, 0.0))
  }

  function TwiceSelected(name: string): Settings {
    Settings([name, name], 1, None, 0.0, 0.0, 400.0, 0.0)
  }

  /** The only instance of the scenario on a graph of one node, with the n-th alarm id. */
  function LoneRun(name: string, node: string, n: nat): Run {
    var id := ScenarioId(name, 0);
    var alarm := AlarmOf(Effect(node, "NodeDown"), AlarmId(n), 0.0, id, true);
    Run(OneNodeScenario(name), node, Timing(FirstDraws().start(n), 400.0, 0.0, FirstDraws().jitter(n)), [node],
        Progress([alarm], [], 0.0), GroundTruthLabel(id, name, AlarmId(n), node, "NodeDown", []), n)
  }

  lemma LoneRunIsCascade(name: string, node: string, n: nat)
    ensures IsDiGraph(map[node := []]) && IsCascadeRun(map[node := []], [], LoneRun(name, node, n))
  {
    hide AlarmId, ScenarioId, Order;
    var g: CausalGraph, rules, root := map[node := []], Rules([], None), Effect(node, "NodeDown");
    WalkStarts(g, rules, root, []);
    assert [node] + [] == [node] && [] + [node] == [node];
    assert [node][..0] == [];
    assert AllEffects(g, rules, root, []) == [root] && AllEffects(g, rules, root, [node]) == [root];
    WalkAdvances(g, rules, root, [], [], [node], []);
    assert [] + [[node][0]] == [node];
    TellsRoot(LoneRun(name, node, n).progress, root, n, LoneRun(name, node, n).timing, ScenarioId(name, 0));
  }

  lemma LoneRunsAreConsecutive(name: string, node: string)
    ensures Consecutive([LoneRun(name, node, 0), LoneRun(name, node, 1)], 2)
  {
    hide AlarmId, ScenarioId;
    var one := [LoneRun(name, node, 0)];
    var two := [LoneRun(name, node, 0), LoneRun(name, node, 1)];
    assert one[..0] == [] && two[..1] == one;
    assert Consecutive([], 0);
    assert IsLabelled(one[0]) && IsLabelled(two[1]);
    assert Consecutive(one, 1);
  }

  lemma LoneRunsFollowPlan(name: string, node: string)
    ensures var runs, nodes := [LoneRun(name, node, 0), LoneRun(name, node, 1)], [TypedNode(node, "Node")];
            var scenarios := [OneNodeScenario(name), OneNodeScenario(name)];
            && Consecutive(runs, 2)
            && FollowsPlan(nodes, TwiceSelected(name), FirstDraws(), Plan(scenarios, nodes, 1), runs)
            && Runnable(scenarios, nodes) == [name, name]
  {
    hide AlarmId, ScenarioId, Consecutive;
    var runs, nodes, s :=
        [LoneRun(name, node, 0), LoneRun(name, node, 1)], [TypedNode(node, "Node")], OneNodeScenario(name);
    LoneRunsAreConsecutive(name, node);
    assert nodes[..0] == [] && FaultOriginCandidates([], "Node") == [];
    assert FaultOriginCandidates(nodes, "Node") == [node];
    assert [s, s][..1] == [s] && [s][..0] == [];
    assert InstancesOf(s, 1) == [Instance(s, 0)];
    assert Plan([s], nodes, 1) == [Instance(s, 0)];
    assert Plan([s, s], nodes, 1) == [Instance(s, 0), Instance(s, 0)];
    assert Runnable([s], nodes) == [name];
  }

  /** On one node, naming a scenario twice yields an alarm that no label names. */
  lemma SelectedTwiceLosesLabels(name: string, node: string)
    ensures var runs, nodes := [LoneRun(name, node, 0), LoneRun(name, node, 1)], [TypedNode(node, "Node")];
            var scenarios := [OneNodeScenario(name), OneNodeScenario(name)];
            && AreCascades(map[node := []], [], runs)
            && FollowsPlan(nodes, TwiceSelected(name), FirstDraws(), Plan(scenarios, nodes, 1), runs)
            && exists a :: a in Signal(runs) && !LabelledOnce(LabelsOf(runs), a.alarmId)
  {
    hide LoneRun, LabelledOnce, LabelsOf, Signal, FollowsPlan, Plan, Consecutive, Runnable, IsCascadeRun;
    var runs, nodes := [LoneRun(name, node, 0), LoneRun(name, node, 1)], [TypedNode(node, "Node")];
    var scenarios := [OneNodeScenario(name), OneNodeScenario(name)];
    LoneRunIsCascade(name, node, 0);
    LoneRunIsCascade(name, node, 1);
    LoneRunsFollowPlan(name, node);
    SignalLabelledExactly(runs, 2, nodes, TwiceSelected(name), FirstDraws(), scenarios, 1);
    assert [name, name][0] == [name, name][1];
  }

  // ---- The empty graph ----

  lemma {:induction false} NothingToPlan(scenarios: seq<ScenarioDef>, instances: nat)
    ensures Plan(scenarios, [], instances) == []
  {
    if scenarios != [] { NothingToPlan(scenarios[..|scenarios| - 1], instances); }
  }

  /** Without nodes nothing runs, and so no filler is asked for. */
  lemma EmptyGraphNeedsNoFiller(settings: Settings, draws: Draws, pack: Pack, scenarios: seq<ScenarioDef>,
                                instances: nat, runs: seq<Run>)
    requires FollowsPlan([], settings, draws, Plan(scenarios, [], instances), runs)
    ensures runs == []
    ensures CanBackground([], pack, BackgroundCount(|Signal(runs)|, settings.backgroundFraction, settings.noiseRate))
    ensures CanNoise([], pack, NoiseCount(|Signal(runs)|, settings.backgroundFraction, settings.noiseRate), draws.noise)
  {
    NothingToPlan(scenarios, instances);
    assert Total(0, settings.backgroundFraction, settings.noiseRate) == 0.0;
  }
}
