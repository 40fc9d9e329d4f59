/** The forward-propagation cascade of engine/cascade.py, over a causal graph and a domain pack's templates. */
module Cascade {
  import opened Common
  import opened Decimals

  datatype OutEdge = OutEdge(target: string, relation: Option<string>)

  /** Out-edges by node, in insertion order. */
  type CausalGraph = map<string, seq<OutEdge>>

  /** A directed graph holds its endpoints as nodes and one edge per pair of nodes. */
  ghost predicate IsDiGraph(g: CausalGraph) {
    forall n :: n in g ==>
      && (forall i :: 0 <= i < |g[n]| ==> g[n][i].target in g)
      && forall i, j :: 0 <= i < j < |g[n]| ==> g[n][i].target != g[n][j].target
  }

  datatype Template = Template(edgeRelation: string, effectAlarmType: string)

  datatype ScenarioDef = ScenarioDef(scenarioType: string, faultOriginType: string, rootAlarmType: string,
                                     relations: Option<seq<string>>, coFailureRelation: Option<string>)

  datatype SynthAlarm = SynthAlarm(alarmId: string, managedObjectId: string, alarmType: string, raisedAt: real,
                                   traceId: string, scenarioId: Option<string>, isRoot: bool, isNoise: bool,
                                   isBackground: bool)

  datatype GroundTruthLabel = GroundTruthLabel(scenarioId: string, scenarioType: string, rootCause: string,
                                               rootCauseManagedObjectId: string, rootCauseAlarmType: string,
                                               children: seq<string>)

  function AlarmId(n: nat): string {
    "ALM-" + Padded(n, 7)
  }

  class AlarmIds {
    var next: nat

    constructor ()
      ensures next == 0
    {
      next := 0;
    }

    method Next() returns (id: string)
      modifies this
      ensures id == AlarmId(old(next)) && next == old(next) + 1
    {
      id := AlarmId(next);
      next := next + 1;
    }
  }

  // ---- Which templates fire ----

  function ForRelation(templates: seq<Template>, relation: string): seq<Template> {
    if templates == [] then []
    else
      var front, last := templates[..|templates| - 1], templates[|templates| - 1];
      ForRelation(front, relation) + if last.edgeRelation == relation then [last] else []
  }

  ghost function OfRelation(templates: seq<Template>, relation: string): nat -> bool {
    (i: nat) => i < |templates| && templates[i].edgeRelation == relation
  }

  /** All templates of the relation, each in its place. */
  lemma {:induction false} ForRelationIs(templates: seq<Template>, relation: string) returns (picks: seq<nat>)
    ensures Picks(picks, |templates|, OfRelation(templates, relation))
    ensures |ForRelation(templates, relation)| == |picks|
    ensures forall k :: 0 <= k < |picks| ==> ForRelation(templates, relation)[k] == templates[picks[k]]
  {
    if templates == [] {
      picks := [];
    } else {
      var n := |templates| - 1;
      var front := templates[..n];
      var prior := ForRelationIs(front, relation);
      picks := PicksOneMore(prior, n, OfRelation(front, relation), OfRelation(templates, relation));
      var last := if templates[n].edgeRelation == relation then [templates[n]] else [];
      assert ForRelation(templates, relation) == ForRelation(front, relation) + last;
      hide ForRelation, OfRelation;
      assert forall k :: 0 <= k < |prior| ==> prior[k] < n;
    }
  }

  method TemplatesByRelation(templates: seq<Template>) returns (out: map<string, seq<Template>>)
    ensures forall r :: r in out <==> ForRelation(templates, r) != []
    ensures forall r :: r in out ==> out[r] == ForRelation(templates, r)
  {
    out := map[];
    for i := 0 to |templates|
      invariant forall r :: r in out <==> ForRelation(templates[..i], r) != []
      invariant forall r :: r in out ==> out[r] == ForRelation(templates[..i], r)
    {
      assert templates[..i + 1][..i] == templates[..i];
      var r := templates[i].edgeRelation;
      out := out[r := (if r in out then out[r] else []) + [templates[i]]];
    }
    assert templates[..|templates|] == templates;
  }

  /** The templates that fire along an edge: all those of its relation, when the scenario walks it. */
  function Firing(templates: seq<Template>, relations: Option<seq<string>>, edge: OutEdge): seq<Template> {
    if edge.relation.None? || (relations.Some? && edge.relation.value !in relations.value) then []
    else ForRelation(templates, edge.relation.value)
  }

  datatype Rules = Rules(templates: seq<Template>, relations: Option<seq<string>>)

  /** An alarm type raised on an object. */
  datatype Effect = Effect(managedObjectId: string, alarmType: string)

  function Raised(ts: seq<Template>, target: string): seq<Effect> {
    seq(|ts|, i requires 0 <= i < |ts| => Effect(target, ts[i].effectAlarmType))
  }

  function EdgeEffects(rules: Rules, edge: OutEdge): seq<Effect> {
    Raised(Firing(rules.templates, rules.relations, edge), edge.target)
  }

  /** The i-th template fires along the edge: it is one of the edge's relation, and the scenario walks that. */
  predicate Applies(rules: Rules, edge: OutEdge, i: nat) {
    && i < |rules.templates| && edge.relation == Some(rules.templates[i].edgeRelation)
    && (rules.relations.Some? ==> rules.templates[i].edgeRelation in rules.relations.value)
  }

  /** The effects on the edge's target are those of all the templates that apply, in template order. */
  ghost predicate AreEdgeEffects(rules: Rules, edge: OutEdge, effects: seq<Effect>) {
    exists picks: seq<nat> ::
      && Picks(picks, |rules.templates|, (i: nat) => Applies(rules, edge, i)) && |effects| == |picks|
      && forall k :: 0 <= k < |picks| ==> effects[k] == Effect(edge.target, rules.templates[picks[k]].effectAlarmType)
  }

  lemma EdgeRaisesExactly(rules: Rules, edge: OutEdge)
    ensures AreEdgeEffects(rules, edge, EdgeEffects(rules, edge))
    ensures |EdgeEffects(rules, edge)| == |set i: nat | i < |rules.templates| && Applies(rules, edge, i)|
  {
    hide ForRelation;
    var walked := edge.relation.Some? && (rules.relations.Some? ==> edge.relation.value in rules.relations.value);
    var picks: seq<nat> := [];
    if walked { picks := ForRelationIs(rules.templates, edge.relation.value); }
    var n, applies: nat -> bool := |rules.templates|, (i: nat) => Applies(rules, edge, i);
    assert Picks(picks, n, applies);
    PicksCount(picks, n, applies);
    assert (set i: nat | i < n && applies(i)) == set i: nat | i < n && Applies(rules, edge, i);
  }

  function EffectsAlong(rules: Rules, edges: seq<OutEdge>): seq<Effect> {
    if edges == [] then [] else EffectsAlong(rules, edges[..|edges| - 1]) + EdgeEffects(rules, edges[|edges| - 1])
  }

  function Out(g: CausalGraph, n: string): seq<OutEdge> {
    if n in g then g[n] else []
  }

  /** What expanding some nodes in turn raises. */
  function Firings(g: CausalGraph, rules: Rules, nodes: seq<string>): seq<Effect> {
    if nodes == [] then []
    else Firings(g, rules, nodes[..|nodes| - 1]) + EffectsAlong(rules, Out(g, nodes[|nodes| - 1]))
  }

  /** Edges one after another, and nodes one after another. */
  lemma {:induction false} EffectsConcat(rules: Rules, a: seq<OutEdge>, b: seq<OutEdge>)
    ensures EffectsAlong(rules, a + b) == EffectsAlong(rules, a) + EffectsAlong(rules, b)
  {
    hide EdgeEffects;
    if b == [] {
      assert a + b == a;
    } else {
      var front, last := b[..|b| - 1], b[|b| - 1];
      EffectsConcat(rules, a, front);
      assert (a + b)[..|a + b| - 1] == a + front;
      ConcatAssociates(EffectsAlong(rules, a), EffectsAlong(rules, front), EdgeEffects(rules, last));
    }
  }

  lemma EffectsOfOne(g: CausalGraph, rules: Rules, n: string, edge: OutEdge)
    ensures EffectsAlong(rules, [edge]) == EdgeEffects(rules, edge)
    ensures Firings(g, rules, [n]) == if n in g then EffectsAlong(rules, g[n]) else []
  {
    hide EdgeEffects;
    assert [edge][..0] == [] && [n][..0] == [];
  }

  function Objects(effects: seq<Effect>): seq<string> {
    seq(|effects|, i requires 0 <= i < |effects| => effects[i].managedObjectId)
  }

  /** The objects in the order of their first alarms. */
  function Order(effects: seq<Effect>): seq<string> {
    FirstOccurrences(Objects(effects))
  }

  function Repeat(x: string, k: nat): seq<string> {
    if k == 0 then [] else Repeat(x, k - 1) + [x]
  }

  lemma {:induction false} RepeatIsConstant(x: string, k: nat)
    ensures |Repeat(x, k)| == k && forall i :: 0 <= i < k ==> Repeat(x, k)[i] == x
  {
    if k > 0 { RepeatIsConstant(x, k - 1); }
  }

  lemma {:induction false} RepeatedOccurrence(xs: seq<string>, x: string, k: nat)
    ensures FirstOccurrences(xs + Repeat(x, k)) == FirstOccurrences(xs) +
      if k == 0 || x in FirstOccurrences(xs) then [] else [x]
  {
    hide FirstOccurrences;
    if k == 0 {
      assert xs + [] == xs;
    } else {
      RepeatedOccurrence(xs, x, k - 1);
      var before := xs + Repeat(x, k - 1);
      assert xs + Repeat(x, k) == before + [x];
      OccurrenceAppend(before, x);
    }
  }

  lemma OccurrenceAppend(xs: seq<string>, x: string)
    ensures FirstOccurrences(xs + [x]) == FirstOccurrences(xs) + if x in FirstOccurrences(xs) then [] else [x]
  {
    assert (xs + [x])[..|xs|] == xs;
  }

  /** Firing along one edge adds its target to the order, once, unless it alarmed before. */
  lemma EdgeExtendsOrder(rules: Rules, effects: seq<Effect>, edge: OutEdge)
    ensures var fired := EdgeEffects(rules, edge);
            Order(effects + fired) == Order(effects) +
                if fired == [] || edge.target in Order(effects) then [] else [edge.target]
  {
    hide FirstOccurrences, Firing;
    var fired := EdgeEffects(rules, edge);
    RepeatIsConstant(edge.target, |fired|);
    assert Objects(effects + fired) == Objects(effects) + Repeat(edge.target, |fired|);
    RepeatedOccurrence(Objects(effects), edge.target, |fired|);
  }

  // ---- The alarms an effect list stands for ----

  /** Times of one cascade: its start, the base interval and the jitter draws, one for each child. */
  datatype Timing = Timing(startAt: real, baseMs: real, jitterMs: real, draws: nat -> real)

  function Delay(baseMs: real, jitterMs: real, draw: real): (ms: real)
    ensures ms >= 0.0
  {
    var ms := baseMs + if jitterMs > 0.0 then draw else 0.0;
    if ms > 0.0 then ms else 0.0
  }

  /** The base interval and, with jitter, the draw; but never less than nothing. */
  lemma DelayExactly(baseMs: real, jitterMs: real, draw: real)
    ensures jitterMs > 0.0 && baseMs + draw >= 0.0 ==> Delay(baseMs, jitterMs, draw) == baseMs + draw
    ensures jitterMs <= 0.0 && baseMs >= 0.0 ==> Delay(baseMs, jitterMs, draw) == baseMs
    ensures jitterMs > 0.0 && baseMs + draw < 0.0 ==> Delay(baseMs, jitterMs, draw) == 0.0
    ensures jitterMs <= 0.0 && baseMs < 0.0 ==> Delay(baseMs, jitterMs, draw) == 0.0
  {
  }

  function RaisedAt(t: Timing, k: nat): real {
    if k == 0 then t.startAt else RaisedAt(t, k - 1) + Delay(t.baseMs, t.jitterMs, t.draws(k - 1))
  }

  function AlarmOf(e: Effect, id: string, at: real, scenarioId: string, isRoot: bool): SynthAlarm {
    SynthAlarm(id, e.managedObjectId, e.alarmType, at, scenarioId, Some(scenarioId), isRoot, false, false)
  }

  ghost predicate IsAlarmOf(a: SynthAlarm, e: Effect, id: string, at: real, scenarioId: string, isRoot: bool) {
    && a.alarmId == id && a.managedObjectId == e.managedObjectId && a.alarmType == e.alarmType && a.raisedAt == at
    && a.traceId == scenarioId && a.scenarioId == Some(scenarioId)
    && a.isRoot == isRoot && !a.isNoise && !a.isBackground
  }

  datatype Progress = Progress(alarms: seq<SynthAlarm>, children: seq<string>, lastAt: real)

  /** The alarms raise the effects in order, under consecutive ids from `first`, the first as the root;
      the children are the ids of all the others. */
  ghost predicate Tells(p: Progress, effects: seq<Effect>, first: nat, t: Timing, scenarioId: string) {
    && |p.alarms| == |effects| > 0
    && (forall k ::
         0 <= k < |effects| ==>
             IsAlarmOf(p.alarms[k], effects[k], AlarmId(first + k), RaisedAt(t, k), scenarioId, k == 0))
    && |p.children| == |effects| - 1
    && (forall k :: 0 <= k < |p.children| ==> p.children[k] == AlarmId(first + k + 1))
    && p.lastAt == RaisedAt(t, |effects| - 1)
  }

  lemma TellsOneMore(p: Progress, effect: Effect, first: nat, effects: seq<Effect>, t: Timing, scenarioId: string)
    requires Tells(p, effects, first, t, scenarioId)
    ensures var at := p.lastAt + Delay(t.baseMs, t.jitterMs, t.draws(|p.children|));
            var id := AlarmId(first + |effects|);
            Tells(Progress(p.alarms + [AlarmOf(effect, id, at, scenarioId, false)], p.children + [id], at),
                  effects + [effect], first, t, scenarioId)
  {
    hide AlarmId, Delay;
    assert RaisedAt(t, |effects|) == RaisedAt(t, |effects| - 1) + Delay(t.baseMs, t.jitterMs, t.draws(|effects| - 1));
  }

  method RaiseChild(ids: AlarmIds, t: Timing, scenarioId: string, p: Progress, effect: Effect, ghost first: nat,
                    ghost effects: seq<Effect>)
    returns (q: Progress)
    requires Tells(p, effects, first, t, scenarioId) && ids.next == first + |effects|
    modifies ids
    ensures Tells(q, effects + [effect], first, t, scenarioId) && ids.next == first + |effects| + 1
  {
    hide Tells;
    TellsOneMore(p, effect, first, effects, t, scenarioId);
    var at := p.lastAt + Delay(t.baseMs, t.jitterMs, t.draws(|p.children|));
    var id := ids.Next();
    q := Progress(p.alarms + [AlarmOf(effect, id, at, scenarioId, false)], p.children + [id], at);
  }

  /** All templates of the edge's relation, in order. */
  method FireEdge(ids: AlarmIds, t: Timing, scenarioId: string, fired: seq<Template>, target: string, p: Progress,
                  ghost first: nat, ghost effects: seq<Effect>)
    returns (q: Progress)
    requires Tells(p, effects, first, t, scenarioId) && ids.next == first + |effects|
    modifies ids
    ensures var all := effects + Raised(fired, target);
            Tells(q, all, first, t, scenarioId) && ids.next == first + |all|
  {
    hide Tells;
    q := p;
    ghost var now := effects;
    for i := 0 to |fired|
      invariant now == effects + Raised(fired[..i], target)
      invariant Tells(q, now, first, t, scenarioId) && ids.next == first + |now|
    {
      var effect := Effect(target, fired[i].effectAlarmType);
      q := RaiseChild(ids, t, scenarioId, q, effect, first, now);
      now := now + [effect];
      assert Raised(fired[..i + 1], target) == Raised(fired[..i], target) + [effect];
    }
    assert fired[..|fired|] == fired;
  }

  /** The walk's queue: objects that alarmed and are not expanded yet. */
  datatype Queue = Queue(frontier: seq<string>, emittedOn: set<string>)

  /** One node's out-edges. Targets alarming for the first time join the queue. */
  method ExpandNode(ids: AlarmIds, t: Timing, scenarioId: string, byRelation: map<string, seq<Template>>,
                    allowed: set<string>, edges: seq<OutEdge>, p: Progress, queue: Queue, ghost rules: Rules,
                    ghost first: nat, ghost effects: seq<Effect>)
    returns (q: Progress, r: Queue)
    requires Serves(byRelation, allowed, rules)
    requires Tells(p, effects, first, t, scenarioId) && ids.next == first + |effects|
    requires queue.emittedOn == Elements(Order(effects))
    modifies ids
    ensures var all := effects + EffectsAlong(rules, edges);
            && Tells(q, all, first, t, scenarioId) && ids.next == first + |all|
            && r.emittedOn == Elements(Order(all))
            && Order(effects) <= Order(all) && r.frontier == queue.frontier + Order(all)[|Order(effects)|..]
  {
    hide Tells, Order, Serves, Firing, EdgeEffects, FirstOccurrences;
    q, r := p, queue;
    ghost var now := effects;
    ghost var joined: seq<string> := [];
    assert effects + [] == effects;
    assert Order(effects) + [] == Order(effects);
    for i := 0 to |edges|
      invariant now == effects + EffectsAlong(rules, edges[..i])
      invariant Tells(q, now, first, t, scenarioId) && ids.next == first + |now|
      invariant r.emittedOn == Elements(Order(now))
      invariant Order(now) == Order(effects) + joined && r.frontier == queue.frontier + joined
    {
      assert edges[..i + 1][..i] == edges[..i];
      var edge := edges[i];
      EdgeExtendsOrder(rules, now, edge);
      FiredTemplates(byRelation, allowed, rules, edge);
      if edge.relation.Some? && edge.relation.value in allowed && edge.relation.value in byRelation {
        q := FireEdge(ids, t, scenarioId, byRelation[edge.relation.value], edge.target, q, first, now);
        if edge.target !in r.emittedOn {
          r := Queue(r.frontier + [edge.target], r.emittedOn + {edge.target});
          joined := joined + [edge.target];
        }
      }
      ghost var before := now;
      now := now + EdgeEffects(rules, edge);
      assert before + [] == before;
      ElementsAppend(Order(before), edge.target);
    }
    assert edges[..|edges|] == edges;
  }

  /** The two lookups built before the walk answer for the rules. */
  ghost predicate Serves(byRelation: map<string, seq<Template>>, allowed: set<string>, rules: Rules) {
    && (forall r :: r in byRelation <==> ForRelation(rules.templates, r) != [])
    && (forall r :: r in byRelation ==> byRelation[r] == ForRelation(rules.templates, r))
    && allowed == if rules.relations.Some? then Elements(rules.relations.value) else byRelation.Keys
  }

  lemma FiredTemplates(byRelation: map<string, seq<Template>>, allowed: set<string>, rules: Rules, edge: OutEdge)
    requires Serves(byRelation, allowed, rules)
    ensures var fires := edge.relation.Some? && edge.relation.value in allowed && edge.relation.value in byRelation;
            var ts := if fires then byRelation[edge.relation.value] else [];
            && (fires ==> ts != [])
            && EdgeEffects(rules, edge) == Raised(ts, edge.target)
            && (!fires ==> EdgeEffects(rules, edge) == [])
            && |EdgeEffects(rules, edge)| == |ts|
  {
    hide ForRelation;
  }

  // ---- Which nodes are expanded ----

  /** One hop of the cascade: an edge along which some template fires. */
  ghost predicate Hop(g: CausalGraph, rules: Rules, a: string, b: string) {
    HopAlong(rules, Out(g, a), b)
  }

  ghost predicate HopAlong(rules: Rules, edges: seq<OutEdge>, b: string) {
    exists i :: 0 <= i < |edges| && edges[i].target == b && EdgeEffects(rules, edges[i]) != []
  }

  lemma {:induction false} AlongRaisesTargets(rules: Rules, edges: seq<OutEdge>, b: string)
    ensures b in Objects(EffectsAlong(rules, edges)) <==> HopAlong(rules, edges, b)
  {
    hide Firing;
    if edges != [] {
      var front, last := edges[..|edges| - 1], edges[|edges| - 1];
      AlongRaisesTargets(rules, front, b);
      assert Objects(EffectsAlong(rules, edges)) ==
          Objects(EffectsAlong(rules, front)) + Objects(EdgeEffects(rules, last));
      if HopAlong(rules, front, b) {
        var i :| 0 <= i < |front| && front[i].target == b && EdgeEffects(rules, front[i]) != [];
        assert edges[i] == front[i];
      }
      if EdgeEffects(rules, last) != [] {
        assert Objects(EdgeEffects(rules, last))[0] == last.target;
      }
    }
  }

  ghost predicate SomeHop(g: CausalGraph, rules: Rules, nodes: seq<string>, b: string) {
    exists i :: 0 <= i < |nodes| && Hop(g, rules, nodes[i], b)
  }

  lemma {:induction false} FiringsRaiseTargets(g: CausalGraph, rules: Rules, nodes: seq<string>, b: string)
    ensures b in Objects(Firings(g, rules, nodes)) <==> SomeHop(g, rules, nodes, b)
  {
    hide EffectsAlong, HopAlong;
    if nodes != [] {
      var front, last := nodes[..|nodes| - 1], nodes[|nodes| - 1];
      FiringsRaiseTargets(g, rules, front, b);
      AlongRaisesTargets(rules, Out(g, last), b);
      assert Objects(Firings(g, rules, nodes)) ==
          Objects(Firings(g, rules, front)) + Objects(EffectsAlong(rules, Out(g, last)));
      if SomeHop(g, rules, front, b) {
        var i :| 0 <= i < |front| && Hop(g, rules, front[i], b);
        assert nodes[i] == front[i];
      }
    }
  }

  function AllEffects(g: CausalGraph, rules: Rules, root: Effect, expanded: seq<string>): seq<Effect> {
    [root] + Firings(g, rules, expanded)
  }

  /** The walk: the root, then its co-members, then every other object in the order of first alarms,
      each after it alarmed. */
  ghost predicate IsWalk(g: CausalGraph, rules: Rules, root: Effect, members: seq<string>, expanded: seq<string>,
                         frontier: seq<string>) {
    var order := Order(AllEffects(g, rules, root, expanded));
    && order != [] && order[0] == root.managedObjectId
    && expanded + frontier == [root.managedObjectId] + members + order[1..]
    && forall i :: |members| < i < |expanded| ==> SomeHop(g, rules, expanded[..i], expanded[i])
  }

  lemma WalkStarts(g: CausalGraph, rules: Rules, root: Effect, members: seq<string>)
    ensures IsWalk(g, rules, root, members, [], [root.managedObjectId] + members)
  {
    var effects := AllEffects(g, rules, root, []);
    assert effects == [root];
    assert Objects(effects) == [] + [root.managedObjectId];
    OccurrenceAppend([], root.managedObjectId);
    assert Order(effects) == [root.managedObjectId];
  }

  lemma WalkAdvances(g: CausalGraph, rules: Rules, root: Effect, members: seq<string>, expanded: seq<string>,
                     frontier: seq<string>, after: seq<string>)
    requires IsWalk(g, rules, root, members, expanded, frontier) && frontier != []
    requires var before := Order(AllEffects(g, rules, root, expanded));
             var now := Order(AllEffects(g, rules, root, expanded + [frontier[0]]));
             before <= now && after == frontier[1..] + now[|before|..]
    ensures IsWalk(g, rules, root, members, expanded + [frontier[0]], after)
  {
    hide Firings, Order, SomeHop;
    var node, e := frontier[0], expanded + [frontier[0]];
    var order, now := Order(AllEffects(g, rules, root, expanded)), Order(AllEffects(g, rules, root, e));
    assert now == order + now[|order|..];
    assert now[1..] == order[1..] + now[|order|..];
    assert frontier == [node] + frontier[1..];
    assert e + after == expanded + frontier + now[|order|..];
    forall i | |members| < i < |e| ensures SomeHop(g, rules, e[..i], e[i]) {
      assert e[..i] == expanded[..i];
      if i == |expanded| {
        assert (expanded + frontier)[i] == node;
        assert order[i - |members|] == node;
        RaisedAfterTheRoot(g, rules, root, expanded, i - |members|);
        assert expanded[..i] == expanded;
      }
    }
  }

  lemma RaisedAfterTheRoot(g: CausalGraph, rules: Rules, root: Effect, expanded: seq<string>, k: nat)
    requires var order := Order(AllEffects(g, rules, root, expanded));
             0 < k < |order| && order[0] == root.managedObjectId
    ensures SomeHop(g, rules, expanded, Order(AllEffects(g, rules, root, expanded))[k])
  {
    hide Firings, FirstOccurrences;
    var effects := AllEffects(g, rules, root, expanded);
    var b := Order(effects)[k];
    assert b in Elements(Order(effects));
    assert b in Objects(effects) && b != root.managedObjectId;
    var j :| 0 <= j < |effects| && Objects(effects)[j] == b;
    assert Objects(Firings(g, rules, expanded))[j - 1] == b;
    FiringsRaiseTargets(g, rules, expanded, b);
  }

  /** Co-members of the root: the targets of its edges of the scenario's co-failure relation. */
  function CoMembers(edges: seq<OutEdge>, relation: Option<string>): seq<string> {
    if relation.None? || relation.value == "" || edges == [] then []
    else
      var front, last := edges[..|edges| - 1], edges[|edges| - 1];
      CoMembers(front, relation) + if last.relation == relation then [last.target] else []
  }

  lemma {:induction false} CoMembersAreTargets(edges: seq<OutEdge>, relation: Option<string>, m: string)
    ensures m in CoMembers(edges, relation) ==> exists i :: 0 <= i < |edges| && edges[i].target == m
  {
    if edges != [] {
      var front := edges[..|edges| - 1];
      CoMembersAreTargets(front, relation, m);
      if i :| 0 <= i < |front| && front[i].target == m { assert edges[i] == front[i]; }
    }
  }

  /** The targets of all the root's edges of the relation, each in its place. */
  lemma {:induction false} CoMembersAre(edges: seq<OutEdge>, relation: string) returns (picks: seq<nat>)
    requires relation != ""
    ensures Picks(picks, |edges|, EdgesOf(edges, relation)) && |CoMembers(edges, Some(relation))| == |picks|
    ensures forall k :: 0 <= k < |picks| ==> CoMembers(edges, Some(relation))[k] == edges[picks[k]].target
  {
    if edges == [] {
      picks := [];
    } else {
      var n := |edges| - 1;
      var front := edges[..n];
      var prior := CoMembersAre(front, relation);
      picks := PicksOneMore(prior, n, EdgesOf(front, relation), EdgesOf(edges, relation));
      var last := if edges[n].relation == Some(relation) then [edges[n].target] else [];
      assert CoMembers(edges, Some(relation)) == CoMembers(front, Some(relation)) + last;
      hide CoMembers, EdgesOf;
      assert forall k :: 0 <= k < |prior| ==> prior[k] < n;
    }
  }

  /** Without a relation, or with an empty one, there are none. */
  lemma NoCoMembers(edges: seq<OutEdge>)
    ensures CoMembers(edges, None) == [] && CoMembers(edges, Some("")) == []
  {
  }

  ghost function EdgesOf(edges: seq<OutEdge>, relation: string): nat -> bool {
    (i: nat) => i < |edges| && edges[i].relation == Some(relation)
  }

  method FindCoMembers(edges: seq<OutEdge>, relation: Option<string>) returns (members: seq<string>)
    ensures members == CoMembers(edges, relation)
  {
    members := [];
    if relation.Some? && relation.value != "" {
      for i := 0 to |edges|
        invariant members == CoMembers(edges[..i], relation)
      {
        assert edges[..i + 1][..i] == edges[..i];
        if edges[i].relation == relation { members := members + [edges[i].target]; }
      }
      assert edges[..|edges|] == edges;
    }
  }

  /** The label names the scenario, the root with its alarm, and the children. */
  ghost predicate IsLabelOf(truth: GroundTruthLabel, scenario: ScenarioDef, scenarioId: string, root: string,
                            p: Progress) {
    && truth.scenarioId == scenarioId && truth.scenarioType == scenario.scenarioType
    && p.alarms != [] && truth.rootCause == p.alarms[0].alarmId
    && truth.rootCauseManagedObjectId == root && truth.rootCauseAlarmType == scenario.rootAlarmType
    && truth.children == p.children
  }

  /** The cascade of one scenario instance from a node of the graph. */
  method Propagate(g: CausalGraph, templates: seq<Template>, scenario: ScenarioDef, root: string, scenarioId: string,
                   t: Timing, ids: AlarmIds)
    returns (p: Progress, truth: GroundTruthLabel, ghost expanded: seq<string>)
    requires IsDiGraph(g) && root in g
    modifies ids
    ensures var rules, rootEffect := Rules(templates, scenario.relations), Effect(root, scenario.rootAlarmType);
            && IsWalk(g, rules, rootEffect, CoMembers(g[root], scenario.coFailureRelation), expanded, [])
            && Tells(p, AllEffects(g, rules, rootEffect, expanded), old(ids.next), t, scenarioId)
            && IsLabelOf(truth, scenario, scenarioId, root, p)
            && ids.next == old(ids.next) + |p.alarms|
  {
    hide Order, Firings, EffectsAlong, ForRelation, Firing, Tells, IsWalk, FirstOccurrences;
    var byRelation := TemplatesByRelation(templates);
    var allowed := if scenario.relations.Some? then Elements(scenario.relations.value) else byRelation.Keys;
    ghost var rules := Rules(templates, scenario.relations);
    ghost var first := ids.next;
    var rootEffect := Effect(root, scenario.rootAlarmType);
    ghost var effects := [rootEffect];
    var rootId := ids.Next();
    p := Progress([AlarmOf(rootEffect, rootId, t.startAt, scenarioId, true)], [], t.startAt);
    TellsRoot(p, rootEffect, first, t, scenarioId);
    var members := FindCoMembers(g[root], scenario.coFailureRelation);
    var queue := Queue([root] + members, {root});
    expanded := [];
    StartOfWalk(g, rules, rootEffect, members);
    while queue.frontier != []
      invariant IsWalk(g, rules, rootEffect, members, expanded, queue.frontier)
      invariant effects == AllEffects(g, rules, rootEffect, expanded)
      invariant Tells(p, effects, first, t, scenarioId) && ids.next == first + |effects|
      invariant queue.emittedOn == Elements(Order(effects))
      invariant Elements(queue.frontier) <= g.Keys && queue.emittedOn <= g.Keys
      decreases g.Keys - queue.emittedOn, |queue.frontier|
    {
      var node := queue.frontier[0];
      assert node in Elements(queue.frontier);
      var rest := Queue(queue.frontier[1..], queue.emittedOn);
      ghost var before, was := effects, queue.frontier;
      p, queue := ExpandNode(ids, t, scenarioId, byRelation, allowed, g[node], p, rest, rules, first, effects);
      effects := effects + EffectsAlong(rules, g[node]);
      ExpandsTo(g, rules, rootEffect, expanded, node);
      WalkAdvances(g, rules, rootEffect, members, expanded, was, queue.frontier);
      expanded := expanded + [node];
      QueueMoves(g, rules, node, before, was[1..], queue.frontier);
    }
    TellsLength(p, effects, first, t, scenarioId);
    truth := GroundTruthLabel(scenarioId, scenario.scenarioType, rootId, root, scenario.rootAlarmType, p.children);
  }

  lemma TellsLength(p: Progress, effects: seq<Effect>, first: nat, t: Timing, scenarioId: string)
    requires Tells(p, effects, first, t, scenarioId)
    ensures |p.alarms| == |effects| > 0 && p.alarms[0].alarmId == AlarmId(first)
  {
  }

  lemma TellsRoot(p: Progress, root: Effect, first: nat, t: Timing, scenarioId: string)
    requires p == Progress([AlarmOf(root, AlarmId(first), t.startAt, scenarioId, true)], [], t.startAt)
    ensures Tells(p, [root], first, t, scenarioId)
  {
  }

  lemma StartOfWalk(g: CausalGraph, rules: Rules, root: Effect, members: seq<string>)
    requires IsDiGraph(g) && root.managedObjectId in g
    requires exists relation :: members == CoMembers(g[root.managedObjectId], relation)
    ensures IsWalk(g, rules, root, members, [], [root.managedObjectId] + members)
    ensures AllEffects(g, rules, root, []) == [root]
    ensures Elements(Order([root])) == {root.managedObjectId}
    ensures Elements([root.managedObjectId] + members) <= g.Keys
  {
    var relation :| members == CoMembers(g[root.managedObjectId], relation);
    WalkStarts(g, rules, root, members);
    assert Objects([root]) == [root.managedObjectId];
    forall m | m in members ensures m in g {
      CoMembersAreTargets(g[root.managedObjectId], relation, m);
    }
  }

  lemma ExpandsTo(g: CausalGraph, rules: Rules, root: Effect, expanded: seq<string>, node: string)
    requires node in g
    ensures AllEffects(g, rules, root, expanded + [node]) ==
      AllEffects(g, rules, root, expanded) + EffectsAlong(rules, g[node])
  {
    hide EffectsAlong;
    assert (expanded + [node])[..|expanded|] == expanded;
  }

  /** The queue stays within the graph, and it shrinks unless a new object alarmed. */
  lemma QueueMoves(g: CausalGraph, rules: Rules, node: string, effects: seq<Effect>, rest: seq<string>,
                   after: seq<string>)
    requires IsDiGraph(g) && node in g && Elements(Order(effects)) + Elements(rest) <= g.Keys
    requires var all := effects + EffectsAlong(rules, g[node]);
             Order(effects) <= Order(all) && after == rest + Order(all)[|Order(effects)|..]
    ensures var all := effects + EffectsAlong(rules, g[node]);
            && Elements(Order(all)) <= g.Keys && Elements(after) <= g.Keys
            && Elements(Order(effects)) <= Elements(Order(all))
            && (Elements(Order(all)) == Elements(Order(effects)) ==> after == rest)
  {
    hide EffectsAlong, FirstOccurrences;
    var raised := EffectsAlong(rules, g[node]);
    var all := effects + raised;
    var before, now := Order(effects), Order(all);
    assert Objects(all) == Objects(effects) + Objects(raised);
    forall b | b in Objects(raised) ensures b in g {
      AlongRaisesTargets(rules, g[node], b);
    }
    assert Elements(now) == Elements(Objects(all)) && Elements(before) == Elements(Objects(effects));
    assert now == before + now[|before|..];
    if |now| > |before| {
      assert now[|before|] in Elements(now);
      assert now[|before|] !in Elements(before);
    }
  }
}
