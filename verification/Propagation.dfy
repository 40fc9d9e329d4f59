/** Forward propagation of a fault over a typed graph (codebook_generator/propagation.py). */
module Propagation {
  import opened Common
  import opened Reachability
  import opened ManagedObjectIds

  datatype FaultOriginType = FaultOriginType(objectType: string, originAlarmType: Option<string>)

  datatype Endpoint = Endpoint(objectType: string, alarmType: string)

  datatype Template = Template(edgeType: string, trigger: Endpoint, effect: Endpoint)

  datatype NodeDto = NodeDto(managedObjectId: string, objectType: string)

  datatype TraversalEdge = TraversalEdge(source: string, target: string, relation: string)

  /** An alarm on an object: both a signature item and a (node, alarm state) pair of the frontier. */
  datatype Symptom = Symptom(alarmType: string, managedObjectId: string)

  datatype Arc = Arc(target: string, relation: string)

  /** A directed multigraph with typed nodes; each adjacency list groups parallel arcs by target, in
      the order the targets first appeared. */
  datatype TypedGraph = TypedGraph(types: map<string, string>, out: map<string, seq<Arc>>) {
    ghost predicate WellFormed() {
      && out.Keys == types.Keys
      && forall n, a :: n in out && a in out[n] ==> a.target in types
    }

    function OutArcs(n: string): seq<Arc> {
      if n in out then out[n] else []
    }
  }

  // ---- Building the closure graph ----

  function InferType(id: string): string {
    id[..IndexOf(id, ':')]
  }

  function InsertArc(arcs: seq<Arc>, arc: Arc): (r: seq<Arc>)
    ensures multiset(r) == multiset(arcs) + multiset{arc}
  {
    if arcs == [] || arcs[|arcs|-1].target == arc.target || forall a :: a in arcs ==> a.target != arc.target
    then arcs + [arc]
    else
      var front, last := arcs[..|arcs|-1], arcs[|arcs|-1];
      assert arcs == front + [last];
      InsertArc(front, arc) + [last]
  }

  /** A new arc goes right behind the last one to its target, and to the end when there is none. */
  lemma {:induction false} InsertArcPlaces(arcs: seq<Arc>, arc: Arc) returns (k: nat)
    ensures k <= |arcs| && InsertArc(arcs, arc) == arcs[..k] + [arc] + arcs[k..]
    ensures forall i :: k <= i < |arcs| ==> arcs[i].target != arc.target
    ensures (k > 0 && arcs[k - 1].target == arc.target) ||
            (k == |arcs| && forall i :: 0 <= i < |arcs| ==> arcs[i].target != arc.target)
  {
    if arcs == [] || arcs[|arcs|-1].target == arc.target || forall a :: a in arcs ==> a.target != arc.target {
      k := |arcs|;
      assert arcs[..k] + [arc] + arcs[k..] == arcs + [arc];
    } else {
      var front, last := arcs[..|arcs|-1], arcs[|arcs|-1];
      assert arcs == front + [last];
      k := InsertArcPlaces(front, arc);
      assert InsertArc(arcs, arc) == InsertArc(front, arc) + [last];
      hide InsertArc;
      SplitGrows(front, k, arc, last);
    }
  }

  lemma SplitGrows(front: seq<Arc>, k: nat, arc: Arc, last: Arc)
    requires k <= |front|
    ensures var arcs := front + [last]; front[..k] + [arc] + front[k..] + [last] == arcs[..k] + [arc] + arcs[k..]
  {
  }

  /** Arcs as the adjacency lists hold them: those to one target side by side. */
  function Regrouped(arcs: seq<Arc>): (r: seq<Arc>)
    ensures multiset(r) == multiset(arcs)
  {
    if arcs == [] then []
    else
      var front, last := arcs[..|arcs|-1], arcs[|arcs|-1];
      assert arcs == front + [last];
      InsertArc(Regrouped(front), last)
  }

  function AddNode(g: TypedGraph, id: string, objectType: string): TypedGraph {
    TypedGraph(g.types[id := objectType], if id in g.out then g.out else g.out[id := []])
  }

  function ArcsFrom(edges: seq<TraversalEdge>, source: string): seq<Arc> {
    if edges == [] then []
    else
      var last := edges[|edges|-1];
      ArcsFrom(edges[..|edges|-1], source) + if last.source == source then [Arc(last.target, last.relation)] else []
  }

  /** One arc for each occurrence of an edge out of the source. */
  lemma {:induction false} ArcsCounted(edges: seq<TraversalEdge>, source: string, arc: Arc)
    ensures multiset(ArcsFrom(edges, source))[arc] == multiset(edges)[TraversalEdge(source, arc.target, arc.relation)]
  {
    if edges != [] {
      var front, last := edges[..|edges|-1], edges[|edges|-1];
      assert edges == front + [last];
      ArcsCounted(front, source, arc);
    }
  }

  lemma {:induction false} ArcsConcat(a: seq<TraversalEdge>, b: seq<TraversalEdge>, source: string)
    ensures ArcsFrom(a + b, source) == ArcsFrom(a, source) + ArcsFrom(b, source)
  {
    if b == [] {
      assert a + b == a;
    } else {
      var front, last := b[..|b|-1], b[|b|-1];
      ArcsConcat(a, front, source);
      assert (a + b)[..|a + b|-1] == a + front;
      ConcatAssociates(ArcsFrom(a, source), ArcsFrom(front, source),
                       if last.source == source then [Arc(last.target, last.relation)] else []);
    }
  }

  /** What stands before the first colon, or the whole id when there is none. */
  lemma InferTypeIs(id: string)
    ensures ':' !in InferType(id)
    ensures InferType(id) == id || exists rest :: id == InferType(id) + ":" + rest
  {
    var k := IndexOf(id, ':');
    if k < |id| { assert id == InferType(id) + ":" + id[k + 1..]; }
  }

  /** The type listed last for an id, else the origin's, else the prefix of the id. */
  function TypeOf(origin: NodeDto, reached: seq<NodeDto>, id: string): string {
    if reached == [] then (if id == origin.managedObjectId then origin.objectType else InferType(id))
    else if reached[|reached|-1].managedObjectId == id then reached[|reached|-1].objectType
    else TypeOf(origin, reached[..|reached|-1], id)
  }

  ghost predicate IsLastEntry(reached: seq<NodeDto>, i: nat, id: string) {
    && i < |reached| && reached[i].managedObjectId == id
    && (forall j :: i < j < |reached| ==> reached[j].managedObjectId != id)
  }

  /** A node has the type of its last entry... */
  lemma {:induction false} TypeOfListed(origin: NodeDto, reached: seq<NodeDto>, i: nat, id: string)
    requires IsLastEntry(reached, i, id)
    ensures TypeOf(origin, reached, id) == reached[i].objectType
  {
    if i < |reached| - 1 { TypeOfListed(origin, reached[..|reached|-1], i, id); }
  }

  /** ...and without an entry the origin's type if it is the origin, and else the one its id begins with. */
  lemma {:induction false} TypeOfUnlisted(origin: NodeDto, reached: seq<NodeDto>, id: string)
    requires forall i :: 0 <= i < |reached| ==> reached[i].managedObjectId != id
    ensures TypeOf(origin, reached, id) == if id == origin.managedObjectId then origin.objectType else InferType(id)
  {
    if reached != [] { TypeOfUnlisted(origin, reached[..|reached|-1], id); }
  }

  method AddReached(origin: NodeDto, reached: seq<NodeDto>) returns (g: TypedGraph)
    ensures g.WellFormed()
    ensures origin.managedObjectId in g.types
    ensures forall k :: 0 <= k < |reached| ==> reached[k].managedObjectId in g.types
    ensures forall id :: id in g.types ==> g.types[id] == TypeOf(origin, reached, id)
    ensures forall id :: id !in g.types ==> TypeOf(origin, reached, id) == InferType(id)
    ensures forall n :: n in g.out ==> g.out[n] == []
  {
    hide InferType;
    g := AddNode(TypedGraph(map[], map[]), origin.managedObjectId, origin.objectType);
    for i := 0 to |reached|
      invariant g.WellFormed()
      invariant origin.managedObjectId in g.types
      invariant forall k :: 0 <= k < i ==> reached[k].managedObjectId in g.types
      invariant forall id :: id in g.types ==> g.types[id] == TypeOf(origin, reached[..i], id)
      invariant forall id :: id !in g.types ==> TypeOf(origin, reached[..i], id) == InferType(id)
      invariant forall n :: n in g.out ==> g.out[n] == []
    {
      assert reached[..i+1][..i] == reached[..i];
      g := AddNode(g, reached[i].managedObjectId, reached[i].objectType);
    }
    assert reached[..|reached|] == reached;
  }

  /** The graph carries exactly the first `n` edges as arcs between typed nodes. */
  ghost predicate Carries(g: TypedGraph, origin: NodeDto, reached: seq<NodeDto>, edges: seq<TraversalEdge>, n: nat)
    requires n <= |edges|
  {
    && g.WellFormed()
    && (forall id :: id in g.types ==> g.types[id] == TypeOf(origin, reached, id))
    && (forall id :: id !in g.types ==> TypeOf(origin, reached, id) == InferType(id))
    && (forall i :: 0 <= i < n ==> edges[i].source in g.types && edges[i].target in g.types)
    && (forall id :: g.OutArcs(id) == Regrouped(ArcsFrom(edges[..n], id)))
  }

  lemma CarriesUntypedNode(g: TypedGraph, origin: NodeDto, reached: seq<NodeDto>, edges: seq<TraversalEdge>, n: nat,
                           id: string)
    requires n <= |edges| && Carries(g, origin, reached, edges, n) && id !in g.types
    ensures Carries(AddNode(g, id, InferType(id)), origin, reached, edges, n)
  {
    hide InferType, TypeOf, ArcsFrom;
    var grown := AddNode(g, id, InferType(id));
    assert forall x :: grown.OutArcs(x) == g.OutArcs(x);
  }

  lemma CarriesOneMore(g: TypedGraph, origin: NodeDto, reached: seq<NodeDto>, edges: seq<TraversalEdge>, n: nat)
    requires n < |edges| && Carries(g, origin, reached, edges, n)
    requires edges[n].source in g.types && edges[n].target in g.types
    ensures var e := edges[n];
      Carries(g.(out := g.out[e.source := InsertArc(g.out[e.source], Arc(e.target, e.relation))]), origin, reached,
          edges, n + 1)
  {
    var e := edges[n];
    var arc := Arc(e.target, e.relation);
    var arcs := InsertArc(g.out[e.source], arc);
    var grown := g.(out := g.out[e.source := arcs]);
    hide InsertArc;
    assert edges[..n+1][..n] == edges[..n];
    assert grown.WellFormed() by {
      forall a | a in arcs ensures a.target in g.types { assert a in multiset(arcs); }
    }
    forall id ensures grown.OutArcs(id) == Regrouped(ArcsFrom(edges[..n+1], id)) {
      assert g.OutArcs(id) == Regrouped(ArcsFrom(edges[..n], id));
      if id == e.source {
        assert ArcsFrom(edges[..n+1], id) == ArcsFrom(edges[..n], id) + [arc];
        assert (ArcsFrom(edges[..n], id) + [arc])[..|ArcsFrom(edges[..n], id)|] == ArcsFrom(edges[..n], id);
      } else {
        assert ArcsFrom(edges[..n+1], id) == ArcsFrom(edges[..n], id);
      }
    }
  }

  /** Every traversed edge becomes one arc between typed nodes. */
  method BuildClosureGraph(origin: NodeDto, reached: seq<NodeDto>, edges: seq<TraversalEdge>) returns (g: TypedGraph)
    ensures g.WellFormed() && origin.managedObjectId in g.types
    ensures forall n :: n in reached ==> n.managedObjectId in g.types
    ensures Carries(g, origin, reached, edges, |edges|)
  {
    g := AddReached(origin, reached);
    ghost var start := g.types.Keys;
    for i := 0 to |edges|
      invariant Carries(g, origin, reached, edges, i)
      invariant start <= g.types.Keys
    {
      var edge := edges[i];
      if edge.source !in g.types {
        CarriesUntypedNode(g, origin, reached, edges, i, edge.source);
        g := AddNode(g, edge.source, InferType(edge.source));
      }
      if edge.target !in g.types {
        CarriesUntypedNode(g, origin, reached, edges, i, edge.target);
        g := AddNode(g, edge.target, InferType(edge.target));
      }
      CarriesOneMore(g, origin, reached, edges, i);
      g := g.(out := g.out[edge.source := InsertArc(g.out[edge.source], Arc(edge.target, edge.relation))]);
    }
  }

  // ---- What fires ----

  predicate Matches(g: TypedGraph, t: Template, from: Symptom, arc: Arc)
    requires from.managedObjectId in g.types && arc.target in g.types
  {
    && t.edgeType == arc.relation
    && t.trigger.objectType == g.types[from.managedObjectId]
    && t.trigger.alarmType == from.alarmType
    && t.effect.objectType == g.types[arc.target]
  }

  /** One template firing along one arc. */
  ghost predicate Fires(g: TypedGraph, templates: seq<Template>, from: Symptom, to: Symptom) {
    g.WellFormed() && from.managedObjectId in g.out &&
    exists arc, t :: arc in g.out[from.managedObjectId] && t in templates && Matches(g, t, from, arc) &&
                     to == Symptom(t.effect.alarmType, arc.target)
  }

  ghost function Firing(g: TypedGraph, templates: seq<Template>): (Symptom, Symptom) -> bool {
    (a, b) => Fires(g, templates, a, b)
  }

  function OriginAlarmType(objectType: string, types: seq<FaultOriginType>): Result<string, string> {
    if types == [] then Err("no originAlarmType authored")
    else if types[0].objectType == objectType && types[0].originAlarmType.Some? && types[0].originAlarmType.value != ""
    then Ok(types[0].originAlarmType.value)
    else OriginAlarmType(objectType, types[1..])
  }

  /** The first entry of the type that gives an alarm gives `alarm`. */
  ghost predicate IsFirstAlarm(objectType: string, types: seq<FaultOriginType>, i: nat, alarm: string) {
    && i < |types| && types[i].objectType == objectType && types[i].originAlarmType == Some(alarm) && alarm != ""
    && (forall j :: 0 <= j < i && types[j].objectType == objectType ==> types[j].originAlarmType in {None, Some("")})
  }

  /** No entry of the type gives an alarm. */
  ghost predicate HasNoAlarm(objectType: string, types: seq<FaultOriginType>) {
    forall j :: 0 <= j < |types| && types[j].objectType == objectType ==> types[j].originAlarmType in {None, Some("")}
  }

  lemma {:induction false} OriginAlarmExactly(objectType: string, types: seq<FaultOriginType>, alarm: string)
    ensures OriginAlarmType(objectType, types) == Ok(alarm) <==>
      exists i: nat :: IsFirstAlarm(objectType, types, i, alarm)
    ensures OriginAlarmType(objectType, types).Err? <==> HasNoAlarm(objectType, types)
  {
    if types != [] {
      var rest := types[1..];
      OriginAlarmExactly(objectType, rest, alarm);
      assert forall j :: 0 < j < |types| ==> types[j] == rest[j - 1];
      if i: nat :| IsFirstAlarm(objectType, types, i, alarm) {
        if i > 0 { assert IsFirstAlarm(objectType, rest, i - 1, alarm); }
      }
      if i: nat :| IsFirstAlarm(objectType, rest, i, alarm) {
        if OriginAlarmType(objectType, types) == OriginAlarmType(objectType, rest) &&
            !(types[0].objectType == objectType && types[0].originAlarmType !in {None, Some("")}) {
          assert IsFirstAlarm(objectType, types, i + 1, alarm);
        }
      }
      if types[0].objectType == objectType && types[0].originAlarmType == Some(alarm) && alarm != "" {
        assert IsFirstAlarm(objectType, types, 0, alarm);
      }
    }
  }

  // ---- Breadth-first order ----

  /** Signature `sig` with the level of each item; the first `k` items have been expanded. */
  ghost predicate Levelled(step: (Symptom, Symptom) -> bool, sig: seq<Symptom>, level: seq<nat>, k: nat) {
    && 0 < |sig| == |level| && k <= |sig| && NoDuplicates(sig) && level[0] == 0
    && (forall j :: 0 <= j < |sig| ==> ReachesIn(step, sig[0], sig[j], level[j]))
    && (forall i, j :: 0 <= i < j < |sig| ==> level[i] <= level[j])
    && (k < |sig| ==> level[|sig|-1] <= level[k] + 1)
    && (forall i, q :: 0 <= i < k && step(sig[i], q) ==> Covered(sig, level, q, level[i] + 1))
  }

  ghost predicate Covered(sig: seq<Symptom>, level: seq<nat>, q: Symptom, n: nat)
    requires |sig| == |level|
  {
    exists j :: 0 <= j < |sig| && sig[j] == q && level[j] <= n
  }

  /** Every item of the signature is at its shortest depth from the first. */
  ghost predicate InDepthOrder(step: (Symptom, Symptom) -> bool, sig: seq<Symptom>) {
    forall i, j, m, n ::
        0 <= i < j < |sig| && IsDepth(step, sig[0], sig[i], m) && IsDepth(step, sig[0], sig[j], n) ==> m <= n
  }

  lemma CoveredGrows(sig: seq<Symptom>, level: seq<nat>, q: Symptom, n: nat, s: Symptom, l: nat)
    requires |sig| == |level| && Covered(sig, level, q, n)
    ensures Covered(sig + [s], level + [l], q, n)
  {
    var j :| 0 <= j < |sig| && sig[j] == q && level[j] <= n;
    assert (sig + [s])[j] == q && (level + [l])[j] <= n;
  }

  lemma EmitNew(step: (Symptom, Symptom) -> bool, sig: seq<Symptom>, level: seq<nat>, k: nat, q: Symptom)
    requires Levelled(step, sig, level, k) && k < |sig| && step(sig[k], q) && q !in sig
    ensures Levelled(step, sig + [q], level + [level[k] + 1], k)
    ensures Covered(sig + [q], level + [level[k] + 1], q, level[k] + 1)
  {
    var grown, levels := sig + [q], level + [level[k] + 1];
    ReachesInNext(step, sig[0], sig[k], q, level[k]);
    forall i, r | 0 <= i < k && step(grown[i], r) ensures Covered(grown, levels, r, levels[i] + 1) {
      CoveredGrows(sig, level, r, level[i] + 1, q, level[k] + 1);
    }
    forall j | 0 <= j < |grown| ensures ReachesIn(step, grown[0], grown[j], levels[j]) {
      if j < |sig| { assert grown[j] == sig[j] && levels[j] == level[j]; }
    }
    assert grown[|sig|] == q && levels[|sig|] == level[k] + 1;
  }

  lemma EmitSeen(step: (Symptom, Symptom) -> bool, sig: seq<Symptom>, level: seq<nat>, k: nat, q: Symptom)
    requires Levelled(step, sig, level, k) && k < |sig| && q in sig
    ensures Covered(sig, level, q, level[k] + 1)
  {
    var j :| 0 <= j < |sig| && sig[j] == q;
    assert level[j] <= level[|sig|-1];
  }

  lemma Expanded(step: (Symptom, Symptom) -> bool, sig: seq<Symptom>, level: seq<nat>, k: nat)
    requires Levelled(step, sig, level, k) && k < |sig|
    requires forall q :: step(sig[k], q) ==> Covered(sig, level, q, level[k] + 1)
    ensures Levelled(step, sig, level, k + 1)
  {
  }

  /** Once everything is expanded, levels are shortest depths and nothing reachable is missing. */
  lemma {:induction false} NothingNearer(step: (Symptom, Symptom) -> bool, sig: seq<Symptom>, level: seq<nat>,
                                         q: Symptom, n: nat)
    requires Levelled(step, sig, level, |sig|) && ReachesIn(step, sig[0], q, n)
    ensures Covered(sig, level, q, n)
    decreases n
  {
    if n == 0 {
      var p :| Joins(step, p, sig[0], q) && |p| == 1;
    } else {
      var p := ReachesInLast(step, sig[0], q, n - 1);
      NothingNearer(step, sig, level, p, n - 1);
      var i :| 0 <= i < |sig| && sig[i] == p && level[i] <= n - 1;
      assert Covered(sig, level, q, level[i] + 1);
    }
  }

  lemma LevelIsDepth(step: (Symptom, Symptom) -> bool, sig: seq<Symptom>, level: seq<nat>, i: nat, n: nat)
    requires Levelled(step, sig, level, |sig|) && i < |sig| && IsDepth(step, sig[0], sig[i], n)
    ensures n == level[i]
  {
    NothingNearer(step, sig, level, sig[i], n);
    assert ReachesIn(step, sig[0], sig[i], level[i]);
  }

  /** The finished signature is in depth order and is exactly what the seed reaches. */
  lemma Finished(step: (Symptom, Symptom) -> bool, sig: seq<Symptom>, level: seq<nat>)
    requires Levelled(step, sig, level, |sig|)
    ensures InDepthOrder(step, sig)
    ensures forall q :: q in sig <==> Reaches(step, sig[0], q)
  {
    forall i, j, m, n | 0 <= i < j < |sig| && IsDepth(step, sig[0], sig[i], m) && IsDepth(step, sig[0], sig[j], n)
      ensures m <= n
    {
      LevelIsDepth(step, sig, level, i, m);
      LevelIsDepth(step, sig, level, j, n);
    }
    forall q | Reaches(step, sig[0], q) ensures q in sig {
      var p :| Joins(step, p, sig[0], q);
      assert ReachesIn(step, sig[0], q, |p| - 1);
      NothingNearer(step, sig, level, q, |p| - 1);
    }
    forall q | q in sig ensures Reaches(step, sig[0], q) {
      var j :| 0 <= j < |sig| && sig[j] == q;
      assert ReachesIn(step, sig[0], sig[j], level[j]);
    }
  }

  // ---- The order of firing ----

  /** What the templates raise along one arc, in template order. */
  ghost function FiredAlong(g: TypedGraph, templates: seq<Template>, from: Symptom, arc: Arc): seq<Symptom> {
    if templates == [] then []
    else
      var last := templates[|templates|-1];
      var fires := from.managedObjectId in g.types && arc.target in g.types && Matches(g, last, from, arc);
      FiredAlong(g, templates[..|templates|-1], from, arc) +
        if fires then [Symptom(last.effect.alarmType, arc.target)] else []
  }

  /** Arc by arc. */
  ghost function FiredFrom(g: TypedGraph, templates: seq<Template>, from: Symptom, arcs: seq<Arc>): seq<Symptom> {
    if arcs == [] then []
    else FiredFrom(g, templates, from, arcs[..|arcs|-1]) + FiredAlong(g, templates, from, arcs[|arcs|-1])
  }

  /** Item by item: everything a signature raises. */
  ghost function Raised(g: TypedGraph, templates: seq<Template>, sig: seq<Symptom>): seq<Symptom> {
    if sig == [] then []
    else
      var last := sig[|sig|-1];
      Raised(g, templates, sig[..|sig|-1]) + FiredFrom(g, templates, last, g.OutArcs(last.managedObjectId))
  }

  /** The signature lists the seed and then what its own items raise, each when it is first raised. */
  ghost predicate InFiringOrder(g: TypedGraph, templates: seq<Template>, sig: seq<Symptom>) {
    sig != [] && sig == FirstOccurrences([sig[0]] + Raised(g, templates, sig))
  }

  lemma RaisedOneMore(g: TypedGraph, templates: seq<Template>, sig: seq<Symptom>, k: nat)
    requires k < |sig|
    ensures Raised(g, templates, sig[..k+1]) ==
      Raised(g, templates, sig[..k]) + FiredFrom(g, templates, sig[k], g.OutArcs(sig[k].managedObjectId))
  {
    assert sig[..k+1][..k] == sig[..k];
  }

  lemma {:induction false} RaisedGrows(g: TypedGraph, templates: seq<Template>, sig: seq<Symptom>, n: nat)
    requires n <= |sig|
    ensures Raised(g, templates, sig[..n]) <= Raised(g, templates, sig)
    decreases |sig| - n
  {
    hide FiredFrom;
    if n == |sig| {
      assert sig[..n] == sig;
    } else {
      RaisedGrows(g, templates, sig, n + 1);
      RaisedOneMore(g, templates, sig, n);
    }
  }

  /** Along one arc exactly the matching templates fire, each in its place. */
  lemma {:induction false} FiredAlongIs(g: TypedGraph, templates: seq<Template>, from: Symptom, arc: Arc)
    returns (picks: seq<nat>)
    requires from.managedObjectId in g.types && arc.target in g.types
    ensures Picks(picks, |templates|, (i: nat) => i < |templates| && Matches(g, templates[i], from, arc))
    ensures |FiredAlong(g, templates, from, arc)| == |picks|
    ensures forall k :: 0 <= k < |picks| ==>
      FiredAlong(g, templates, from, arc)[k] == Symptom(templates[picks[k]].effect.alarmType, arc.target)
  {
    hide Matches;
    if templates == [] {
      picks := [];
    } else {
      hide Picks;
      var n := |templates| - 1;
      var front := templates[..n];
      var prior := FiredAlongIs(g, front, from, arc);
      picks := PicksOneMore(prior, n, (i: nat) => i < |front| && Matches(g, front[i], from, arc),
                            (i: nat) => i < |templates| && Matches(g, templates[i], from, arc));
    }
  }

  lemma {:induction false} FiredFromConcat(g: TypedGraph, templates: seq<Template>, from: Symptom, a: seq<Arc>,
                                           b: seq<Arc>)
    ensures FiredFrom(g, templates, from, a + b) == FiredFrom(g, templates, from, a) + FiredFrom(g, templates, from, b)
  {
    hide FiredAlong;
    if b == [] {
      assert a + b == a;
    } else {
      var front, last := b[..|b|-1], b[|b|-1];
      FiredFromConcat(g, templates, from, a, front);
      assert (a + b)[..|a + b|-1] == a + front && (a + b)[|a + b|-1] == last;
      ConcatAssociates(FiredFrom(g, templates, from, a), FiredFrom(g, templates, from, front),
                       FiredAlong(g, templates, from, last));
    }
  }

  lemma {:induction false} RaisedConcat(g: TypedGraph, templates: seq<Template>, a: seq<Symptom>, b: seq<Symptom>)
    ensures Raised(g, templates, a + b) == Raised(g, templates, a) + Raised(g, templates, b)
  {
    hide FiredFrom;
    if b == [] {
      assert a + b == a;
    } else {
      var front, last := b[..|b|-1], b[|b|-1];
      RaisedConcat(g, templates, a, front);
      assert (a + b)[..|a + b|-1] == a + front && (a + b)[|a + b|-1] == last;
      ConcatAssociates(Raised(g, templates, a), Raised(g, templates, front),
                       FiredFrom(g, templates, last, g.OutArcs(last.managedObjectId)));
    }
  }

  lemma {:induction false} AlongHasFired(g: TypedGraph, templates: seq<Template>, from: Symptom, arc: Arc, t: Template)
    requires t in templates && from.managedObjectId in g.types && arc.target in g.types && Matches(g, t, from, arc)
    ensures Symptom(t.effect.alarmType, arc.target) in FiredAlong(g, templates, from, arc)
  {
    var front, last := templates[..|templates|-1], templates[|templates|-1];
    assert templates == front + [last];
    if t != last { AlongHasFired(g, front, from, arc, t); }
  }

  lemma {:induction false} FromHasFired(g: TypedGraph, templates: seq<Template>, from: Symptom, arcs: seq<Arc>,
                                        arc: Arc, q: Symptom)
    requires arc in arcs && q in FiredAlong(g, templates, from, arc)
    ensures q in FiredFrom(g, templates, from, arcs)
  {
    var front, last := arcs[..|arcs|-1], arcs[|arcs|-1];
    assert arcs == front + [last];
    if arc != last { FromHasFired(g, templates, from, front, arc, q); }
  }

  /** Whatever an item fires is raised. */
  lemma {:induction false} RaisedHasFired(g: TypedGraph, templates: seq<Template>, sig: seq<Symptom>, a: Symptom,
                                          b: Symptom)
    requires a in sig && Fires(g, templates, a, b)
    ensures b in Raised(g, templates, sig)
  {
    hide FiredFrom, FiredAlong, Matches;
    var front, last := sig[..|sig|-1], sig[|sig|-1];
    assert sig == front + [last];
    if a != last {
      RaisedHasFired(g, templates, front, a, b);
    } else {
      var arc, t :| arc in g.out[a.managedObjectId] && t in templates && Matches(g, t, a, arc) &&
                    b == Symptom(t.effect.alarmType, arc.target);
      AlongHasFired(g, templates, a, arc, t);
      FromHasFired(g, templates, a, g.OutArcs(a.managedObjectId), arc, b);
    }
  }

  // ---- The queue, which may hold duplicates ----

  /** The first occurrences in `queue` of what is not yet done. */
  function Pending(queue: seq<Symptom>, done: set<Symptom>): seq<Symptom> {
    if queue == [] then []
    else
      var front, last := Pending(queue[..|queue|-1], done), queue[|queue|-1];
      if last in done || last in front then front else front + [last]
  }

  /** Popping drops a pair already done, and otherwise takes the head of what is pending. */
  lemma {:induction false} PendingPop(queue: seq<Symptom>, done: set<Symptom>)
    requires queue != []
    ensures Pending(queue, done) ==
              if queue[0] in done then Pending(queue[1..], done)
              else [queue[0]] + Pending(queue[1..], done + {queue[0]})
    decreases |queue|
  {
    var front := queue[..|queue|-1];
    if |queue| > 1 {
      PendingPop(front, done);
      assert queue[1..][..|queue|-2] == front[1..];
    } else {
      assert queue[1..] == [];
    }
  }

  lemma PendingPush(queue: seq<Symptom>, done: set<Symptom>, q: Symptom)
    ensures Pending(queue + [q], done) ==
              if q in done || q in Pending(queue, done) then Pending(queue, done) else Pending(queue, done) + [q]
  {
    assert (queue + [q])[..|queue|] == queue;
  }

  /** The state of the search: `base` items count as processed, the rest of the signature is what
      the queue still holds, and item `k` is the one last expanded or being expanded. */
  ghost predicate Working(step: (Symptom, Symptom) -> bool, sig: seq<Symptom>, seen: set<Symptom>, queue: seq<Symptom>,
                          processed: set<Symptom>, level: seq<nat>, k: nat, base: nat) {
    && 0 < |sig| == |level| && k <= |sig| && NoDuplicates(sig)
    && Levelled(step, sig, level, k)
    && seen == Elements(sig)
    && base <= |sig| && processed == Elements(sig[..base])
    && Pending(queue, processed) == sig[base..]
    && (forall s :: s in queue ==> s in seen)
  }

  lemma WorkingStarts(step: (Symptom, Symptom) -> bool, seed: Symptom)
    ensures Working(step, [seed], {seed}, [seed], {}, [0], 0, 0)
  {
    ReachesInZero(step, seed);
    assert [seed][..0] == [] && [seed][0..] == [seed];
  }

  /** Popping a duplicate changes nothing; popping a new pair takes item `k`. */
  lemma WorkingPop(step: (Symptom, Symptom) -> bool, sig: seq<Symptom>, seen: set<Symptom>, queue: seq<Symptom>,
                   processed: set<Symptom>, level: seq<nat>, k: nat)
    requires Working(step, sig, seen, queue, processed, level, k, k) && queue != []
    ensures queue[0] in processed ==> Working(step, sig, seen, queue[1..], processed, level, k, k)
    ensures queue[0] !in processed ==> k < |sig| && sig[k] == queue[0]
    ensures queue[0] !in processed ==> Working(step, sig, seen, queue[1..], processed + {queue[0]}, level, k, k + 1)
  {
    PendingPop(queue, processed);
    if queue[0] !in processed {
      assert sig[k..][0] == queue[0];
      assert sig[k..][1..] == sig[k+1..];
      assert sig[..k+1] == sig[..k] + [sig[k]];
      ElementsAppend(sig[..k], sig[k]);
    }
  }

  /** Queueing an effect of item `k` that was emitted before. */
  lemma WorkingRequeue(step: (Symptom, Symptom) -> bool, sig: seq<Symptom>, seen: set<Symptom>, queue: seq<Symptom>,
                       processed: set<Symptom>, level: seq<nat>, k: nat, q: Symptom)
    requires Working(step, sig, seen, queue, processed, level, k, k + 1) && q in seen
    ensures Working(step, sig, seen, queue + [q], processed, level, k, k + 1)
  {
    hide Levelled, Pending;
    PendingPush(queue, processed, q);
    assert q in sig[..k+1] || q in sig[k+1..];
  }

  /** Emitting and queueing a new effect of item `k`. */
  lemma WorkingEmit(step: (Symptom, Symptom) -> bool, sig: seq<Symptom>, seen: set<Symptom>, queue: seq<Symptom>,
                    processed: set<Symptom>, level: seq<nat>, k: nat, q: Symptom)
    requires Working(step, sig, seen, queue, processed, level, k, k + 1) && step(sig[k], q) && q !in seen
    ensures Working(step, sig + [q], seen + {q}, queue + [q], processed, level + [level[k] + 1], k, k + 1)
  {
    hide Levelled, Covered, Pending;
    EmitNew(step, sig, level, k, q);
    ElementsAppend(sig, q);
    assert q !in sig && q !in processed && q !in sig[k+1..];
    PendingPush(queue, processed, q);
    assert (sig + [q])[..k+1] == sig[..k+1];
    assert (sig + [q])[k+1..] == sig[k+1..] + [q];
  }

  lemma WorkingExpanded(step: (Symptom, Symptom) -> bool, sig: seq<Symptom>, seen: set<Symptom>, queue: seq<Symptom>,
                        processed: set<Symptom>, level: seq<nat>, k: nat)
    requires Working(step, sig, seen, queue, processed, level, k, k + 1)
    requires forall q :: step(sig[k], q) ==> q in seen
    ensures Working(step, sig, seen, queue, processed, level, k + 1, k + 1)
  {
    forall q | step(sig[k], q) ensures Covered(sig, level, q, level[k] + 1) {
      EmitSeen(step, sig, level, k, q);
    }
    Expanded(step, sig, level, k);
  }

  // ---- The algorithm ----

  ghost function AllSymptoms(g: TypedGraph, templates: seq<Template>, seed: Symptom): set<Symptom> {
    {seed} + set n, t | n in g.types && t in templates :: Symptom(t.effect.alarmType, n)
  }

  method Propagate(origin: NodeDto, closure: TypedGraph, templates: seq<Template>, types: seq<FaultOriginType>)
    returns (r: Result<seq<Symptom>, string>)
    requires closure.WellFormed() && origin.managedObjectId in closure.types
    ensures r.Ok? <==> OriginAlarmType(origin.objectType, types).Ok?
    ensures r.Ok? ==> NoDuplicates(r.value) && r.value != []
    // The origin's own alarm comes first.
    ensures r.Ok? ==> r.value[0] == Symptom(OriginAlarmType(origin.objectType, types).value, origin.managedObjectId)
    // It is what the first entry of the origin's type that has an alarm gives; there is none without one.
    ensures r.Ok? ==> exists i: nat :: IsFirstAlarm(origin.objectType, types, i, r.value[0].alarmType)
    ensures r.Err? <==> HasNoAlarm(origin.objectType, types)
    // The signature is exactly what template firings reach from it, nearest first.
    ensures r.Ok? ==> forall q :: q in r.value <==> Reaches(Firing(closure, templates), r.value[0], q)
    ensures r.Ok? ==> InDepthOrder(Firing(closure, templates), r.value)
    // Among equals, what is raised first comes first.
    ensures r.Ok? ==> InFiringOrder(closure, templates, r.value)
  {
    var alarm := OriginAlarmType(origin.objectType, types);
    OriginAlarmExactly(origin.objectType, types, if alarm.Ok? then alarm.value else "");
    if alarm.Err? { return Err(alarm.error); }
    var signature := Search(Symptom(alarm.value, origin.managedObjectId), closure, templates);
    r := Ok(signature);
  }

  method Search(seed: Symptom, closure: TypedGraph, templates: seq<Template>) returns (signature: seq<Symptom>)
    requires closure.WellFormed() && seed.managedObjectId in closure.types
    ensures NoDuplicates(signature) && signature != [] && signature[0] == seed
    ensures forall q :: q in signature <==> Reaches(Firing(closure, templates), seed, q)
    ensures InDepthOrder(Firing(closure, templates), signature)
    ensures InFiringOrder(closure, templates, signature)
  {
    hide Levelled, Firing, InDepthOrder, Pending, FirstOccurrences, FiredFrom;
    ghost var step, universe := Firing(closure, templates), AllSymptoms(closure, templates, seed);
    signature := [seed];
    var seen, processed := {seed}, {};
    var frontier := [seed];
    ghost var level: seq<nat>, k: nat := [0], 0;
    WorkingStarts(step, seed);
    FirstOccurrencesOfOne(seed);
    assert [seed] + Raised(closure, templates, []) == [seed];
    while frontier != []
      invariant Working(step, signature, seen, frontier, processed, level, k, k)
      invariant signature[0] == seed && seen <= universe
      invariant signature == FirstOccurrences([seed] + Raised(closure, templates, signature[..k]))
      decreases universe - processed, |frontier|
    {
      var current := frontier[0];
      WorkingPop(step, signature, seen, frontier, processed, level, k);
      frontier := frontier[1..];
      if current !in processed {
        assert current in universe;
        processed := processed + {current};
        ghost var before, fired := signature, [seed] + Raised(closure, templates, signature[..k]);
        signature, seen, frontier, level :=
          ExpandNode(closure, templates, current, signature, seen, frontier, processed, level, k, seed, fired);
        assert signature[..k] == before[..k];
        RaisedOneMore(closure, templates, signature, k);
        ConcatAssociates([seed], Raised(closure, templates, signature[..k]),
                         FiredFrom(closure, templates, current, closure.OutArcs(current.managedObjectId)));
        k := k + 1;
      }
    }
    assert Pending([], processed) == [] by { PendingNothing(processed); }
    assert signature[k..] == [] && signature[..k] == signature;
    Finished(step, signature, level);
  }

  /** The first `n` templates have fired along `arc`. */
  ghost predicate Fired(g: TypedGraph, templates: seq<Template>, n: nat, from: Symptom, arc: Arc, seen: set<Symptom>)
    requires n <= |templates| && from.managedObjectId in g.types && arc.target in g.types
  {
    forall t ::
        0 <= t < n && Matches(g, templates[t], from, arc) ==> Symptom(templates[t].effect.alarmType, arc.target) in seen
  }

  /** The middle loop: every arc of the current node. */
  method ExpandNode(closure: TypedGraph, templates: seq<Template>, current: Symptom, sig: seq<Symptom>,
                    known: set<Symptom>, queue: seq<Symptom>, ghost processed: set<Symptom>, ghost lv: seq<nat>,
                    ghost k: nat, ghost seed: Symptom, ghost fired: seq<Symptom>)
    returns (signature: seq<Symptom>, seen: set<Symptom>, frontier: seq<Symptom>, ghost level: seq<nat>)
    requires closure.WellFormed() && current.managedObjectId in closure.types
    requires Working(Firing(closure, templates), sig, known, queue, processed, lv, k, k + 1) && sig[k] == current
    requires sig[0] == seed && known <= AllSymptoms(closure, templates, seed)
    requires sig == FirstOccurrences(fired)
    ensures Working(Firing(closure, templates), signature, seen, frontier, processed, level, k + 1, k + 1)
    ensures signature[0] == seed && seen <= AllSymptoms(closure, templates, seed)
    ensures sig <= signature && signature == FirstOccurrences(
              fired + FiredFrom(closure, templates, current, closure.OutArcs(current.managedObjectId)))
  {
    hide Levelled, Pending, FirstOccurrences, FiredAlong;
    ghost var step := Firing(closure, templates);
    signature, seen, frontier, level := sig, known, queue, lv;
    var arcs := closure.out[current.managedObjectId];
    assert fired + FiredFrom(closure, templates, current, arcs[..0]) == fired;
    for i := 0 to |arcs|
      invariant Working(step, signature, seen, frontier, processed, level, k, k + 1)
      invariant signature[0] == seed && signature[k] == current && seen <= AllSymptoms(closure, templates, seed)
      invariant sig <= signature
      invariant signature == FirstOccurrences(fired + FiredFrom(closure, templates, current, arcs[..i]))
      invariant forall a :: 0 <= a < i ==> Fired(closure, templates, |templates|, current, arcs[a], seen)
    {
      ghost var before := FiredFrom(closure, templates, current, arcs[..i]);
      signature, seen, frontier, level := FireAlong(closure, templates, current, arcs[i], signature, seen, frontier,
                                                    processed, level, k, seed, fired + before);
      assert arcs[..i+1][..i] == arcs[..i];
      ConcatAssociates(fired, before, FiredAlong(closure, templates, current, arcs[i]));
    }
    assert arcs[..|arcs|] == arcs;
    forall q | step(current, q) ensures q in seen {
      var a, t :| 0 <= a < |arcs| && 0 <= t < |templates| && Matches(closure, templates[t], current, arcs[a]) &&
                  q == Symptom(templates[t].effect.alarmType, arcs[a].target);
      assert Fired(closure, templates, |templates|, current, arcs[a], seen);
    }
    WorkingExpanded(step, signature, seen, frontier, processed, level, k);
  }

  /** The inner loop: every template against one arc. */
  method FireAlong(closure: TypedGraph, templates: seq<Template>, current: Symptom, arc: Arc, sig: seq<Symptom>,
                   known: set<Symptom>, queue: seq<Symptom>, ghost processed: set<Symptom>, ghost lv: seq<nat>,
                   ghost k: nat, ghost seed: Symptom, ghost fired: seq<Symptom>)
    returns (signature: seq<Symptom>, seen: set<Symptom>, frontier: seq<Symptom>, ghost level: seq<nat>)
    requires closure.WellFormed() && current.managedObjectId in closure.types &&
      arc in closure.out[current.managedObjectId]
    requires Working(Firing(closure, templates), sig, known, queue, processed, lv, k, k + 1) && sig[k] == current
    requires sig[0] == seed && known <= AllSymptoms(closure, templates, seed)
    requires sig == FirstOccurrences(fired)
    ensures Working(Firing(closure, templates), signature, seen, frontier, processed, level, k, k + 1)
    ensures sig <= signature
    ensures signature == FirstOccurrences(fired + FiredAlong(closure, templates, current, arc))
    ensures signature[0] == seed && signature[k] == current && known <= seen <= AllSymptoms(closure, templates, seed)
    ensures Fired(closure, templates, |templates|, current, arc, seen)
  {
    hide Levelled, Pending, FirstOccurrences, FiredAlong, Working, Firing, NoDuplicates;
    ghost var step := Firing(closure, templates);
    signature, seen, frontier, level := sig, known, queue, lv;
    WorkingIs(step, signature, seen, frontier, processed, level, k, k + 1);
    NothingFired(closure, templates, current, arc, fired);
    for j := 0 to |templates|
      invariant Working(step, signature, seen, frontier, processed, level, k, k + 1)
      invariant k < |signature| == |level|
      invariant signature[0] == seed && signature[k] == current &&
        known <= seen <= AllSymptoms(closure, templates, seed)
      invariant Fired(closure, templates, j, current, arc, seen)
      invariant sig <= signature
      invariant signature == FirstOccurrences(fired + FiredAlong(closure, templates[..j], current, arc))
    {
      var t := templates[j];
      OneMoreFired(closure, templates, j, current, arc, fired);
      if Matches(closure, t, current, arc) {
        var effect := Symptom(t.effect.alarmType, arc.target);
        MatchFires(closure, templates, t, current, arc);
        WorkingIs(step, signature, seen, frontier, processed, level, k, k + 1);
        if effect in seen {
          WorkingRequeue(step, signature, seen, frontier, processed, level, k, effect);
        } else {
          WorkingEmit(step, signature, seen, frontier, processed, level, k, effect);
          seen := seen + {effect};
          signature := signature + [effect];
          level := level + [level[k] + 1];
        }
        frontier := frontier + [effect];
      }
    }
    assert templates[..|templates|] == templates;
  }

  lemma MatchFires(g: TypedGraph, templates: seq<Template>, t: Template, from: Symptom, arc: Arc)
    requires g.WellFormed() && from.managedObjectId in g.out && arc in g.out[from.managedObjectId] && t in templates
    requires Matches(g, t, from, arc)
    ensures Firing(g, templates)(from, Symptom(t.effect.alarmType, arc.target))
  {
  }

  lemma WorkingIs(step: (Symptom, Symptom) -> bool, sig: seq<Symptom>, seen: set<Symptom>, queue: seq<Symptom>,
                  processed: set<Symptom>, level: seq<nat>, k: nat, base: nat)
    requires Working(step, sig, seen, queue, processed, level, k, base)
    ensures k <= |sig| == |level| && base <= |sig| && forall q :: q in sig <==> q in seen
  {
  }

  lemma NothingFired(g: TypedGraph, templates: seq<Template>, from: Symptom, arc: Arc, fired: seq<Symptom>)
    ensures fired + FiredAlong(g, templates[..0], from, arc) == fired
  {
  }

  /** One template more raises its effect, when it matches, at the end and for the first time or not. */
  lemma OneMoreFired(g: TypedGraph, templates: seq<Template>, j: nat, from: Symptom, arc: Arc, fired: seq<Symptom>)
    requires j < |templates| && from.managedObjectId in g.types && arc.target in g.types
    ensures var before := FirstOccurrences(fired + FiredAlong(g, templates[..j], from, arc));
            var effect := Symptom(templates[j].effect.alarmType, arc.target);
            FirstOccurrences(fired + FiredAlong(g, templates[..j+1], from, arc)) ==
              if !Matches(g, templates[j], from, arc) || effect in before then before else before + [effect]
  {
    hide FirstOccurrences, Matches;
    var prior, effect := FiredAlong(g, templates[..j], from, arc), Symptom(templates[j].effect.alarmType, arc.target);
    assert templates[..j+1][..j] == templates[..j];
    FirstOccurrencesPush(fired + prior, effect);
    FirstOccurrencesHold(fired + prior, effect);
    ConcatAssociates(fired, prior, if Matches(g, templates[j], from, arc) then [effect] else []);
    assert fired + prior + [] == fired + prior;
  }

  lemma FirstOccurrencesHold(xs: seq<Symptom>, q: Symptom)
    ensures q in FirstOccurrences(xs) <==> q in xs
  {
    assert q in Elements(FirstOccurrences(xs)) <==> q in Elements(xs);
  }

  lemma FirstOccurrencesOfOne(seed: Symptom)
    ensures FirstOccurrences([seed]) == [seed]
  {
    assert [seed][..0] == [];
  }

  lemma PendingNothing(done: set<Symptom>)
    ensures Pending([], done) == []
  {
  }

  // ---- Laws of the signature ----

  ghost predicate IsSignature(g: TypedGraph, templates: seq<Template>, seed: Symptom, sig: seq<Symptom>) {
    forall q :: q in sig <==> Reaches(Firing(g, templates), seed, q)
  }

  /** Completeness and the order of firing leave one signature. */
  lemma SignatureIsUnique(g: TypedGraph, templates: seq<Template>, seed: Symptom, s: seq<Symptom>, t: seq<Symptom>)
    requires IsSignature(g, templates, seed, s) && InFiringOrder(g, templates, s) && s[0] == seed
    requires IsSignature(g, templates, seed, t) && InFiringOrder(g, templates, t) && t[0] == seed
    ensures s == t
  {
    hide Raised, IsSignature, FirstOccurrences;
    assert Elements(s) == Elements(t) by { SameSymptoms(g, templates, seed, s, t); }
    assert NoDuplicates(FirstOccurrences([seed] + Raised(g, templates, s)));
    assert NoDuplicates(FirstOccurrences([seed] + Raised(g, templates, t)));
    ElementsCount(s);
    ElementsCount(t);
    SamePrefix(g, templates, seed, s, t, |s|);
    assert s[..|s|] == s && t[..|t|] == t;
  }

  lemma SameSymptoms(g: TypedGraph, templates: seq<Template>, seed: Symptom, s: seq<Symptom>, t: seq<Symptom>)
    requires IsSignature(g, templates, seed, s) && IsSignature(g, templates, seed, t)
    ensures Elements(s) == Elements(t)
  {
    hide Firing;
    forall q ensures q in s <==> q in t { assert q in s <==> Reaches(Firing(g, templates), seed, q); }
  }

  lemma {:induction false} SamePrefix(g: TypedGraph, templates: seq<Template>, seed: Symptom, s: seq<Symptom>,
                                      t: seq<Symptom>, n: nat)
    requires IsSignature(g, templates, seed, s) && InFiringOrder(g, templates, s) && s[0] == seed
    requires InFiringOrder(g, templates, t) && t[0] == seed && |s| == |t| && n <= |s|
    requires NoDuplicates(s)
    ensures s[..n] == t[..n]
  {
    hide Raised, IsSignature, FirstOccurrences, NoDuplicates;
    if n > 0 {
      SamePrefix(g, templates, seed, s, t, n - 1);
      var head := FirstOccurrences([seed] + Raised(g, templates, s[..n-1]));
      HeadIsPrefix(g, templates, s, n - 1);
      HeadIsPrefix(g, templates, t, n - 1);
      HeadIsLonger(g, templates, seed, s, n - 1);
      assert s[..n] == head[..n] == t[..n];
    }
  }

  /** What the first items raise opens the signature... */
  lemma HeadIsPrefix(g: TypedGraph, templates: seq<Template>, sig: seq<Symptom>, n: nat)
    requires InFiringOrder(g, templates, sig) && n <= |sig|
    ensures FirstOccurrences([sig[0]] + Raised(g, templates, sig[..n])) <= sig
  {
    hide Raised, FirstOccurrences;
    var some, all := Raised(g, templates, sig[..n]), Raised(g, templates, sig);
    RaisedGrows(g, templates, sig, n);
    assert [sig[0]] + all == [sig[0]] + some + all[|some|..];
    FirstOccurrencesGrow([sig[0]] + some, all[|some|..]);
  }

  /** ...and is more than those items, unless they are all. */
  lemma HeadIsLonger(g: TypedGraph, templates: seq<Template>, seed: Symptom, sig: seq<Symptom>, n: nat)
    requires IsSignature(g, templates, seed, sig) && InFiringOrder(g, templates, sig) && sig[0] == seed
    requires n < |sig| && NoDuplicates(sig)
    ensures |FirstOccurrences([seed] + Raised(g, templates, sig[..n]))| > n
  {
    hide Raised, FirstOccurrences, Fires;
    var raised := Raised(g, templates, sig[..n]);
    var head := FirstOccurrences([seed] + raised);
    HeadIsPrefix(g, templates, sig, n);
    if |head| <= n {
      assert head == sig[..|head|];
      forall a, b | a in Elements(head) && Firing(g, templates)(a, b) ensures b in Elements(head) {
        assert a in sig[..n];
        RaisedHasFired(g, templates, sig[..n], a, b);
        assert b in [seed] + raised;
        assert b in Elements([seed] + raised);
      }
      assert seed in [seed] + raised;
      assert seed in Elements([seed] + raised);
      assert sig[n] in sig;
      ReachesStaysInside(Firing(g, templates), seed, sig[n], Elements(head));
    }
  }

  /** As a set the signature is the least one that holds the seed and is closed under firing. */
  lemma SignatureIsLeastFixpoint(g: TypedGraph, templates: seq<Template>, seed: Symptom, sig: seq<Symptom>,
                                 s: set<Symptom>)
    requires IsSignature(g, templates, seed, sig)
    ensures seed in sig && ClosedUnder(Firing(g, templates), Elements(sig))
    ensures seed in s && ClosedUnder(Firing(g, templates), s) ==> Elements(sig) <= s
  {
    var step := Firing(g, templates);
    ReachesSelf(step, seed);
    forall a, b | a in Elements(sig) && step(a, b) ensures b in Elements(sig) {
      ReachesThenStep(step, seed, a, b);
    }
    if seed in s && ClosedUnder(step, s) {
      forall q | q in Elements(sig) ensures q in s { ReachesStaysInside(step, seed, q, s); }
    }
  }

  /** `h` has every node of `g` with the same type, and every arc of `g`. */
  ghost predicate Extends(g: TypedGraph, h: TypedGraph) {
    && g.WellFormed() && h.WellFormed()
    && (forall n :: n in g.types ==> n in h.types && h.types[n] == g.types[n])
    && (forall n, a :: n in g.out && a in g.out[n] ==> a in h.out[n])
  }

  /** More edges or more templates never lose a symptom. */
  lemma SignatureIsMonotone(g: TypedGraph, templates: seq<Template>, h: TypedGraph, more: seq<Template>,
                            seed: Symptom, sig: seq<Symptom>, larger: seq<Symptom>)
    requires Extends(g, h) && forall t :: t in templates ==> t in more
    requires IsSignature(g, templates, seed, sig) && IsSignature(h, more, seed, larger)
    ensures forall q :: q in sig ==> q in larger
  {
    forall a, b | Firing(g, templates)(a, b) ensures Firing(h, more)(a, b) {
      var arc, t :| arc in g.out[a.managedObjectId] && t in templates && Matches(g, t, a, arc) &&
                    b == Symptom(t.effect.alarmType, arc.target);
      assert arc in h.out[a.managedObjectId] && t in more && Matches(h, t, a, arc);
    }
    forall q | q in sig ensures q in larger {
      ReachesMonotone(Firing(g, templates), Firing(h, more), seed, q);
    }
  }
}
