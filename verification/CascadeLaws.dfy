/** What a cascade guarantees: which nodes it expands and how often, how many alarms it raises, when,
    and which of them its label names. */
module CascadeLaws {
  import opened Common
  import opened Reachability
  import opened Decimals
  import opened Cascade

  /** Reached from the root or one of its co-members by hops. */
  ghost predicate ReachedFrom(g: CausalGraph, rules: Rules, starts: set<string>, n: string) {
    exists s :: s in starts && Reaches((a, b) => Hop(g, rules, a, b), s, n)
  }

  lemma ReachedNext(g: CausalGraph, rules: Rules, starts: set<string>, a: string, b: string)
    requires ReachedFrom(g, rules, starts, a) && Hop(g, rules, a, b)
    ensures ReachedFrom(g, rules, starts, b)
  {
    hide Hop;
    var step := (x, y) => Hop(g, rules, x, y);
    var s :| s in starts && Reaches(step, s, a);
    ReachesThenStep(step, s, a, b);
  }

  lemma {:induction false} ExpandedIsReached(g: CausalGraph, rules: Rules, root: Effect, members: seq<string>,
                                             expanded: seq<string>, i: nat)
    requires IsWalk(g, rules, root, members, expanded, []) && i < |expanded|
    ensures ReachedFrom(g, rules, {root.managedObjectId} + Elements(members), expanded[i])
    decreases i
  {
    hide Hop, Order;
    var starts := {root.managedObjectId} + Elements(members);
    assert expanded + [] == expanded;
    if i <= |members| {
      assert expanded[i] in starts;
      ReachesSelf((a, b) => Hop(g, rules, a, b), expanded[i]);
    } else {
      assert SomeHop(g, rules, expanded[..i], expanded[i]);
      var j :| 0 <= j < |expanded[..i]| && Hop(g, rules, expanded[..i][j], expanded[i]);
      ExpandedIsReached(g, rules, root, members, expanded, j);
      ReachedNext(g, rules, starts, expanded[j], expanded[i]);
    }
  }

  lemma ExpandedIsClosed(g: CausalGraph, rules: Rules, root: Effect, members: seq<string>, expanded: seq<string>,
                         a: string, b: string)
    requires IsWalk(g, rules, root, members, expanded, []) && a in expanded && Hop(g, rules, a, b)
    ensures b in expanded
  {
    hide Hop, FirstOccurrences, Firings;
    var i :| 0 <= i < |expanded| && expanded[i] == a;
    assert SomeHop(g, rules, expanded, b);
    FiringsRaiseTargets(g, rules, expanded, b);
    var effects := AllEffects(g, rules, root, expanded);
    assert Objects(effects) == [root.managedObjectId] + Objects(Firings(g, rules, expanded));
    assert b in Elements(Objects(effects));
    assert b in Elements(Order(effects));
    assert expanded + [] == expanded;
    assert Order(effects) == [root.managedObjectId] + Order(effects)[1..];
  }

  /** The expanded nodes are exactly those reached from the root and its co-members. */
  lemma ExpandsTheReach(g: CausalGraph, rules: Rules, root: Effect, members: seq<string>, expanded: seq<string>,
                        n: string)
    requires IsWalk(g, rules, root, members, expanded, [])
    ensures n in expanded <==> ReachedFrom(g, rules, {root.managedObjectId} + Elements(members), n)
  {
    hide Hop;
    var step := (a, b) => Hop(g, rules, a, b);
    var starts := {root.managedObjectId} + Elements(members);
    if n in expanded {
      var i :| 0 <= i < |expanded| && expanded[i] == n;
      ExpandedIsReached(g, rules, root, members, expanded, i);
    }
    if s :| s in starts && Reaches(step, s, n) {
      hide Order;
      assert expanded + [] == expanded;
      assert s in Elements(expanded);
      forall a, b | a in Elements(expanded) && step(a, b) ensures b in Elements(expanded) {
        ExpandedIsClosed(g, rules, root, members, expanded, a, b);
      }
      ReachesStaysInside(step, s, n, Elements(expanded));
    }
  }

  /** Some hop from a reached node raises an alarm on `m`. */
  ghost predicate HoppedTo(g: CausalGraph, rules: Rules, starts: set<string>, m: string) {
    exists a :: ReachedFrom(g, rules, starts, a) && Hop(g, rules, a, m)
  }

  /** The objects that alarm: the root, and whatever a reached node hops to. */
  lemma AlarmedObjects(g: CausalGraph, rules: Rules, root: Effect, members: seq<string>, expanded: seq<string>,
                       m: string)
    requires IsWalk(g, rules, root, members, expanded, [])
    ensures var starts := {root.managedObjectId} + Elements(members);
            var alarmed := m == root.managedObjectId || HoppedTo(g, rules, starts, m);
            m in Objects(AllEffects(g, rules, root, expanded)) <==> alarmed
  {
    hide Hop, Firings, IsWalk, ReachedFrom;
    var starts := {root.managedObjectId} + Elements(members);
    assert Objects(AllEffects(g, rules, root, expanded)) ==
        [root.managedObjectId] + Objects(Firings(g, rules, expanded));
    FiringsRaiseTargets(g, rules, expanded, m);
    if SomeHop(g, rules, expanded, m) {
      var i :| 0 <= i < |expanded| && Hop(g, rules, expanded[i], m);
      ExpandsTheReach(g, rules, root, members, expanded, expanded[i]);
    }
    if HoppedTo(g, rules, starts, m) {
      var a :| ReachedFrom(g, rules, starts, a) && Hop(g, rules, a, m);
      ExpandsTheReach(g, rules, root, members, expanded, a);
    }
  }

  /** The walk's parts: the root, its co-members, and the others in the order of their alarms. */
  lemma WalkParts(g: CausalGraph, rules: Rules, root: Effect, members: seq<string>, expanded: seq<string>)
    requires IsWalk(g, rules, root, members, expanded, [])
    ensures var order := Order(AllEffects(g, rules, root, expanded));
            && order != [] && order == [root.managedObjectId] + order[1..] && NoDuplicates(order)
            && expanded == [root.managedObjectId] + (members + order[1..])
            && Elements(order) == Elements(Objects(AllEffects(g, rules, root, expanded)))
  {
    hide Firings;
    assert expanded + [] == expanded;
  }

  /** No node is expanded twice if and only if no co-member is the root or hopped to from a reached node:
      a co-member is queued at the start, and once more when the walk reaches it. Without a co-failure
      relation there is none. */
  lemma ExpandedOnceExactly(g: CausalGraph, rules: Rules, root: Effect, members: seq<string>, expanded: seq<string>)
    requires IsWalk(g, rules, root, members, expanded, []) && NoDuplicates(members)
    ensures var starts := {root.managedObjectId} + Elements(members);
            var apart := forall m :: m in members ==> m != root.managedObjectId && !HoppedTo(g, rules, starts, m);
            NoDuplicates(expanded) <==> apart
  {
    hide FirstOccurrences, Firings, NoDuplicates, Objects, IsWalk, HoppedTo;
    var r, order := root.managedObjectId, Order(AllEffects(g, rules, root, expanded));
    WalkParts(g, rules, root, members, expanded);
    NoDuplicatesConcat([r], order[1..]);
    NoDuplicatesConcat([r], members + order[1..]);
    NoDuplicatesConcat(members, order[1..]);
    SingleHasNoDuplicates(r);
    assert Elements(order) == {r} + Elements(order[1..]);
    assert Elements(members + order[1..]) == Elements(members) + Elements(order[1..]);
    assert forall m :: m in members <==> m in Elements(members);
    forall m ensures m in Elements(order) <==> m == r || HoppedTo(g, rules, {r} + Elements(members), m) {
      AlarmedObjects(g, rules, root, members, expanded, m);
      assert m in Objects(AllEffects(g, rules, root, expanded)) <==> m in Elements(order);
    }
  }

  // ---- A co-member that is expanded twice ----

  /** One edge from r to m, of a relation that both fate-shares the root and carries a template. */
  function SharedEdge(r: string, m: string): CausalGraph {
    map[r := [OutEdge(m, Some("MEMBER_OF"))], m := []]
  }

  lemma CoMemberExpandedTwice(r: string, m: string, alarm: string, effect: string)
    requires r != m
    ensures var g, rules := SharedEdge(r, m), Rules([Template("MEMBER_OF", effect)], None);
            && IsDiGraph(g) && CoMembers(g[r], Some("MEMBER_OF")) == [m]
            && IsWalk(g, rules, Effect(r, alarm), [m], [r, m, m], []) && !NoDuplicates([r, m, m])
  {
    hide Firings, Order, Objects;
    var g, rules, root := SharedEdge(r, m), Rules([Template("MEMBER_OF", effect)], None), Effect(r, alarm);
    assert "MEMBER_OF" != "" by { assert |"MEMBER_OF"| == 9; }
    assert g[r][..0] == [] && CoMembers([], Some("MEMBER_OF")) == [];
    EdgeRaises(m, effect);
    SharedEdgeOrder(r, m, alarm, effect);
    assert [r, m, m] + [] == [r] + [m] + [r, m][1..];
    forall i | 1 < i < 3 ensures SomeHop(g, rules, [r, m, m][..i], [r, m, m][i]) {
      assert [r, m, m][..2][0] == r;
      assert HopAlong(rules, g[r], m) by { assert EdgeEffects(rules, g[r][0]) == [Effect(m, effect)]; }
    }
    assert [r, m, m][1] == [r, m, m][2];
  }

  lemma SharedEdgeOrder(r: string, m: string, alarm: string, effect: string)
    requires r != m
    ensures var g, rules := SharedEdge(r, m), Rules([Template("MEMBER_OF", effect)], None);
            Order(AllEffects(g, rules, Effect(r, alarm), [r, m, m])) == [r, m]
  {
    hide EdgeEffects;
    var g, rules, root := SharedEdge(r, m), Rules([Template("MEMBER_OF", effect)], None), Effect(r, alarm);
    EdgeRaises(m, effect);
    assert EffectsAlong(rules, g[r]) == [Effect(m, effect)];
    assert [r, m, m][..2] == [r, m] && [r, m][..1] == [r] && [r][..0] == [];
    assert Firings(g, rules, [r]) == [] + EffectsAlong(rules, g[r]);
    assert Firings(g, rules, [r, m]) == [Effect(m, effect)] + [];
    assert Firings(g, rules, [r, m, m]) == [Effect(m, effect)];
    var effects := AllEffects(g, rules, root, [r, m, m]);
    assert Objects(effects) == [r, m];
    OrderOfTwoObjects(r, m);
  }

  lemma EdgeRaises(m: string, effect: string)
    ensures EdgeEffects(Rules([Template("MEMBER_OF", effect)], None), OutEdge(m, Some("MEMBER_OF"))) ==
      [Effect(m, effect)]
  {
    var ts := [Template("MEMBER_OF", effect)];
    assert ts[..0] == [] && ForRelation([], "MEMBER_OF") == [];
    assert ForRelation(ts, "MEMBER_OF") == ts;
  }

  lemma OrderOfTwoObjects(r: string, m: string)
    requires r != m
    ensures FirstOccurrences([r, m]) == [r, m]
  {
    OccurrenceAppend([], r);
    OccurrenceAppend([r], m);
    assert [] + [r] == [r] && [r] + [m] == [r, m];
  }

  lemma {:induction false} CoMembersDistinct(edges: seq<OutEdge>, relation: Option<string>)
    requires forall i, j :: 0 <= i < j < |edges| ==> edges[i].target != edges[j].target
    ensures NoDuplicates(CoMembers(edges, relation))
  {
    if edges != [] {
      var front, last := edges[..|edges| - 1], edges[|edges| - 1];
      CoMembersDistinct(front, relation);
      CoMembersAreTargets(front, relation, last.target);
    }
  }

  lemma SingleHasNoDuplicates(r: string)
    ensures NoDuplicates([r])
  {
  }

  // ---- How many alarms ----

  /** Templates fired by expanding a node: over its out-edges, all that apply to each edge. */
  function FiredAlong(rules: Rules, edges: seq<OutEdge>): nat {
    if edges == [] then 0
    else
      var last := edges[|edges| - 1];
      FiredAlong(rules, edges[..|edges| - 1]) + |set i: nat | i < |rules.templates| && Applies(rules, last, i)|
  }

  lemma {:induction false} AlongCounts(rules: Rules, edges: seq<OutEdge>)
    ensures |EffectsAlong(rules, edges)| == FiredAlong(rules, edges)
  {
    hide EdgeEffects, Applies;
    if edges != [] {
      AlongCounts(rules, edges[..|edges| - 1]);
      EdgeRaisesExactly(rules, edges[|edges| - 1]);
    }
  }

  /** The sum over a set of nodes; the order in which they are taken does not matter. */
  function FiredOver(g: CausalGraph, rules: Rules, nodes: set<string>): nat {
    if nodes == {} then 0
    else
      var n := Least(nodes);
      FiredAlong(rules, Out(g, n)) + FiredOver(g, rules, nodes - {n})
  }

  lemma {:induction false} FiredOverTakes(g: CausalGraph, rules: Rules, nodes: set<string>, n: string)
    requires n in nodes
    ensures FiredOver(g, rules, nodes) == FiredAlong(rules, Out(g, n)) + FiredOver(g, rules, nodes - {n})
  {
    hide FiredAlong;
    var least := Least(nodes);
    if n != least {
      FiredOverTakes(g, rules, nodes - {least}, n);
      FiredOverTakes(g, rules, nodes - {n}, least);
      assert nodes - {least} - {n} == nodes - {n} - {least};
    }
  }

  lemma {:induction false} FiringsCount(g: CausalGraph, rules: Rules, nodes: seq<string>)
    requires NoDuplicates(nodes)
    ensures |Firings(g, rules, nodes)| == FiredOver(g, rules, Elements(nodes))
  {
    hide FiredAlong, EffectsAlong;
    if nodes != [] {
      var front, last := nodes[..|nodes| - 1], nodes[|nodes| - 1];
      FiringsCount(g, rules, front);
      AlongCounts(rules, Out(g, last));
      ElementsDropLast(nodes);
      assert last !in front;
      FiredOverTakes(g, rules, Elements(nodes), last);
      assert Elements(nodes) - {last} == Elements(front);
    }
  }

  lemma FiringsOfNone(g: CausalGraph, rules: Rules)
    ensures Firings(g, rules, []) == []
  {
  }

  lemma FiringsLast(g: CausalGraph, rules: Rules, front: seq<string>, last: string)
    ensures Firings(g, rules, front + [last]) == Firings(g, rules, front) + EffectsAlong(rules, Out(g, last))
  {
    assert (front + [last])[..|front|] == front;
  }

  lemma {:induction false} FiringsConcat(g: CausalGraph, rules: Rules, a: seq<string>, b: seq<string>)
    ensures Firings(g, rules, a + b) == Firings(g, rules, a) + Firings(g, rules, b)
  {
    hide Firings, EffectsAlong;
    if b == [] {
      FiringsOfNone(g, rules);
      assert a + b == a && Firings(g, rules, a) + [] == Firings(g, rules, a);
    } else {
      var front, last := b[..|b| - 1], b[|b| - 1];
      FiringsConcat(g, rules, a, front);
      FiringsLast(g, rules, a + front, last);
      FiringsLast(g, rules, front, last);
      assert b == front + [last] && a + b == a + front + [last];
      ConcatAssociates(Firings(g, rules, a), Firings(g, rules, front), EffectsAlong(rules, Out(g, last)));
    }
  }

  lemma {:induction false} FiredOverOverlap(g: CausalGraph, rules: Rules, a: set<string>, b: set<string>)
    ensures FiredOver(g, rules, a) + FiredOver(g, rules, b) == FiredOver(g, rules, a + b) + FiredOver(g, rules, a * b)
    decreases |b|
  {
    hide FiredOver;
    if b == {} {
      assert a + b == a && a * b == b;
    } else {
      var n :| n in b;
      FiredOverOverlap(g, rules, a, b - {n});
      FiredOverTakes(g, rules, b, n);
      if n in a {
        assert a + (b - {n}) == a + b && a * (b - {n}) == a * b - {n};
        FiredOverTakes(g, rules, a * b, n);
      } else {
        assert a + (b - {n}) == a + b - {n} && a * (b - {n}) == a * b;
        FiredOverTakes(g, rules, a + b, n);
      }
    }
  }

  /** One child for each template of each walked out-edge of each reached node, and once more over the
      co-members that are expanded again. */
  lemma ChildrenCounted(g: CausalGraph, rules: Rules, root: Effect, members: seq<string>, expanded: seq<string>,
                        p: Progress, first: nat, t: Timing, scenarioId: string, reach: set<string>, again: set<string>)
    requires IsWalk(g, rules, root, members, expanded, []) && NoDuplicates(members)
    requires Tells(p, AllEffects(g, rules, root, expanded), first, t, scenarioId)
    requires forall n :: n in reach <==> ReachedFrom(g, rules, {root.managedObjectId} + Elements(members), n)
    requires forall n :: n in again <==>
               n in members &&
                   (n == root.managedObjectId || HoppedTo(g, rules, {root.managedObjectId} + Elements(members), n))
    ensures Elements(expanded) == reach
    ensures |p.children| == FiredOver(g, rules, reach) + FiredOver(g, rules, again)
  {
    hide IsWalk, Hop, FirstOccurrences, Firings, FiredOver, ReachedFrom, HoppedTo, NoDuplicates;
    var r, order := root.managedObjectId, Order(AllEffects(g, rules, root, expanded));
    WalkParts(g, rules, root, members, expanded);
    forall n ensures n in Elements(expanded) <==> n in reach { ExpandsTheReach(g, rules, root, members, expanded, n); }
    FiringsConcat(g, rules, [r], members + order[1..]);
    FiringsConcat(g, rules, members, order[1..]);
    FiringsConcat(g, rules, [r], order[1..]);
    FiringsCount(g, rules, order);
    FiringsCount(g, rules, members);
    FiredOverOverlap(g, rules, Elements(order), Elements(members));
    PartsCover(r, members, order[1..]);
    forall n ensures n in Elements(order) * Elements(members) <==> n in again {
      AlarmedObjects(g, rules, root, members, expanded, n);
      assert n in Objects(AllEffects(g, rules, root, expanded)) <==> n in Elements(order);
    }
    assert Elements(order) * Elements(members) == again;
  }

  lemma PartsCover(r: string, members: seq<string>, rest: seq<string>)
    ensures Elements([r] + (members + rest)) == Elements([r] + rest) + Elements(members)
  {
  }

  /** Without co-members nothing is expanded twice, and the sum is over the nodes reached from the root. */
  lemma ChildrenCountedAlone(g: CausalGraph, rules: Rules, root: Effect, expanded: seq<string>,
                             p: Progress, first: nat, t: Timing, scenarioId: string, reach: set<string>)
    requires IsWalk(g, rules, root, [], expanded, [])
    requires Tells(p, AllEffects(g, rules, root, expanded), first, t, scenarioId)
    requires forall n :: n in reach <==> Reaches((a, b) => Hop(g, rules, a, b), root.managedObjectId, n)
    ensures NoDuplicates(expanded) && Elements(expanded) == reach && |p.children| == FiredOver(g, rules, reach)
  {
    hide IsWalk, Hop, Tells, FiredAlong, Reaches, FirstOccurrences;
    var starts := {root.managedObjectId} + Elements<string>([]);
    assert starts == {root.managedObjectId};
    forall n ensures n in reach <==> ReachedFrom(g, rules, starts, n) {
    }
    ExpandedOnceExactly(g, rules, root, [], expanded);
    ChildrenCounted(g, rules, root, [], expanded, p, first, t, scenarioId, reach, {});
  }

  // ---- When, and under which ids ----

  lemma {:induction false} NeverEarlier(t: Timing, i: nat, j: nat)
    requires i <= j
    ensures RaisedAt(t, i) <= RaisedAt(t, j)
    decreases j
  {
    if i < j { NeverEarlier(t, i, j - 1); }
  }

  /** Alarms never go back in time, ids are all distinct, and the label's children are the ids of all
      alarms but the root's, in order. */
  lemma LabelledInOrder(p: Progress, effects: seq<Effect>, first: nat, t: Timing, scenarioId: string)
    requires Tells(p, effects, first, t, scenarioId)
    ensures forall i, j :: 0 <= i < j < |p.alarms| ==> p.alarms[i].raisedAt <= p.alarms[j].raisedAt
    ensures forall i, j :: 0 <= i < j < |p.alarms| ==> p.alarms[i].alarmId != p.alarms[j].alarmId
    ensures |p.children| == |p.alarms| - 1 && forall k ::
      0 <= k < |p.children| ==> p.children[k] == p.alarms[k + 1].alarmId
  {
    hide AlarmId, RaisedAt;
    forall i: nat, j: nat | i < j < |p.alarms|
      ensures p.alarms[i].raisedAt <= p.alarms[j].raisedAt && p.alarms[i].alarmId != p.alarms[j].alarmId
    {
      NeverEarlier(t, i, j);
      AlarmIdsDiffer(first + i, first + j);
    }
  }

  lemma AlarmIdsDiffer(a: nat, b: nat)
    ensures AlarmId(a) == AlarmId(b) <==> a == b
  {
    PaddedInjective("ALM-", a, b, 7);
  }

  /** The k-th effect was raised by expanding some node, after everything earlier nodes raised. */
  lemma {:induction false} RaisedBy(g: CausalGraph, rules: Rules, nodes: seq<string>, k: nat) returns (i: nat)
    requires k < |Firings(g, rules, nodes)|
    ensures i < |nodes| && |Firings(g, rules, nodes[..i])| <= k
    ensures Hop(g, rules, nodes[i], Firings(g, rules, nodes)[k].managedObjectId)
    ensures Firings(g, rules, nodes[..i]) <= Firings(g, rules, nodes)
  {
    hide EffectsAlong, HopAlong;
    var front, last := nodes[..|nodes| - 1], nodes[|nodes| - 1];
    if k < |Firings(g, rules, front)| {
      i := RaisedBy(g, rules, front, k);
      assert front[..i] == nodes[..i];
    } else {
      i := |nodes| - 1;
      var raised := EffectsAlong(rules, Out(g, last));
      assert Objects(raised)[k - |Firings(g, rules, front)|] == Firings(g, rules, nodes)[k].managedObjectId;
      AlongRaisesTargets(rules, Out(g, last), Firings(g, rules, nodes)[k].managedObjectId);
    }
  }

  /** Every child was raised by a hop from a co-member of the root or from an object that alarmed before
      it; the root's own co-members need not have alarmed. */
  lemma ParentAlarmedBefore(g: CausalGraph, rules: Rules, root: Effect, members: seq<string>, expanded: seq<string>,
                            k: nat)
    returns (parent: string)
    requires IsWalk(g, rules, root, members, expanded, []) && 0 < k < |AllEffects(g, rules, root, expanded)|
    ensures Hop(g, rules, parent, AllEffects(g, rules, root, expanded)[k].managedObjectId)
    ensures parent in members || exists j ::
      0 <= j < k && AllEffects(g, rules, root, expanded)[j].managedObjectId == parent
  {
    hide Hop, Order, Firings, IsWalk, SomeHop;
    var effects := AllEffects(g, rules, root, expanded);
    var i := RaisedBy(g, rules, expanded, k - 1);
    parent := expanded[i];
    WalkFacts(g, rules, root, members, expanded, i);
    if i == 0 {
      assert effects[0].managedObjectId == parent;
    } else if i > |members| {
      FiringsRaiseTargets(g, rules, expanded[..i], expanded[i]);
      var earlier := Firings(g, rules, expanded[..i]);
      var m :| 0 <= m < |earlier| && Objects(earlier)[m] == expanded[i];
      assert earlier[m] == Firings(g, rules, expanded)[m] == effects[m + 1];
    }
  }

  lemma WalkFacts(g: CausalGraph, rules: Rules, root: Effect, members: seq<string>, expanded: seq<string>, i: nat)
    requires IsWalk(g, rules, root, members, expanded, []) && i < |expanded|
    ensures expanded[0] == root.managedObjectId
    ensures 0 < i <= |members| ==> expanded[i] in members
    ensures i > |members| ==> SomeHop(g, rules, expanded[..i], expanded[i])
  {
    hide Order, SomeHop;
    assert expanded + [] == expanded;
    if 0 < i <= |members| { assert expanded[i] == members[i - 1]; }
  }
}
