/** The whole trail computation of closure.py: closures, SRLG union, deduplication, tagging.

    `TrailsOf` is the specification the methods are proved against; the end-to-end laws are
    lemmas about it. */
module TrailCompute {
  import opened Common
  import opened TrailModels
  import opened TrailClosure
  import opened SrlgUnion
  import opened TrailIds

  const RISK_GROUP_OBJECT_TYPES := {"SRLG"}

  type Hash = string -> string

  // ---- Entries: one per seed and target area ----

  function Tag(bounded: seq<Bounded>, seed: string): seq<Entry> {
    seq(|bounded|, i requires 0 <= i < |bounded| => Entry(bounded[i].members, bounded[i].area, seed))
  }

  predicate IsSeed(g: ClosureGraph, n: string) {
    n in g.nodes && g.nodes[n].objectType !in RISK_GROUP_OBJECT_TYPES
  }

  ghost function EntriesOf(g: ClosureGraph, key: Option<string>, order: seq<string>): seq<Entry> {
    if order == [] then []
    else
      var last := order[|order|-1];
      EntriesOf(g, key, order[..|order|-1]) + if IsSeed(g, last) then Tag(BoundedOf(g, key, last), last) else []
  }

  function Swept(groups: seq<Group>, entries: seq<Entry>): seq<Entry> {
    seq(|entries|, i requires 0 <= i < |entries| =>
      Entry(Sweep(groups, entries[i].members), entries[i].area, entries[i].seed))
  }

  ghost function FinalEntries(slice: Slice, policy: TrailPolicy, order: seq<string>): seq<Entry> {
    Swept(SrlgGroups(policy, slice.edges), EntriesOf(GraphOf(slice, policy), AreaKey(policy), order))
  }

  // ---- Deduplication ----

  /** Some entry before position `n` has these members. */
  predicate Recorded(entries: seq<Entry>, n: nat, members: set<string>)
    requires n <= |entries|
  {
    n > 0 && (entries[n-1].members == members || Recorded(entries, n - 1, members))
  }

  /** The seed first recorded for a member set. */
  function SeedFor(entries: seq<Entry>, n: nat, members: set<string>): Option<string>
    requires n <= |entries|
  {
    if n == 0 then None
    else
      var prior := SeedFor(entries, n - 1, members);
      if prior.None? && entries[n-1].members == members then Some(entries[n-1].seed) else prior
  }

  /** The first area recorded for a member set, an area taking the place of an earlier None. */
  function AreaFor(entries: seq<Entry>, n: nat, members: set<string>): Option<string>
    requires n <= |entries|
  {
    if n == 0 then None
    else
      var prior := AreaFor(entries, n - 1, members);
      if prior.None? && entries[n-1].members == members then entries[n-1].area else prior
  }

  /** The first entry with these members that is bounded to an area. */
  ghost predicate IsFirstBounded(entries: seq<Entry>, n: nat, members: set<string>, i: nat) {
    && i < n <= |entries| && entries[i].members == members && entries[i].area.Some?
    && (forall j :: 0 <= j < i && entries[j].members == members ==> entries[j].area.None?)
  }

  lemma {:induction false} RecordedLater(entries: seq<Entry>, i: nat, n: nat)
    requires i < n <= |entries|
    ensures Recorded(entries, n, entries[i].members)
    decreases n
  {
    if i < n - 1 { RecordedLater(entries, i, n - 1); }
  }

  /** What the three tables say of a member set: it is recorded when some entry has it, its seed
      is that of the first such entry, and it has an area when any such entry has one. */
  lemma {:induction false} FirstRecord(entries: seq<Entry>, n: nat, members: set<string>)
    requires n <= |entries|
    ensures Recorded(entries, n, members) <==> exists i :: 0 <= i < n && entries[i].members == members
    ensures SeedFor(entries, n, members).Some? <==> Recorded(entries, n, members)
    ensures Recorded(entries, n, members) ==>
              exists i :: 0 <= i < n && entries[i].members == members &&
                          SeedFor(entries, n, members) == Some(entries[i].seed) &&
                          forall j :: 0 <= j < i ==> entries[j].members != members
    ensures AreaFor(entries, n, members).Some? ==>
              exists i: nat :: IsFirstBounded(entries, n, members, i) &&
                               entries[i].area == AreaFor(entries, n, members)
    ensures AreaFor(entries, n, members).None? ==>
              forall i :: 0 <= i < n && entries[i].members == members ==> entries[i].area.None?
  {
    if n > 0 {
      FirstRecord(entries, n - 1, members);
      if AreaFor(entries, n - 1, members).Some? {
        var i: nat :| IsFirstBounded(entries, n - 1, members, i) &&
                      entries[i].area == AreaFor(entries, n - 1, members);
        assert IsFirstBounded(entries, n, members, i);
      } else if entries[n - 1].members == members && entries[n - 1].area.Some? {
        assert IsFirstBounded(entries, n, members, n - 1);
      }
    }
  }

  /** The one area of a member set's area-bearing objects, or None when there is not exactly one. */
  function AreaOfMembers(members: set<string>, slice: Slice, key: Option<string>): Option<string> {
    var areas := set m | m in members && m in slice.nodes && slice.nodes[m].IgpArea(key).Some? ::
                   slice.nodes[m].IgpArea(key).value;
    if |areas| == 1 then Some(Least(areas)) else None
  }

  function SrlgContext(sorted: seq<string>): Option<string> {
    if sorted == [] then None
    else if "SRLG:" <= sorted[0] then Some(sorted[0])
    else SrlgContext(sorted[1..])
  }

  /** `area` is the only area among the members that have one. */
  ghost predicate IsOnlyArea(members: set<string>, slice: Slice, key: Option<string>, area: string) {
    && (exists m :: m in members && m in slice.nodes && slice.nodes[m].IgpArea(key) == Some(area))
    && (forall m :: m in members && m in slice.nodes && slice.nodes[m].IgpArea(key).Some? ==>
          slice.nodes[m].IgpArea(key) == Some(area))
  }

  lemma AreaOfMembersExactly(members: set<string>, slice: Slice, key: Option<string>, area: string)
    ensures AreaOfMembers(members, slice, key) == Some(area) <==> IsOnlyArea(members, slice, key, area)
  {
    var areas := set m | m in members && m in slice.nodes && slice.nodes[m].IgpArea(key).Some? ::
                   slice.nodes[m].IgpArea(key).value;
    if |areas| == 1 {
      var only := Least(areas);
      OnlyElement(areas, only);
      assert only in areas;
      forall m | m in members && m in slice.nodes && slice.nodes[m].IgpArea(key).Some?
        ensures slice.nodes[m].IgpArea(key) == Some(only)
      {
        assert slice.nodes[m].IgpArea(key).value in areas;
      }
      assert IsOnlyArea(members, slice, key, only);
    }
    if IsOnlyArea(members, slice, key, area) {
      assert areas == {area};
    }
  }

  lemma OnlyElement(s: set<string>, x: string)
    requires |s| == 1 && x in s
    ensures s == {x}
  {
    assert |s - {x}| == 0;
    assert s == {x} + (s - {x});
  }

  /** The context is the first member that is a risk group, if there is one. */
  lemma {:induction false} SrlgContextExactly(sorted: seq<string>, group: string)
    ensures SrlgContext(sorted) == Some(group) <==> exists i: nat :: IsFirstRiskGroup(sorted, group, i)
    ensures SrlgContext(sorted).None? <==> forall m :: m in sorted ==> !("SRLG:" <= m)
  {
    if sorted != [] {
      var rest := sorted[1..];
      assert sorted == [sorted[0]] + rest;
      SrlgContextExactly(rest, group);
      assert sorted[0] in sorted && forall m :: m in sorted <==> m == sorted[0] || m in rest;
      if "SRLG:" <= sorted[0] {
        assert sorted[0] == group ==> IsFirstRiskGroup(sorted, group, 0);
      } else {
        assert forall i: nat :: IsFirstRiskGroup(rest, group, i) ==> IsFirstRiskGroup(sorted, group, i + 1);
        assert forall i: nat :: IsFirstRiskGroup(sorted, group, i) ==> i > 0 && IsFirstRiskGroup(rest, group, i - 1);
      }
    }
  }

  ghost predicate IsFirstRiskGroup(sorted: seq<string>, group: string, i: nat) {
    i < |sorted| && sorted[i] == group && "SRLG:" <= group && forall j :: 0 <= j < i ==> !("SRLG:" <= sorted[j])
  }

  function TrailOf(slice: Slice, key: Option<string>, hash: Hash, members: set<string>, seed: Option<string>,
                   area: Option<string>): Trail
    requires members != {}
  {
    var sorted := Sorted(members);
    assert sorted != [] by { assert Elements(sorted) != {}; }
    Trail(
      DeterministicId(hash, slice.domain, slice.snapshotId, sorted),
      slice.domain,
      slice.snapshotId,
      if seed.Some? && seed.value != "" then seed.value else sorted[0],
      sorted,
      if key.None? || key.value == "" then None
      else if area.Some? then area
      else AreaOfMembers(members, slice, key),
      SrlgContext(sorted))
  }

  /** The distinct member sets of the first `n` entries, in order of first appearance. */
  function DistinctSets(entries: seq<Entry>, n: nat): (r: seq<set<string>>)
    requires n <= |entries|
    ensures forall m :: m in r ==> m != {}
  {
    if n == 0 then []
    else
      var members := entries[n-1].members;
      DistinctSets(entries, n - 1) + if members == {} || Recorded(entries, n - 1, members) then [] else [members]
  }

  /** The sets stand in the order of their first entries. */
  lemma {:induction false} DistinctSetsInOrder(entries: seq<Entry>, n: nat, i: nat, j: nat)
    requires n <= |entries| && i < j < |DistinctSets(entries, n)|
    ensures exists m: nat :: m < n && entries[m].members == DistinctSets(entries, n)[i] &&
              !Recorded(entries, m + 1, DistinctSets(entries, n)[j])
  {
    var prior, sets := DistinctSets(entries, n - 1), DistinctSets(entries, n);
    if j < |prior| {
      DistinctSetsInOrder(entries, n - 1, i, j);
    } else {
      DistinctSetIsRecorded(entries, n - 1, i);
      var m: nat :| m < n - 1 && entries[m].members == prior[i];
      NotRecordedBefore(entries, m + 1, n - 1, sets[j]);
    }
  }

  lemma {:induction false} DistinctSetIsRecorded(entries: seq<Entry>, n: nat, i: nat)
    requires n <= |entries| && i < |DistinctSets(entries, n)|
    ensures exists m: nat :: m < n && entries[m].members == DistinctSets(entries, n)[i]
  {
    if i < |DistinctSets(entries, n - 1)| { DistinctSetIsRecorded(entries, n - 1, i); }
  }

  lemma {:induction false} NotRecordedBefore(entries: seq<Entry>, m: nat, n: nat, members: set<string>)
    requires m <= n <= |entries| && !Recorded(entries, n, members)
    ensures !Recorded(entries, m, members)
    decreases n
  {
    if m < n { NotRecordedBefore(entries, m, n - 1, members); }
  }

  function TrailFor(slice: Slice, key: Option<string>, hash: Hash, entries: seq<Entry>, members: set<string>): Trail
    requires members != {}
  {
    TrailOf(slice, key, hash, members, SeedFor(entries, |entries|, members), AreaFor(entries, |entries|, members))
  }

  function TrailsFrom(slice: Slice, key: Option<string>, hash: Hash, entries: seq<Entry>): seq<Trail> {
    var sets := DistinctSets(entries, |entries|);
    seq(|sets|, i requires 0 <= i < |sets| => assert sets[i] in sets; TrailFor(slice, key, hash, entries, sets[i]))
  }

  ghost function TrailsOf(slice: Slice, policy: TrailPolicy, hash: Hash): seq<Trail> {
    TrailsFrom(slice, AreaKey(policy), hash, FinalEntries(slice, policy, Sorted(slice.nodes.Keys)))
  }

  // ---- The methods ----

  method CollectEntries(g: ClosureGraph, key: Option<string>) returns (entries: seq<Entry>)
    requires g.WellFormed()
    ensures entries == EntriesOf(g, key, Sorted(g.nodes.Keys))
  {
    hide BoundedOf, Tag, Sorted, Anchored;
    var ca := ConnectorAreas(g, key);
    entries := [];
    var order := Sorted(g.nodes.Keys);
    for i := 0 to |order|
      invariant entries == EntriesOf(g, key, order[..i])
    {
      var seed := order[i];
      assert order[..i+1][..i] == order[..i];
      assert seed in Elements(order);
      if g.nodes[seed].objectType !in RISK_GROUP_OBJECT_TYPES {
        var bounded := BoundedClosures(g, seed, key, ca);
        entries := entries + Tag(bounded, seed);
      }
    }
    assert order[..|order|] == order;
  }

  ghost predicate FirstRecords(entries: seq<Entry>, n: nat,
                               seedFor: map<set<string>, string>, areaFor: map<set<string>, Option<string>>)
    requires n <= |entries|
  {
    && seedFor.Keys == areaFor.Keys
    && (forall m :: m in seedFor <==> Recorded(entries, n, m))
    && (forall m :: m in seedFor ==> Some(seedFor[m]) == SeedFor(entries, n, m))
    && (forall m :: m in areaFor ==> areaFor[m] == AreaFor(entries, n, m))
  }

  method RecordFirst(entries: seq<Entry>)
    returns (seedFor: map<set<string>, string>, areaFor: map<set<string>, Option<string>>)
    ensures FirstRecords(entries, |entries|, seedFor, areaFor)
  {
    seedFor, areaFor := map[], map[];
    for i := 0 to |entries|
      invariant FirstRecords(entries, i, seedFor, areaFor)
    {
      var e := entries[i];
      FirstRecord(entries, i, e.members);
      if e.members !in seedFor {
        seedFor := seedFor[e.members := e.seed];
      }
      if e.members !in areaFor || (e.area.Some? && areaFor[e.members].None?) {
        areaFor := areaFor[e.members := e.area];
      }
    }
  }

  method Materialize(entries: seq<Entry>, slice: Slice, key: Option<string>, hash: Hash,
                     seedFor: map<set<string>, string>, areaFor: map<set<string>, Option<string>>)
    returns (trails: seq<Trail>)
    requires FirstRecords(entries, |entries|, seedFor, areaFor)
    ensures trails == TrailsFrom(slice, key, hash, entries)
  {
    trails := [];
    var seen: set<set<string>> := {};
    for i := 0 to |entries|
      invariant |trails| == |DistinctSets(entries, i)|
      invariant forall k :: 0 <= k < |trails| ==>
                  DistinctSets(entries, i)[k] != {} &&
                  trails[k] == TrailFor(slice, key, hash, entries, DistinctSets(entries, i)[k])
      invariant forall m :: m in seen <==> m != {} && Recorded(entries, i, m)
    {
      var members := entries[i].members;
      RecordedLater(entries, i, |entries|);
      if members != {} && members !in seen {
        trails := trails + [TrailOf(slice, key, hash, members, Some(seedFor[members]), areaFor[members])];
        seen := seen + {members};
      }
    }
  }

  method Compute(graphSlice: GraphSlice, policy: TrailPolicy, hash: Hash) returns (trails: seq<Trail>)
    requires graphSlice.Valid()
    ensures trails == TrailsOf(graphSlice.View(), policy, hash)
  {
    hide BoundedOf, Sorted, Sweep, SrlgGroups, Tag;
    var slice := graphSlice.View();
    var g := BuildGraph(graphSlice, policy);
    var key := AreaKey(policy);
    assert g.nodes.Keys == slice.nodes.Keys;

    // 1. Closures of every seed, in sorted seed order.
    var entries := CollectEntries(g, key);

    // 2. Shared-risk groups.
    var memberSets := seq(|entries|, i requires 0 <= i < |entries| => entries[i].members);
    var merged := UnionGroups(memberSets, slice.edges, policy);
    var final := seq(|entries|, i requires 0 <= i < |entries| => Entry(merged[i], entries[i].area, entries[i].seed));
    assert final == FinalEntries(slice, policy, Sorted(slice.nodes.Keys));

    // 3. First seed and area per distinct member set, then one trail for each.
    var seedFor, areaFor := RecordFirst(final);
    trails := Materialize(final, slice, key, hash, seedFor, areaFor);
  }
}
