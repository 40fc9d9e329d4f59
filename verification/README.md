# Alarm correlation: a verified model

The alarm-correlation platform turns a network topology into trails, compiles fault codebooks from it,
keeps both in stores that survive crashes and redeliveries, and can generate topologies and labelled
alarm streams of its own. This project models those algorithms and protocols in Dafny and proves what
they guarantee. Module names follow the components:

- **Trail builder.** `SliceFetch` fetches a slice; `TrailClosure` computes area-bounded closures,
  `SrlgUnion` unions shared-risk groups, `TrailCompute` ties them together and `TrailIds` names the
  results. `TrailLaws` and `AreaLaws` are the end-to-end laws. `TrailRepository` is the store and
  `TrailRetention` compares it with the full, never-pruned history.
- **Codebook generator.** `Propagation` is the breadth-first template search, `Scenarios` builds, tags,
  validates and projects, `CodebookStore` is the transactional store with one sequential compile cycle,
  and `CompileProtocol` interleaves any number of consumers with crashes and redeliveries.
- **Topology service.** `SnapshotIngest` has the graph port, the metadata rows, the ingest sequence and the
  reaper; `SnapshotFiles` and `SnapshotValidation` check what is uploaded; `IngestProtocol` runs any number
  of ingests concurrently with crashes and sweeps.
- **Simulator.** `Cascade` and `CascadeLaws` raise a fault's alarms, `Synthesis`, `SynthesisLaws`, `Labels`
  and `StreamSizing` make the labelled stream, `TopologyModel` and `SnapshotWriter` generate and validate
  topologies, `TopologyLaws` and `TopologyEdges` say which edges they have. `GeneratedTrails` carries the
  generator's guarantees over to the trail builder.
- `Common`, `Reachability`, `Decimals` and `ManagedObjectIds` hold what several components share.

Code that works step by step is a method with loops over mutable state, proved against a specification
function or property; the laws are lemmas about those specifications. `dafny verify dfyconfig.toml`
checks everything.

## What the proofs found

- The unbounded fallback (closure.py:144-148) is wider than its comment says: it is taken by any area-less
  seed with no area-bearing object within two hops (`TrailClosure.FallbackExactly`), and its trail can then mix
  areas (`TrailClosure.FallbackMixesAreas`).
- The comment at closure.py:54-56 says that one member set may appear under two areas and stays two
  trails. Deduplication would fuse such sets, but when shared-risk objects are area-less they cannot occur
  (`AreaLaws.SameMembersSameArea`). The exact condition for truthful tags is `AreaLaws.TagsAreSafeExactly`;
  two areas in one group break it (`AreaLaws.SharedAreasMislead`).
- One shared-risk pass is not always enough (`SrlgUnion.OverlappingGroupsNeedOrder`). It is exactly when
  chains of overlapping groups can be walked at rising positions (`SrlgUnion.OnePassSufficesExactly`), as on
  every topology the simulator generates (`GeneratedTrails.GeneratedGroupsAreIndependent`).
- Trails are keyed by an id whose hashed string joins domain, snapshot and members by `|`. Without that
  character in domains and snapshot ids it tells all trails apart (`TrailIds.PreImageSeparates`). In general two
  (domain, snapshot) pairs have trails that hash alike if and only if the pairs join to the same string or one
  continues the other by a separator and a sorted list of valid ids (`TrailIds.ClashExactly`, instances in
  `TrailIds.PreImageClashesAcrossDomains`). Such a trail blocks the later build
  (`TrailRepository.TakenIdBlocksBuild`).
- services/codebook-generator/design.md:742 wants one emission for a duplicated event; the code emits the stored
  codebook again at every delivery, as design.md:690 has it (`CodebookStore.Pipeline.Compile`). The model follows
  the code.
- Scenario keys join a codebook id and an origin's object id, so an origin listed twice, by a repeated fault-origin
  type or a repeated node, crashes the consumer at every redelivery (`CodebookStore.RepeatedOriginNeverCompiles`,
  `CodebookStore.TwiceGivenAlwaysCrashes`). A missing origin alarm does the same: neither is dead-lettered.
- An ingest keeps every snapshot's data if and only if its id is safe (`SnapshotIngest.IngestKeepsDataExactly`).
  An id of the domain's previous snapshot is made current and then emptied (`SnapshotIngest.PreviousIdIsEmptied`);
  an id whose row stays is refused, but only after its data was written into the visible snapshot
  (`SnapshotIngest.RefusedUploadIsVisible`); leftovers of a crashed ingest mix in (`SnapshotIngest.LeftoversMixIn`).
- A sweep that runs between an ingest's graph write and its cut-over loses the data
  (`IngestProtocol.SweepSparesInFlightExactly`, `IngestProtocol.InterruptedIngestIsEmpty`). Everything else may
  overlap with a sweep (`IngestProtocol.SweepKeepsExactly`), and `IngestProtocol` sweeps exactly then.
- With a co-failure relation a cascade expands a co-member twice exactly when the walk reaches it
  (`CascadeLaws.ExpandedOnceExactly`, `CascadeLaws.CoMemberExpandedTwice`).
- Naming a scenario twice in the selection loses the labels of its first round
  (`SynthesisLaws.SignalLabelledExactly`, `SynthesisLaws.SelectedTwiceLosesLabels`).
- The stream size drifts from its target when background and noise leave less than one in a million for the
  signal, which the settings allow (`StreamSizing.SizeWithinOneExactly`).

## Assumptions

Random draws, clocks, hash values and the answers of other services are parameters and may be anything.
Transactions are atomic and abort on a key conflict. Reals stand for floating-point numbers. Beyond that:
trail builds of one store have strictly increasing times and at least one trail (a build without trails leaves
no rows); an event id fixes its payload; ingests use fresh snapshot ids; the Topology API's graph is finite and,
for `SliceFetch.NoEdgeIsDropped`, an entry of its neighbours joins the queried object.

## Model

| member | source | states |
|---|---|---|
| `TrailClosure.BuildGraph` | services/trail-builder/src/trailbuilder/closure.py:93-107 | the graph has every slice node with its area under the boundary key, and exactly the slice's edges of a closure relation whose two endpoints are slice nodes |
| `TrailClosure.GraphOfExactly` | services/trail-builder/src/trailbuilder/closure.py:93-107 | a node of that graph lies in an area if and only if areas bound closures and its slice node has the area under the boundary's non-empty attribute key; an edge is kept if and only if it is of a closure relation and joins two slice nodes |
| `TrailClosure.NeighborsExactly` | services/trail-builder/src/trailbuilder/closure.py:169-220 | two nodes are neighbours if and only if an edge joins them, either way |
| `TrailClosure.ConnectorAreas` | services/trail-builder/src/trailbuilder/closure.py:169-220 | the two rounds give each area-less object exactly the areas found at undirected distance one, or at distance two through an area-less object |
| `TrailClosure.Reachable` | services/trail-builder/src/trailbuilder/closure.py:222-257 | the worklist result is the seed and everything that hops into admitted nodes reach from it, on any graph |
| `TrailClosure.BoundedClosures` | services/trail-builder/src/trailbuilder/closure.py:109-149 | one closure for each target area in sorted order, or a single unbounded one when there is no boundary or no target area |
| `TrailClosure.BoundedSetIsComponent` | services/trail-builder/src/trailbuilder/closure.py:109-277 | a closure holds its seed; bounded to an area it is a connected component of the subgraph of nodes that area admits, unbounded it is a component of the whole graph |
| `TrailClosure.EveryComponentIsAClosure` | services/trail-builder/src/trailbuilder/closure.py:109-149 | conversely, each component of an area's admitted nodes is the closure of every one of its members under that area |
| `TrailClosure.ClosureOverlap` | services/trail-builder/src/trailbuilder/closure.py:109-277 | two sets bounded to one area are equal or disjoint; sets bounded to different areas share only area-less connectors anchored to both |
| `TrailClosure.FallbackExactly` | services/trail-builder/src/trailbuilder/closure.py:140-148 | with a boundary, the unbounded closure is taken if and only if the seed is area-less and no area-bearing object lies within two hops |
| `TrailClosure.FallbackMixesAreas` | services/trail-builder/src/trailbuilder/closure.py:140-148 | a connector three hops from two areas is no area-less island, and its unbounded closure holds objects of both areas |
| `SrlgUnion.CollectGroups` | services/trail-builder/src/trailbuilder/closure.py:309-313 | the groups found are those of the dictionary built edge by edge, in order of first appearance |
| `SrlgUnion.DictHoldsCoMembers` | services/trail-builder/src/trailbuilder/closure.py:309-313 | the dictionary has a key for every endpoint of a membership edge and nothing else, and a key's co-members are exactly the sources of membership edges into it |
| `SrlgUnion.GroupsExactly` | services/trail-builder/src/trailbuilder/closure.py:301-313 | there are groups only under the union rule with a non-empty relation: one for each end of an edge of it, with the sources of the edges into that end |
| `SrlgUnion.GroupsInOrder` | services/trail-builder/src/trailbuilder/closure.py:309-313 | the groups stand in the order in which their nodes first come up among the membership edges |
| `SrlgUnion.SweepOfOneGroup` | services/trail-builder/src/trailbuilder/closure.py:315-325 | a group with two different co-members adds itself and all co-members to a set that holds one of them; no other group does anything |
| `SrlgUnion.UnionGroups` | services/trail-builder/src/trailbuilder/closure.py:281-325 | the loop over groups and member sets gives each set one sweep over the groups; without the union rule every set is unchanged |
| `SrlgUnion.SweepBounds` | services/trail-builder/src/trailbuilder/closure.py:315-325 | for any groups: nothing is lost, every qualifying group the original set touched is completed, and nothing is added that a complete superset could do without |
| `SrlgUnion.SweepDistributes` | services/trail-builder/src/trailbuilder/closure.py:315-325 | the sweep of a union of sets is the union of their sweeps |
| `SrlgUnion.SweepHasOrigin` | services/trail-builder/src/trailbuilder/closure.py:315-325 | whatever a sweep holds is already in the sweep of one single original member |
| `SrlgUnion.SweepRises` | services/trail-builder/src/trailbuilder/closure.py:315-325 | the sweep of one element holds exactly what a chain of qualifying groups at rising positions carries it to |
| `SrlgUnion.OnePassSufficesExactly` | services/trail-builder/src/trailbuilder/closure.py:315-325 | one pass completes every touched group for all member sets if and only if whatever overlapping groups carry an element to, in any order, groups at rising positions carry it to as well |
| `SrlgUnion.IndependentSweepIsFixpoint` | services/trail-builder/src/trailbuilder/closure.py:315-325 | when qualifying groups are disjoint and no group's node is another's co-member, one pass is the least complete superset, idempotent and independent of group order |
| `SrlgUnion.OverlappingGroupsNeedOrder` | services/trail-builder/src/trailbuilder/closure.py:281-325 | four membership edges over any five objects form two overlapping groups; listed in one order, one pass leaves a touched group incomplete, and listed in another it completes all |
| `ManagedObjectIds.ValidExactly` | libs/event-model/python/src/acp_event_model/managed_object_id.py:45-80 | a string is valid if and only if it is a type token, a colon and a colon-free identifier, and then parsing yields exactly those parts |
| `ManagedObjectIds.TokenExactly` | libs/event-model/python/src/acp_event_model/managed_object_id.py:45-80 | a type token is a letter followed by letters and digits of the ASCII alphabet |
| `ManagedObjectIds.ParseRenderRoundTrip` | libs/event-model/python/src/acp_event_model/managed_object_id.py:66-74 | parsing a rendered id and rendering a parsed one give back the original |
| `TrailIds.DecodeJoin` | services/trail-builder/src/trailbuilder/closure.py:389-392 | the members joined by the separator decode from the right to exactly the member list, though identifiers may hold the separator |
| `TrailIds.PreImageInjective` | services/trail-builder/src/trailbuilder/closure.py:389-392 | for one domain and snapshot, equal hashed strings come from equal member lists |
| `TrailIds.PreImageSeparates` | services/trail-builder/src/trailbuilder/closure.py:389-392 | when domains and snapshot ids hold no separator, equal hashed strings come from equal domains, snapshots and member lists |
| `TrailIds.ClashExactly` | services/trail-builder/src/trailbuilder/closure.py:389-392 | some trails of two (domain, snapshot) pairs hash one string if and only if the pairs read the same with the separator between, or one of them goes on where the other ends with a separator and a sorted list of valid ids |
| `TrailIds.PreImageClashesAcrossDomains` | services/trail-builder/src/trailbuilder/closure.py:389-392 | one instance of each: equal heads of different domains, and a snapshot id that ends in a member |
| `TrailCompute.CollectEntries` | services/trail-builder/src/trailbuilder/closure.py:58-73 | the entries are the closures of every non-risk-group node, in sorted seed order, each with its area and seed |
| `TrailCompute.RecordFirst` | services/trail-builder/src/trailbuilder/closure.py:81-88 | the two tables hold, for every member set seen, the seed of its first entry and its first area, an area replacing an earlier None |
| `TrailCompute.FirstRecord` | services/trail-builder/src/trailbuilder/closure.py:81-88 | the recorded seed is that of the first entry with the set, and the recorded area is None only when no entry with the set has one |
| `TrailCompute.Materialize` | services/trail-builder/src/trailbuilder/closure.py:329-363 | one trail for each distinct non-empty member set in order of first appearance, with the recorded seed and area |
| `TrailCompute.Compute` | services/trail-builder/src/trailbuilder/closure.py:33-89 | the three steps on a mutable slice return the trails of the specification that the laws below are about |
| `TrailLaws.FamilyIgnoresSeedOrder` | services/trail-builder/src/trailbuilder/closure.py:58-73 | visiting the seeds in any order yields the same family of member sets: those some seed produces |
| `Common.BelowExactly` | services/trail-builder/src/trailbuilder/closure.py:58-60 | the order of the seeds is Python's order of strings: the first difference decides and a proper prefix comes first |
| `TrailLaws.OneTrailPerMemberSet` | services/trail-builder/src/trailbuilder/closure.py:329-363 | no two trails have the same members, members are strictly sorted, and a set has a trail if and only if some seed produces it |
| `TrailLaws.LeastSeed` | services/trail-builder/src/trailbuilder/closure.py:81-88 | a trail's recorded seed is a member, produces the set, and is the least seed that does |
| `TrailLaws.EveryObjectIsCovered` | services/trail-builder/src/trailbuilder/closure.py:58-89 | every node that is not a risk group is a member of some returned trail |
| `TrailLaws.DistinctTrailsHashDistinctStrings` | services/trail-builder/src/trailbuilder/closure.py:389-392 | different trails of one build hash different strings when their members are well-formed |
| `TrailLaws.IdNamesTrail` | services/trail-builder/src/trailbuilder/closure.py:342-362 | a returned trail carries its slice's domain and snapshot, and its id is `trail-` and at most 24 characters of the hash of domain, snapshot and a string that decodes to exactly its members |
| `TrailLaws.IdsAreDistinct` | services/trail-builder/src/trailbuilder/closure.py:389-392 | when the hash keeps strings apart in its first 24 characters, no two trails of one build share an id |
| `TrailLaws.TagExactly` | services/trail-builder/src/trailbuilder/closure.py:349-354 | the tag is the area of the first entry that bounds the members to one; where none does, it is the only area among the members if there is exactly one; without a boundary key there is no tag |
| `TrailLaws.ContextExactly` | services/trail-builder/src/trailbuilder/closure.py:381-386 | the shared-risk context is the first risk group among the sorted members, and absent only if there is none |
| `TrailLaws.TrailsInOrder` | services/trail-builder/src/trailbuilder/closure.py:338-363 | trails are returned in the order in which their member sets first come up |
| `TrailLaws.EntriesOfOne` | services/trail-builder/src/trailbuilder/closure.py:58-73 | a seed gives one entry for each of its closures, in order, and a risk group gives none |
| `TrailLaws.EntriesConcat` | services/trail-builder/src/trailbuilder/closure.py:58-73 | the entries of several seeds follow one another, seed by seed |
| `AreaLaws.TagsAreSafe` | services/trail-builder/src/trailbuilder/closure.py:33-89 | when shared-risk objects carry no area, a trail tagged with an area has only members of that area among its area-bearing ones |
| `AreaLaws.MixedTrailsAreUntagged` | services/trail-builder/src/trailbuilder/closure.py:349-354 | under the same hypothesis a trail that mixes areas has no tag |
| `AreaLaws.TagsAreSafeExactly` | services/trail-builder/src/trailbuilder/closure.py:281-378 | given a boundary key, all tags are truthful if and only if no chain of groups at rising positions leads from a member of a seed's closure bounded to an area to an object of another area |
| `AreaLaws.SharedAreasMislead` | services/trail-builder/src/trailbuilder/closure.py:281-378 | two nodes of different areas in one group share a trail that is tagged with one of the areas |
| `AreaLaws.SameMembersSameArea` | services/trail-builder/src/trailbuilder/closure.py:51-57 | with area-less shared objects, sets bounded to different areas never have the same members after the union, so deduplication fuses none of them |
| `SliceFetch.Relations` | services/trail-builder/src/trailbuilder/clients/topology_client.py:55-57 | the relation list has no repeats and holds the closure relations and a non-empty SRLG relation |
| `SliceFetch.ListSeeds` | services/trail-builder/src/trailbuilder/clients/topology_client.py:61-67 | the slice holds exactly the listed nodes of the seed types, each as it was listed, and those are the seeds |
| `SliceFetch.SeedsExactly` | services/trail-builder/src/trailbuilder/clients/topology_client.py:61-67 | the nodes listed are those of some seed type's listing, and the seeds are their ids |
| `SliceFetch.FetchSlice` | services/trail-builder/src/trailbuilder/clients/topology_client.py:38-87 | on any finite graph the loop ends; the nodes are the least set that holds the seeds and is closed under neighbours, each expanded once and recorded as it was reported; the edges are exactly those reported for them, each once |
| `SliceFetch.ClosureIsReachability` | services/trail-builder/src/trailbuilder/clients/topology_client.py:69-87 | a node is fetched if and only if a chain of neighbours leads to it from a seed |
| `SliceFetch.NoEdgeIsDropped` | services/trail-builder/src/trailbuilder/closure.py:104-106 | when neighbour entries join what they are reported for, both endpoints of every edge are nodes, so the closure graph keeps every edge of its relations |
| `TrailRepository.TrailRepository.constructor` | services/trail-builder/src/trailbuilder/repository.py:33-37 | the retention is at least one |
| `TrailRepository.TrailRepository.InsertTrail` | services/trail-builder/src/trailbuilder/repository.py:55-79 | a trail is stored with its members if and only if its id is free and it is storable; a stored one has members, all distinct and valid; otherwise nothing changes |
| `TrailRepository.StorableExactly` | services/trail-builder/src/trailbuilder/repository.py:55-79 | a trail can be stored if and only if its members are present, distinct and valid ids |
| `TrailRepository.InsertsExactly` | services/trail-builder/src/trailbuilder/repository.py:55-79 | a build inserts if and only if its trail ids are distinct and free and every trail is storable; then each trail has its row and no other row changes |
| `TrailRepository.TakenIdBlocksBuild` | services/trail-builder/src/trailbuilder/repository.py:39-80 | a trail whose id is taken under another domain or snapshot blocks its whole build, however often it is repeated |
| `TrailRepository.TrailRepository.PersistBuild` | services/trail-builder/src/trailbuilder/repository.py:39-80 | in one transaction the pair is superseded, the trails inserted and the domain pruned; a failed insert leaves the tables as they were, and members always match trails |
| `TrailRepository.TrailRepository.PruneOldSnapshots` | services/trail-builder/src/trailbuilder/repository.py:82-100 | of the domain only the first `retention` snapshots of a newest-first order stay |
| `TrailRepository.TrailRepository.SnapshotsNewestFirst` | services/trail-builder/src/trailbuilder/repository.py:125-134 | every snapshot of the domain once, by latest build time descending |
| `TrailRepository.TrailRepository.ResolveSnapshotId` | services/trail-builder/src/trailbuilder/repository.py:102-123 | `current` and `previous` are ranks 0 and 1 of that order when they exist, any other token is itself |
| `TrailRepository.TrailRepository.TrailIdsForObject` | services/trail-builder/src/trailbuilder/repository.py:136-148 | the sorted ids of exactly the domain's trails that have the object as a member |
| `TrailRetention.RetentionKeepsTheRecent` | services/trail-builder/src/trailbuilder/repository.py:39-100 | after any committed builds the store holds, for every domain, exactly the trails of the `retention` most recently built snapshots of the full history, each with its last build |
| `TrailRetention.SentinelsResolveToRanks` | services/trail-builder/src/trailbuilder/repository.py:102-134 | rank r of the stored order is rank r of the full history's recency, and absent exactly when beyond the retention or the history |
| `TrailRetention.RecencyHoldsLastBuilds` | services/trail-builder/src/trailbuilder/repository.py:125-134 | the recency list used above holds exactly the last build of each of the domain's snapshots |
| `Propagation.BuildClosureGraph` | services/codebook-generator/src/codebook_generator/propagation.py:31-48 | every listed or mentioned object is a typed node, and each node's arcs are exactly its traversed edges, regrouped by target as the adjacency lists hold them |
| `Propagation.ArcsCounted` | services/codebook-generator/src/codebook_generator/propagation.py:41-47 | a node has an arc as often as its edge was traversed |
| `Propagation.ArcsConcat` | services/codebook-generator/src/codebook_generator/propagation.py:41-47 | arcs are taken up in the order of the edges |
| `Propagation.InsertArcPlaces` | services/codebook-generator/src/codebook_generator/propagation.py:41-47 | a new arc goes right behind the last arc to its target, and to the end when there is none |
| `Propagation.TypeOfListed` | services/codebook-generator/src/codebook_generator/propagation.py:38-53 | a listed node has the type of its last entry |
| `Propagation.TypeOfUnlisted` | services/codebook-generator/src/codebook_generator/propagation.py:38-53 | a node that is not listed has the origin's type if it is the origin, and else the one its id begins with |
| `Propagation.InferTypeIs` | services/codebook-generator/src/codebook_generator/propagation.py:51-53 | the inferred type has no colon and is the whole id or what stands before its first colon |
| `Propagation.OriginAlarmExactly` | services/codebook-generator/src/codebook_generator/propagation.py:56-67 | the origin alarm is a if and only if a is the non-empty alarm of an entry of the origin's type before which no entry of that type has one; it is missing if and only if no entry of the type has one |
| `Propagation.Propagate` | services/codebook-generator/src/codebook_generator/propagation.py:74-126 | the signature has no repeats, starts with the alarm of the first entry of the origin's type that has one, on the origin, holds exactly what template firings reach from it, lists it by shortest cascade depth, and among equals in the order in which its own items first raise it; it fails if and only if no entry of the type has an alarm |
| `Propagation.Search` | services/codebook-generator/src/codebook_generator/propagation.py:99-126 | the queue loop, which may hold duplicates, ends on any cyclic multigraph with that signature |
| `Propagation.Finished` | services/codebook-generator/src/codebook_generator/propagation.py:99-126 | once all levels are expanded the list is in depth order and complete |
| `Propagation.FiredAlongIs` | services/codebook-generator/src/codebook_generator/propagation.py:113-124 | along an arc fire exactly the templates that match the relation, the types of both ends and the alarm, each in its place |
| `Propagation.FiredFromConcat` | services/codebook-generator/src/codebook_generator/propagation.py:113-124 | firings along several arcs follow one another, arc by arc |
| `Propagation.RaisedConcat` | services/codebook-generator/src/codebook_generator/propagation.py:106-124 | what several items raise follows one another, item by item |
| `Propagation.SignatureIsUnique` | services/codebook-generator/src/codebook_generator/propagation.py:99-126 | completeness and the order of firing, item by item, arc by arc and template by template, leave exactly one signature |
| `Propagation.SignatureIsLeastFixpoint` | services/codebook-generator/src/codebook_generator/propagation.py:74-126 | as a set the signature is the least one that holds the seed alarm and is closed under firing |
| `Propagation.SignatureIsMonotone` | services/codebook-generator/src/codebook_generator/propagation.py:74-126 | more nodes, arcs or templates lose no symptom |
| `Scenarios.TagScenario` | services/codebook-generator/src/codebook_generator/tagging.py:14-28 | the trail ids are those found for any symptom's object, without repeats, in first-seen order, although each object is looked up once |
| `Scenarios.AllTrailsConcat` | services/codebook-generator/src/codebook_generator/tagging.py:14-28 | trails found for several symptoms follow one another |
| `Scenarios.AllTrailsOfOne` | services/codebook-generator/src/codebook_generator/tagging.py:14-28 | for one symptom they are what the lookup gives for its object |
| `Common.FirstOccurrencesInOrder` | services/codebook-generator/src/codebook_generator/tagging.py:14-28 | first-seen order: what stands first among the distinct ids occurs before the other does |
| `Scenarios.FirstUnknownExactly` | services/codebook-generator/src/codebook_generator/vocabulary.py:22-41 | the first unknown symptom is none exactly when every token is known, and otherwise is a symptom with an unknown token |
| `Scenarios.ValidExactly` | services/codebook-generator/src/codebook_generator/vocabulary.py:22-41 | validation passes if and only if every symptom of every scenario has a known token, and a failure names such a scenario and symptom |
| `Scenarios.RootCauseIsOriginAlarm` | services/codebook-generator/src/codebook_generator/vocabulary.py:44-60 | for a compiled scenario the root cause is the alarm of the first entry of the origin's type that has one, even when the cascade returns to the origin, and after validation it is in the vocabulary |
| `Scenarios.RootCauseExactly` | services/codebook-generator/src/codebook_generator/vocabulary.py:44-60 | the root cause is the alarm of the first symptom on the origin, else of the first symptom; only a scenario without symptoms has none |
| `Scenarios.OriginsConcat` | services/codebook-generator/src/codebook_generator/pipeline.py:145-150 | the origins of several types follow one another, type by type |
| `Scenarios.OriginsOfOne` | services/codebook-generator/src/codebook_generator/pipeline.py:145-150 | one type's origins are its listed objects |
| `Scenarios.ProjectionNamesOrigin` | services/codebook-generator/src/codebook_generator/projection.py:31-59 | a compiled scenario projects to one signature for each of its trails asked for, in order, with its id, all its symptoms and its origin type's alarm as root cause |
| `Scenarios.BuildScenario` | services/codebook-generator/src/codebook_generator/pipeline.py:148-166 | a scenario has its origin's complete signature over the traversed graph and exactly the trails of its symptoms |
| `Scenarios.BuildScenarios` | services/codebook-generator/src/codebook_generator/pipeline.py:134-168 | one scenario for each listed origin, in order; it fails if and only if some listed origin's type has no alarm |
| `Scenarios.CompiledPredicts` | services/codebook-generator/src/codebook_generator/pipeline.py:148-166 | a compiled scenario's symptoms are exactly those that chains of traversed edges and templates lead to from the origin's own alarm, told from the fetched inputs alone |
| `Scenarios.ProjectionIsFilterExactly` | services/codebook-generator/src/codebook_generator/projection.py:31-59 | projecting for one trail equals filtering the full fan-out for every trail if and only if the scenario's trail ids are distinct |
| `Scenarios.OccurrencesCount` | services/codebook-generator/src/codebook_generator/projection.py:31-59 | occurrences are those of the multiset |
| `Scenarios.OnTrailOfOne` | services/codebook-generator/src/codebook_generator/projection.py:31-59 | filtering keeps a signature if and only if it is of the trail |
| `Scenarios.ProjectCodebook` | services/codebook-generator/src/codebook_generator/projection.py:62-69 | the signatures of all scenarios in order, or the error of the first scenario that has no root cause |
| `Scenarios.ProjectConcat` | services/codebook-generator/src/codebook_generator/projection.py:62-69 | projections of two parts of a codebook follow one another, and the first part that raises decides |
| `Scenarios.ProjectOne` | services/codebook-generator/src/codebook_generator/projection.py:62-69 | a codebook of one scenario projects as the scenario does |
| `Scenarios.CodebookForTrail` | services/codebook-generator/src/codebook_generator/projection.py:62-69 | over a whole codebook, the projection for a trail equals the filtered fan-out if and only if no scenario lists the trail twice |
| `CodebookStore.IdsDistinctExactly` | services/codebook-generator/src/codebook_generator/store.py:86-88 | scenario ids of one codebook are distinct if and only if the origins are |
| `CodebookStore.InsertsExactly` | services/codebook-generator/src/codebook_generator/store.py:132-195 | a batch inserts if and only if its ids are distinct and free; then each scenario has its row and every other row is unchanged |
| `CodebookStore.CodebookStore.AlreadyProcessed` | services/codebook-generator/src/codebook_generator/store.py:116-130 | none for an unseen event, else the recorded codebook id or the empty string |
| `CodebookStore.CodebookStore.PersistCodebook` | services/codebook-generator/src/codebook_generator/store.py:132-195 | demote, insert and record commit together or, on any key conflict, not at all; a commit leaves the codebook's row, the event's row and one row for each of its scenarios, every other scenario row as it was, and at most one codebook active for a domain and snapshot |
| `CodebookStore.CodebookStore.RecordProcessedNoCodebook` | services/codebook-generator/src/codebook_generator/store.py:197-207 | records the event without a codebook unless it is already recorded |
| `CodebookStore.CodebookStore.GetActive` | services/codebook-generator/src/codebook_generator/store.py:224-238 | an active codebook of the domain and snapshot, or none exactly when there is none |
| `CodebookStore.Pipeline.Compile` | services/codebook-generator/src/codebook_generator/pipeline.py:66-132 | a new event compiles if and only if every listed origin has an alarm, all predicted tokens are known, no origin is listed twice and the keys are free; it fails if and only if the inputs are unavailable or, all origins having alarms, a predicted token is unknown; else the consumer crashes. A duplicate changes no row and emits the recorded codebook again. Each call that compiles emits exactly once, unless its event was processed without a codebook; no other call changes the store or the topic |
| `CodebookStore.TrailsBuiltHandler.Handle` | services/codebook-generator/src/codebook_generator/consumer.py:61-98 | a message goes to the dead-letter topic if and only if it does not decode, has another type, names no snapshot, or fails in the sense above, and then store and topic are untouched; any other is compiled under its own or the default domain, exactly under the condition above, or crashes |
| `CodebookStore.KnownExactly` | services/codebook-generator/src/codebook_generator/vocabulary.py:22-41 | validation of the compiled batch passes if and only if every symptom the inputs predict for a listed origin has a known token |
| `CodebookStore.PersistsExactly` | services/codebook-generator/src/codebook_generator/store.py:132-195 | the compiled batch persists if and only if the event is new, no origin is listed twice and the codebook's and scenarios' keys are free |
| `CodebookStore.RecordedIsFound` | services/codebook-generator/src/codebook_generator/pipeline.py:78-96 | after a commit the codebook recorded for the event is the committed one with its scenario count, so that a duplicate emits the same |
| `CodebookStore.NothingIsFound` | services/codebook-generator/src/codebook_generator/pipeline.py:78-96 | an event that is not recorded, or without a codebook, has none |
| `CodebookStore.TriggerExactly` | services/codebook-generator/src/codebook_generator/consumer.py:61-89 | a delivery is a trigger if and only if it decodes, has the right type and names a snapshot; the domain is its own unless that is blank |
| `CodebookStore.CodebooksSeparate` | services/codebook-generator/src/codebook_generator/store.py:86-88 | codebook ids without a colon keep the scenario keys of different codebooks apart |
| `CodebookStore.RepeatedOriginNeverCompiles` | services/codebook-generator/src/codebook_generator/pipeline.py:134-168 | an origin listed twice keeps its event from ever compiling, whatever is stored and whatever codebook id is drawn |
| `CodebookStore.TwiceGivenAlwaysCrashes` | services/codebook-generator/src/codebook_generator/pipeline.py:134-168 | a fault-origin type given twice, with all tokens known, crashes the consumer at every delivery |
| `CompileProtocol.ReplayHoldsCommits` | services/codebook-generator/src/codebook_generator/store.py:132-195 | replaying the commits leaves exactly their rows: each codebook active only while no later commit has the same domain and snapshot, and a scenario row for each scenario of a commit and for nothing else |
| `CompileProtocol.CommitsAreDistinct` | services/codebook-generator/src/codebook_generator/store.py:132-195 | no event and no codebook is committed twice |
| `CompileProtocol.RunsAreSafe` | services/codebook-generator/src/codebook_generator/pipeline.py:66-132 | in every interleaving of any number of consumers with crashes and redeliveries, the tables are the replay of the commits and every emission is backed by them |
| `CompileProtocol.ScenariosAreStored` | services/codebook-generator/src/codebook_generator/store.py:173-188 | in every run each scenario of each commit has its row under its codebook, and every scenario row is one of these |
| `CompileProtocol.OneCodebookPerEvent` | services/codebook-generator/src/codebook_generator/pipeline.py:78-96 | an event has at most one codebook, and all its emissions are the same: that codebook, its stored scenario count and the trigger's key |
| `CompileProtocol.EmittedAfterPersisted` | services/codebook-generator/src/codebook_generator/pipeline.py:111-131 | when an emission appears, the codebook it names was committed for its event before |
| `CompileProtocol.ExactlyOneActive` | services/codebook-generator/src/codebook_generator/store.py:140-195 | a domain and snapshot with a codebook have exactly one active codebook, the one persisted last |
| `CompileProtocol.RedeliveryReemits` | services/codebook-generator/src/codebook_generator/pipeline.py:82-96 | after a crash between persist and emit, an undisturbed redelivery emits the stored codebook and commits nothing |
| `CompileProtocol.UndisturbedCompile` | services/codebook-generator/src/codebook_generator/pipeline.py:66-132 | a first delivery that nothing interleaves is a run of the protocol that commits and emits once |
| `CompileProtocol.SecondCommitAborts` | services/codebook-generator/src/codebook_generator/store.py:180-195 | of two consumers that both passed the duplicate check, the second to persist aborts and changes nothing |
| `SnapshotIngest.PortFrame` | services/topology/src/main/java/com/acp/topology/graph/GraphRepository.java:18-22 | writing or deleting one snapshot leaves every other snapshot's data alone, deletion leaves none of its own, and a write under an absent id leaves exactly what was written |
| `SnapshotFiles.SchemaHolds` | services/topology/src/main/java/com/acp/topology/ingest/SnapshotValidationService.java:73-84 | the loops over nodes and edges decide the schema's required fields, minimum lengths and id patterns |
| `SnapshotValidation.SemanticChecks` | services/topology/src/main/java/com/acp/topology/ingest/SnapshotValidationService.java:123-159 | a violation is listed if and only if it is a node whose id is not valid, a node whose valid id has another prefix than its type, or an end of an edge that no node has; there is none if and only if the file is sound |
| `SnapshotValidation.VocabularyChecks` | services/topology/src/main/java/com/acp/topology/ingest/VocabularyValidator.java:33-57 | exactly the nodes and edges whose object type or relation the domain's vocabulary lacks are listed |
| `SnapshotValidation.Check` | services/topology/src/main/java/com/acp/topology/ingest/IngestionService.java:48-53 | the checks run in order: invalid files first, then a missing vocabulary, then unknown types and relations |
| `SnapshotIngest.Lift` | services/topology/src/main/java/com/acp/topology/ingest/LiftingService.java:23-45 | one vertex for each node and one link for each edge, all under the snapshot id and the domain |
| `SnapshotIngest.LiftedExactly` | services/topology/src/main/java/com/acp/topology/ingest/LiftingService.java:23-45 | the lifted data holds for each record its id and type, or its ends and relation, under the file's domain and the snapshot id, and nothing else |
| `SnapshotIngest.CutOverExactly` | services/topology/src/main/java/com/acp/topology/meta/SnapshotMetadataService.java:42-49 | the cut-over fails if and only if the id is taken by a row other than the domain's previous one; otherwise the new row is current, the old current previous, the old previous gone, other domains untouched |
| `SnapshotIngest.SnapshotMetadataService.IsFirstIngest` | services/topology/src/main/java/com/acp/topology/meta/SnapshotMetadataService.java:33-35 | true exactly when no row has the domain |
| `SnapshotIngest.SnapshotMetadataService.CutOverTo` | services/topology/src/main/java/com/acp/topology/meta/SnapshotMetadataService.java:42-49 | the three statements commit together, or on a key conflict none does; the evicted id is returned |
| `SnapshotIngest.IngestionService.Ingest` | services/topology/src/main/java/com/acp/topology/ingest/IngestionService.java:55-86 | stopped after any step, an ingest leaves graph, rows and events exactly as the step order says |
| `SnapshotIngest.IngestionService.Upload` | services/topology/src/main/java/com/acp/topology/ingest/IngestionService.java:47-86 | a file that fails a check changes nothing; any other is lifted under its own or a minted id and ingested |
| `SnapshotIngest.RequestExactly` | services/topology/src/main/java/com/acp/topology/ingest/IngestionService.java:55-69 | an upload works under its own snapshot id unless that is missing or blank, and then under a minted one, for the file's domain |
| `SnapshotIngest.IngestLeavesRow` | services/topology/src/main/java/com/acp/topology/ingest/IngestionService.java:56-78 | after a full ingest that cuts over, the new row is current, with the event's id, and incremental only if that was asked for and the domain had a row; other rows keep their event ids |
| `SnapshotIngest.OrphanReaper.Reap` | services/topology/src/main/java/com/acp/topology/graph/OrphanReaper.java:30-42 | the loop deletes exactly the graph snapshots without a row and returns their number |
| `SnapshotIngest.ReapedKeepsKnown` | services/topology/src/main/java/com/acp/topology/graph/OrphanReaper.java:30-42 | after a sweep the graph's ids are those that had a row, each with its data unchanged |
| `SnapshotIngest.IngestKeepsDataExactly` | services/topology/src/main/java/com/acp/topology/ingest/IngestionService.java:55-78 | after a full ingest under any id every row's snapshot holds exactly its data if and only if: for the domain's previous id there is no data; for another id with a row the data adds nothing to that snapshot; for an id without a row nothing but the data is found under it |
| `SnapshotIngest.RefusedUploadIsVisible` | services/topology/src/main/java/com/acp/topology/ingest/IngestionService.java:63-70 | an upload under the current snapshot's id is refused, yet its node is in the current snapshot |
| `SnapshotIngest.PreviousIdIsEmptied` | services/topology/src/main/java/com/acp/topology/ingest/IngestionService.java:66-78 | an upload under the previous snapshot's id becomes current, is announced, and has no data |
| `SnapshotIngest.LeftoversMixIn` | services/topology/src/main/java/com/acp/topology/ingest/IngestionService.java:63-70 | what a crashed ingest wrote is part of the snapshot that a later ingest makes current under the same id |
| `IngestProtocol.StepKeeps` | services/topology/src/main/java/com/acp/topology/ingest/IngestionService.java:55-78 | every step of every ingest, crash or sweep keeps the invariant over graph, rows, events and ingests in flight |
| `IngestProtocol.RunsAreSafe` | services/topology/src/main/java/com/acp/topology/ingest/IngestionService.java:55-78 | the invariant holds in every state of every run of concurrent ingests, crashes and sweeps, with fresh ids and sweeps only where they keep it |
| `IngestProtocol.ReadersSeeTheLastTwo` | services/topology/src/main/java/com/acp/topology/meta/SnapshotMetadataService.java:42-49 | in every run a domain has at most one current and one previous row, its last two cut-overs, and each has exactly the data it was ingested with |
| `IngestProtocol.SweepLeavesTheRows` | services/topology/src/main/java/com/acp/topology/graph/OrphanReaper.java:30-42 | after a sweep in any reachable state, the graph's snapshot ids are those of the rows whose snapshots have vertices |
| `IngestProtocol.SweepSparesInFlightExactly` | services/topology/src/main/java/com/acp/topology/graph/OrphanReaper.java:30-42 | a sweep between an ingest's graph write and its cut-over keeps the written data if and only if it has no vertices |
| `IngestProtocol.SweepKeepsExactly` | services/topology/src/main/java/com/acp/topology/graph/OrphanReaper.java:30-42 | a sweep keeps the invariant if and only if no ingest with vertices is between its graph write and its cut-over |
| `IngestProtocol.InterruptedIngestIsEmpty` | services/topology/src/main/java/com/acp/topology/graph/OrphanReaper.java:30-42 | a run in which a sweep meets a first ingest after its write, and the ingest goes on to make an empty snapshot current |
| `IngestProtocol.IngestIsARun` | services/topology/src/main/java/com/acp/topology/ingest/IngestionService.java:55-78 | one ingest stopped after any step is a run of the protocol that leaves the same stores as the service's own call sequence |
| `Cascade.AlarmIds.Next` | services/simulator/src/simulator/engine/scenario_runner.py:39-41 | the ids count up from zero, one at a time |
| `Cascade.TemplatesByRelation` | services/simulator/src/simulator/engine/cascade.py:27-33 | each relation that occurs is mapped to its templates in order |
| `Cascade.ForRelationIs` | services/simulator/src/simulator/engine/cascade.py:27-33 | a relation's templates are exactly those whose relation it is, each in its place |
| `Cascade.EdgeRaisesExactly` | services/simulator/src/simulator/engine/cascade.py:87-97 | along an edge of a walked relation the target alarms with exactly the effects of all templates of that relation, in order; along any other edge with none |
| `Cascade.EffectsConcat` | services/simulator/src/simulator/engine/cascade.py:88-97 | effects along several edges follow one another, edge by edge |
| `Cascade.EffectsOfOne` | services/simulator/src/simulator/engine/cascade.py:87-97 | expanding one node fires its edges, in order |
| `Cascade.DelayExactly` | services/simulator/src/simulator/engine/cascade.py:36-39 | a delay is the base interval and, with jitter, the draw, but never negative |
| `Cascade.CoMembersAre` | services/simulator/src/simulator/engine/cascade.py:79-84 | the co-members are the targets of all the root's edges of the co-failure relation, each in its place |
| `Cascade.NoCoMembers` | services/simulator/src/simulator/engine/cascade.py:79-84 | without a co-failure relation, or with an empty one, there are none |
| `Cascade.ExpandNode` | services/simulator/src/simulator/engine/cascade.py:88-100 | one node's walked edges raise all templates of their relations in order, and a target joins the queue exactly when it alarms for the first time |
| `Cascade.Propagate` | services/simulator/src/simulator/engine/cascade.py:41-110 | the alarms raise exactly the root effect and the firings of the expanded nodes, under consecutive ids, each raised at its predecessor's time plus the drawn delay; the label names the root and all the others in order; co-members are expanded right after the root |
| `CascadeLaws.ExpandsTheReach` | services/simulator/src/simulator/engine/cascade.py:79-100 | the expanded nodes are exactly those reached by hops from the root or its co-members |
| `CascadeLaws.ExpandedOnceExactly` | services/simulator/src/simulator/engine/cascade.py:79-100 | no node is expanded twice if and only if no co-member is the root or the target of a hop from a node reached from the root or a co-member; so without a co-failure relation never |
| `CascadeLaws.CoMemberExpandedTwice` | services/simulator/src/simulator/engine/cascade.py:79-100 | one edge whose relation both shares fate and propagates: its target is expanded twice |
| `CascadeLaws.AlarmedObjects` | services/simulator/src/simulator/engine/cascade.py:79-100 | the objects that alarm are the root and those that some reached node hops to |
| `CascadeLaws.CoMembersDistinct` | services/simulator/src/simulator/engine/cascade.py:80-84 | a directed graph's co-members of the root are distinct |
| `CascadeLaws.ChildrenCounted` | services/simulator/src/simulator/engine/cascade.py:87-100 | the children number the templates that apply to each out-edge, summed over the reached nodes, and once more over the co-members that are the root or hopped to; a template applies when its relation is the edge's and the scenario walks it |
| `CascadeLaws.ChildrenCountedAlone` | services/simulator/src/simulator/engine/cascade.py:87-100 | without co-members every reached node is expanded exactly once and the children are counted by one sum |
| `CascadeLaws.LabelledInOrder` | services/simulator/src/simulator/engine/cascade.py:94-109 | alarm times never decrease, ids are all distinct, and the children are the ids of all alarms but the root's, in order |
| `CascadeLaws.ParentAlarmedBefore` | services/simulator/src/simulator/engine/cascade.py:87-100 | every child was raised by a hop from a co-member of the root or from an object that alarmed earlier |
| `Decimals.PaddedInjective` | services/simulator/src/simulator/engine/scenario_runner.py:39-41 | zero-padded counters behind one prefix are equal only for equal counters, beyond the padding width too |
| `Decimals.PaddedShape` | services/simulator/src/simulator/engine/scenario_runner.py:39-41 | a padded counter is as long as the width or as its digits, whichever is more, and ends in its digits, which have no leading zero |
| `Labels.LabelStore.Record` | services/simulator/src/simulator/engine/labels.py:25-28 | a label is stored under its id; a known id keeps its place and takes the new label |
| `Labels.LabelStore.All` | services/simulator/src/simulator/engine/labels.py:30-31 | one label for each recorded id, in the order the ids first came |
| `StreamSizing.SizeWithinOneExactly` | services/simulator/src/simulator/engine/scenario_runner.py:136-143 | the stream is within one alarm of signal / (1 - background - noise) for every signal count if and only if the signal fraction is at least the clamp of one in a million |
| `StreamSizing.CountsAreShares` | services/simulator/src/simulator/engine/scenario_runner.py:136-143 | background and noise each miss their own fraction of the total by at most a half |
| `StreamSizing.PlannedSignal` | services/simulator/src/simulator/engine/scenario_runner.py:70-87 | unless five instances are forced, the planned signal misses its share of the target by at most half of one round of all scenarios |
| `Synthesis.ScenarioIdInjective` | services/simulator/src/simulator/engine/scenario_runner.py:120 | a scenario id determines the scenario type and the instance, whatever characters the type has |
| `Synthesis.CandidatesAreNodes` | services/simulator/src/simulator/engine/scenario_runner.py:44-45 | the candidates are exactly the nodes of the type |
| `Synthesis.CandidatesConcat` | services/simulator/src/simulator/engine/scenario_runner.py:44-45 | candidates keep the order of the nodes |
| `Synthesis.SolveInstances` | services/simulator/src/simulator/engine/scenario_runner.py:70-87 | the configured count, or the solved one from the sizes of one estimate cascade for each scenario |
| `Synthesis.SumConcat` | services/simulator/src/simulator/engine/scenario_runner.py:82-84 | the cascade sizes are added up over all scenarios |
| `Synthesis.SumOfOne` | services/simulator/src/simulator/engine/scenario_runner.py:82-84 | each with its own size |
| `Synthesis.GenerateBackground` | services/simulator/src/simulator/engine/noise.py:84-118 | as many alarms as asked, none below one, under the next ids, each on the drawn graph object with the drawn vocabulary type at the drawn time and outside every scenario; it fails if and only if some are asked for and there is no object or no type to choose |
| `Synthesis.GenerateNoise` | services/simulator/src/simulator/engine/noise.py:31-81 | the same for noise, with the drawn type of the drawn noise class; it fails if and only if some are asked for and there is no object, no class, or no type in a drawn class |
| `Synthesis.SortIsStable` | services/simulator/src/simulator/engine/scenario_runner.py:161-162 | the sorted stream is time-ordered, a permutation, and keeps the order of alarms of one instant |
| `Synthesis.RunScenario` | services/simulator/src/simulator/engine/scenario_runner.py:113-134 | all instances of a scenario are cascades from the drawn candidates at the drawn times, appended in order, with their labels recorded |
| `Synthesis.Synthesize` | services/simulator/src/simulator/engine/scenario_runner.py:90-169 | every selected name that a library scenario has and whose fault-origin type has a node runs the last such scenario once for each resolved instance, in selection order under that instance's id, and nothing else runs; the stream is the stable sort of these cascades, then background, then noise, in the solved counts and under consecutive ids; its length is the size that `StreamSizing` bounds; the store holds the cascades' labels; there is no stream if and only if a filler has nothing to choose from |
| `Synthesis.ByTypeExactly` | services/simulator/src/simulator/engine/scenario_runner.py:99 | the lookup holds the last library scenario of each type and no other key |
| `Synthesis.PlanIsSelection` | services/simulator/src/simulator/engine/scenario_runner.py:99-120 | the plan has one block of instances for each selected name that has a scenario and a node to start from, in selection order |
| `Synthesis.StreamHasSize` | services/simulator/src/simulator/engine/scenario_runner.py:136-162 | for fractions that are not negative the sorted stream has the computed size, within one alarm of the ideal unless the signal fraction is clamped |
| `SynthesisLaws.EmptyGraphNeedsNoFiller` | services/simulator/src/simulator/engine/scenario_runner.py:136-143 | on an empty graph nothing runs and no filler is asked for |
| `Synthesis.PlanFixesIds` | services/simulator/src/simulator/engine/scenario_runner.py:109-120 | following the plan gives each run the id of its scenario and instance, in plan order |
| `SynthesisLaws.NamedByOwnLabel` | services/simulator/src/simulator/engine/labels.py:25-28 | a stored label names an alarm of a cascade if and only if it is that cascade's own and was not replaced |
| `SynthesisLaws.LabelledOnceExactly` | services/simulator/src/simulator/engine/scenario_runner.py:109-134 | every signal alarm is in exactly one label if and only if no scenario id was used twice |
| `SynthesisLaws.SignalLabelledExactly` | services/simulator/src/simulator/engine/scenario_runner.py:99-134 | every signal alarm is in exactly one label if and only if the runnable selected scenarios are distinct or nothing is run |
| `SynthesisLaws.SelectedTwiceLosesLabels` | services/simulator/src/simulator/engine/scenario_runner.py:99-134 | on a topology of one node, a scenario selected twice yields an alarm that no label names |
| `SynthesisLaws.DistinctSelection` | services/simulator/src/simulator/engine/scenario_runner.py:99-100 | distinct selected names give distinct runnable scenarios |
| `SynthesisLaws.FillersUnlabelled` | services/simulator/src/simulator/engine/scenario_runner.py:145-159 | no label names a background or noise alarm |
| `SnapshotWriter.GraphToSnapshot` | services/simulator/src/simulator/engine/snapshot_writer.py:77-101 | each node once in insertion order with its type, each edge once with its relation, listed node by node; it fails if and only if some node has no type |
| `SnapshotWriter.GroupedHolds` | services/simulator/src/simulator/engine/snapshot_writer.py:89-95 | the listing by source node has every edge of a listed node and nothing else |
| `SnapshotWriter.GroupedConcat` | services/simulator/src/simulator/engine/snapshot_writer.py:89-95 | the edges of several nodes follow one another, node by node |
| `SnapshotWriter.EdgesFromConcat` | services/simulator/src/simulator/engine/snapshot_writer.py:89-95 | one node's edges keep the order of insertion |
| `SnapshotWriter.EdgesOfOne` | services/simulator/src/simulator/engine/snapshot_writer.py:89-95 | a node lists an edge with its relation if and only if the edge leaves it |
| `SnapshotWriter.ValidateSnapshot` | services/simulator/src/simulator/engine/snapshot_writer.py:114-132 | passes if and only if the file meets the schema's required fields and patterns, every node id has its type as prefix and every edge endpoint is a listed node |
| `SnapshotWriter.WriteSnapshot` | services/simulator/src/simulator/engine/snapshot_writer.py:135-141 | a graph's own snapshot passes if and only if every node's id is its type and an identifier, every relation has a name and so has the domain: references cannot dangle |
| `TopologyModel.NextNodeArea` | services/simulator/src/simulator/domains/coreip/topology_model.py:31-37 | each node adds its role's area: backbone roles area zero, an edge node the next numbered area until all are taken |
| `TopologyModel.AreasCounted` | services/simulator/src/simulator/domains/coreip/topology_model.py:86-100 | the areas of n nodes number one plus the smaller of the edge nodes and the numbered areas |
| `TopologyModel.PlaceNodes` | services/simulator/src/simulator/domains/coreip/topology_model.py:87-107 | the nodes are named in order, each at its site, and the areas used are exactly those the nodes carry |
| `TopologyModel.PlaceHardware` | services/simulator/src/simulator/domains/coreip/topology_model.py:112-158 | every node gets its card, port and interfaces, and every interface has its node's area |
| `TopologyModel.PlaceLinks` | services/simulator/src/simulator/domains/coreip/topology_model.py:167-201 | links join exactly the consecutive nodes whose first interfaces exist, all of them when ports have interfaces, each with its span, adjacency, path and service |
| `TopologyModel.PlaceGroups` | services/simulator/src/simulator/domains/coreip/topology_model.py:207-213 | the membership edges are exactly those of one group for each pair of links, both ways |
| `TopologyModel.BuildTopology` | services/simulator/src/simulator/domains/coreip/topology_model.py:51-215 | the graph is exactly the layered layout; all ids are well typed, areas sit only on nodes and interfaces, and the area list is that of the nodes |
| `TopologyLaws.LinksHaveTwoEnds` | services/simulator/src/simulator/domains/coreip/topology_model.py:167-201 | each of the n - 1 links of the layout is terminated by exactly two interfaces, the first ones of its two consecutive nodes, and nothing else is terminated |
| `TopologyEdges.TopologyEdgesExactly` | services/simulator/src/simulator/domains/coreip/topology_model.py:87-213 | the edges of a generated topology are exactly: each node at its site, its card, port and interfaces, the seven edges of each link with its ends, span, adjacency, path and service, and the memberships |
| `TopologyEdges.TopologyFits` | services/simulator/src/simulator/domains/coreip/topology_model.py:87-213 | every edge has the relation that the types of its two ends call for |
| `TopologyEdges.GroupEdgesExactly` | services/simulator/src/simulator/domains/coreip/topology_model.py:203-213 | the memberships run both ways between the group of each pair and its two links, and nowhere else |
| `TopologyEdges.NamesAre` | services/simulator/src/simulator/domains/coreip/topology_model.py:87-213 | what the ids of nodes, cards, ports, links and groups look like |
| `TopologyEdges.NodesHaveAreas` | services/simulator/src/simulator/domains/coreip/topology_model.py:87-107 | in the finished topology each node is there with the area its role gives it |
| `TopologyEdges.NodeAreaIs` | services/simulator/src/simulator/domains/coreip/topology_model.py:31-48 | backbone nodes, those i with i mod 7 equal to 6 or i mod 3 equal to 0, lie in area zero, as all do when one area is asked for; the others take the numbered areas in turn |
| `TopologyModel.BuildTopologySnapshot` | services/simulator/src/simulator/run.py:66-81 | for all parameters the snapshot serialises the generated layout, in which all asked nodes and interfaces are present, and passes validation; the areas returned are exactly those of its nodes, each once, and number 1 + min(E, N-1) for N areas asked and E edge nodes, those i with i mod 3 not 0 and i mod 7 not 6 |
| `GeneratedTrails.GeneratedGroupsAreIndependent` | services/simulator/src/simulator/domains/coreip/topology_model.py:203-213 | on any slice of a generated topology the trail builder's shared-risk groups are independent, so its single pass is complete |
| `GeneratedTrails.GeneratedTagsAreSafe` | services/simulator/src/simulator/domains/coreip/topology_model.py:203-213 | on any slice of a generated topology every trail tag is truthful |

## Left out

- web-ui, HTTP clients and controllers, retries, metrics, logging, settings and command lines: plumbing.
- Kafka, SQL engines, migrations, isolation levels: transactions are atomic steps here.
- NebulaGraphRepository: foreign calls; the graph is the port's contract, data tagged by snapshot id. The adapter
  keys vertices by object id alone and is not claimed to meet it.
- SHA-256, JSON parsing, Pydantic models, event codecs: they rest on libraries that are not part of this model; the
  hash is any function, and whether a message decodes is part of the delivery. Of a file's schema the required
  fields, minimum lengths and id patterns are modelled, not the rules for names, attributes and extra properties.
- Blank strings are those of ASCII white space; the languages also count other Unicode spaces.
- The Knowledge record store, alarm replay, corpus loading, label files and the read endpoints of the stores: easy.
- The per-seed traversal call of the slice fetch, whose result the code ignores.
- Alarm shapes (event type, cause, severity) and noise class flags: copied attributes. Noise class weights and the
  near-cascade placement of hard noise are random choices and covered by arbitrary draws.
- Vendors, models, capacities and other drawn or constant attributes of topology objects; coordinates of sites.
- TrailRepository.TrailRepository.SnapshotsNewestFirst: leaves the order of equal build times to the database.
- CodebookStore.Pipeline.Compile: a failed send of the event counts as a crash in `CompileProtocol` only.
- Synthesis.SolveInstances: works on exact reals, where the code divides floating-point numbers.
- DiGraph stands for the networkx graph: one edge per pair, missing endpoints added without a type.
