/** The ground-truth label store of engine/labels.py. */
module Labels {
  import opened Common
  import opened Cascade

  class LabelStore {
    var byId: map<string, GroundTruthLabel>
    var order: seq<string>

    ghost predicate Valid()
      reads this
    {
      NoDuplicates(order) && Elements(order) == byId.Keys
    }

    constructor ()
      ensures Valid() && byId == map[] && order == []
    {
      byId := map[];
      order := [];
    }

    /** A label under a known scenario id replaces the earlier one and keeps its place. */
    method Record(truth: GroundTruthLabel)
      requires Valid()
      modifies this
      ensures Valid() && byId == old(byId)[truth.scenarioId := truth]
      ensures order == if truth.scenarioId in old(byId) then old(order) else old(order) + [truth.scenarioId]
    {
      ElementsAppend(order, truth.scenarioId);
      if truth.scenarioId !in byId {
        order := order + [truth.scenarioId];
      }
      byId := byId[truth.scenarioId := truth];
    }

    /** One label for each scenario id, in the order the ids were first recorded. */
    function All(): (r: seq<GroundTruthLabel>)
      requires Valid()
      reads this
      ensures |r| == |order| == |byId|
      ensures forall i :: 0 <= i < |r| ==> order[i] in byId && r[i] == byId[order[i]]
    {
      assert forall sid :: sid in order ==> sid in Elements(order);
      ElementsCount(order);
      seq(|order|, i requires 0 <= i < |order| && order[i] in byId reads this => byId[order[i]])
    }
  }
}
