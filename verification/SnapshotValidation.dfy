/** What the topology service does with an uploaded file before any write: semantic checks, vocabulary
    checks and lifting (SnapshotValidationService, VocabularyValidator, LiftingService). */
module SnapshotValidation {
  import opened Common
  import opened ManagedObjectIds
  import opened SnapshotFiles

  datatype Violation = Violation(path: string, index: nat, rule: string)

  /** The rule a node breaks: its id's pattern, or else the prefix. */
  ghost predicate BreaksNode(n: NodeRecord, rule: string) {
    if IsValid(n.managedObjectId) then rule == "objectType-prefix" && !WellTyped(n) else rule == "pattern"
  }

  /** A violation among the first `i` nodes. */
  ghost predicate IsNodeViolation(file: Snapshot, v: Violation, i: nat)
    requires i <= |file.nodes|
  {
    v.path == "nodes" && v.index < i && BreaksNode(file.nodes[v.index], v.rule)
  }

  /** An end among the first `i` edges that no node has. */
  ghost predicate IsEdgeViolation(file: Snapshot, v: Violation, i: nat)
    requires i <= |file.edges|
  {
    && v.index < i && v.rule == "dangling-reference"
    && (|| (v.path == "edges.from" && file.edges[v.index].src !in Known(file.nodes))
        || (v.path == "edges.to" && file.edges[v.index].dst !in Known(file.nodes)))
  }

  ghost predicate IsViolation(file: Snapshot, v: Violation) {
    IsNodeViolation(file, v, |file.nodes|) || IsEdgeViolation(file, v, |file.edges|)
  }

  /** A file without violations keeps the rules. */
  lemma SoundExactly(file: Snapshot)
    ensures IsSound(file) <==> forall v :: !IsViolation(file, v)
  {
    hide IsValid;
    if IsSound(file) {
      assert forall i :: 0 <= i < |file.nodes| ==> file.nodes[i] in file.nodes;
      assert forall i :: 0 <= i < |file.edges| ==> file.edges[i] in file.edges;
    }
    if forall v :: !IsViolation(file, v) {
      forall n | n in file.nodes ensures WellTyped(n) {
        var i :| 0 <= i < |file.nodes| && file.nodes[i] == n;
        assert !IsViolation(file, Violation("nodes", i, "pattern"));
        assert !IsViolation(file, Violation("nodes", i, "objectType-prefix"));
      }
      forall e | e in file.edges ensures Refers(e, Known(file.nodes)) {
        var i :| 0 <= i < |file.edges| && file.edges[i] == e;
        assert !IsViolation(file, Violation("edges.from", i, "dangling-reference"));
        assert !IsViolation(file, Violation("edges.to", i, "dangling-reference"));
      }
    }
  }

  /** Every violation is collected; there is none exactly when the rules hold. */
  method SemanticChecks(file: Snapshot) returns (violations: seq<Violation>)
    ensures forall v :: v in violations <==> IsViolation(file, v)
    ensures violations == [] <==> IsSound(file)
  {
    hide IsValid, IsSound;
    violations := [];
    var ids: set<string> := {};
    for i := 0 to |file.nodes|
      invariant ids == Known(file.nodes[..i])
      invariant forall v :: v in violations <==> IsNodeViolation(file, v, i)
    {
      assert file.nodes[..i + 1][..i] == file.nodes[..i];
      var id := file.nodes[i].managedObjectId;
      ids := ids + {id};
      if !IsValid(id) {
        violations := violations + [Violation("nodes", i, "pattern")];
      } else if id[..IndexOf(id, ':')] != file.nodes[i].objectType {
        violations := violations + [Violation("nodes", i, "objectType-prefix")];
      }
    }
    assert file.nodes[..|file.nodes|] == file.nodes;
    for i := 0 to |file.edges|
      invariant forall v :: v in violations <==>
                  IsNodeViolation(file, v, |file.nodes|) || IsEdgeViolation(file, v, i)
    {
      if file.edges[i].src !in ids { violations := violations + [Violation("edges.from", i, "dangling-reference")]; }
      if file.edges[i].dst !in ids { violations := violations + [Violation("edges.to", i, "dangling-reference")]; }
    }
    SoundExactly(file);
    if violations != [] { assert violations[0] in violations; }
  }

  /** The domain's object types and relations; unavailable when the Knowledge service gives none. */
  datatype Vocabulary = Vocabulary(objectTypes: set<string>, relations: set<string>)

  ghost predicate InVocabulary(file: Snapshot, vocabulary: Vocabulary) {
    && (forall n :: n in file.nodes ==> n.objectType in vocabulary.objectTypes)
    && (forall e :: e in file.edges ==> e.relation in vocabulary.relations)
  }

  /** An object type or a relation that the vocabulary lacks. */
  ghost predicate IsUnknown(file: Snapshot, vocabulary: Vocabulary, v: Violation) {
    && v.rule == "domain-vocabulary"
    && (|| (v.path == "nodes" && v.index < |file.nodes| &&
            file.nodes[v.index].objectType !in vocabulary.objectTypes)
        || (v.path == "edges" && v.index < |file.edges| && file.edges[v.index].relation !in vocabulary.relations))
  }

  method VocabularyChecks(file: Snapshot, vocabulary: Vocabulary) returns (violations: seq<Violation>)
    ensures forall v :: v in violations <==> IsUnknown(file, vocabulary, v)
    ensures violations == [] <==> InVocabulary(file, vocabulary)
  {
    violations := [];
    assert "nodes"[0] == 'n' && "edges"[0] == 'e';
    for i := 0 to |file.nodes|
      invariant forall v :: v in violations <==> v.path == "nodes" && v.index < i && IsUnknown(file, vocabulary, v)
      invariant violations == [] <==> forall k :: 0 <= k < i ==> file.nodes[k].objectType in vocabulary.objectTypes
    {
      if file.nodes[i].objectType !in vocabulary.objectTypes {
        violations := violations + [Violation("nodes", i, "domain-vocabulary")];
      }
    }
    ghost var known := violations == [];
    for i := 0 to |file.edges|
      invariant forall v :: v in violations <==>
                  IsUnknown(file, vocabulary, v) && (v.path == "edges" ==> v.index < i)
      invariant violations == [] <==> known && forall k :: 0 <= k < i ==> file.edges[k].relation in vocabulary.relations
    {
      if file.edges[i].relation !in vocabulary.relations {
        violations := violations + [Violation("edges", i, "domain-vocabulary")];
      }
    }
  }

  datatype Rejection = Invalid | OutOfVocabulary | VocabularyUnavailable

  /** Both validations in order; without a vocabulary an otherwise valid file is refused as well. */
  method Check(file: Snapshot, vocabulary: Option<Vocabulary>) returns (rejected: Option<Rejection>)
    ensures rejected == Some(Invalid) <==> !Passes(file)
    ensures rejected == None <==> Passes(file) && vocabulary.Some? && InVocabulary(file, vocabulary.value)
    ensures rejected == Some(VocabularyUnavailable) <==> Passes(file) && vocabulary.None?
  {
    hide MeetsSchema, IsSound, InVocabulary;
    var ok := SchemaHolds(file);
    if !ok { return Some(Invalid); }
    var violations := SemanticChecks(file);
    if violations != [] { return Some(Invalid); }
    if vocabulary.None? { return Some(VocabularyUnavailable); }
    var unknown := VocabularyChecks(file, vocabulary.value);
    rejected := if unknown == [] then None else Some(OutOfVocabulary);
  }
}
