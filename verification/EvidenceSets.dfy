// packages/domain/src/evidence.ts: the loops of the Evidence Set checker against a declarative
// specification.
module EvidenceSets {
  import opened CodeUnits
  import opened Sequences
  import opened EvidencePolicy
  import opened Acceptance

  // ---- Canonical strings ----

  predicate Canonical(values: seq<Text>) {
    StrictlySorted(values) && forall i | 0 <= i < |values| :: !AllWhitespace(values[i])
  }

  lemma {:induction false} SortedMore(values: seq<Text>, x: Text)
    requires StrictlySorted(values) && (values == [] || Less(values[|values| - 1], x))
    ensures StrictlySorted(values + [x])
  {
    var more := values + [x];
    forall i, j | 0 <= i < j < |more| ensures Less(more[i], more[j]) {
      if j == |values| && i < |values| - 1 { LessTransitive(values[i], values[|values| - 1], x); }
    }
  }

  // False where `assertCanonicalStrings` throws.
  method AssertCanonicalStrings(values: seq<Text>) returns (ok: bool)
    ensures ok == Canonical(values)
  {
    var i := 0;
    while i < |values|
      invariant i <= |values| && Canonical(values[..i])
    {
      if AllWhitespace(values[i]) { return false; }
      if i > 0 && !Less(values[i - 1], values[i]) { return false; }
      SortedMore(values[..i], values[i]);
      assert values[..i + 1] == values[..i] + [values[i]];
      i := i + 1;
    }
    assert values[..i] == values;
    return true;
  }

  // ---- The checker ----

  function ObligationIds(mappings: seq<Mapping>): seq<Id> {
    seq(|mappings|, i requires 0 <= i < |mappings| => mappings[i].obligationId)
  }

  function EvidenceIds(refs: seq<Entry>): seq<Id> {
    seq(|refs|, i requires 0 <= i < |refs| => refs[i].evidenceId)
  }

  ghost predicate Mapped(mappings: seq<Mapping>, id: Id) {
    exists i :: 0 <= i < |mappings| && id in mappings[i].evidenceIds
  }

  // Canonical mappings, of which no two share a record and the empty ones are the unresolved.
  ghost predicate MappingsFit(mappings: seq<Mapping>, unresolved: seq<Id>) {
    && StrictlySorted(ObligationIds(mappings))
    && (forall i | 0 <= i < |mappings| :: Canonical(mappings[i].evidenceIds))
    && (forall i | 0 <= i < |mappings| :: mappings[i].obligationId in unresolved <==> mappings[i].evidenceIds == [])
    && (forall i, j, id | 0 <= i < j < |mappings| && id in mappings[i].evidenceIds :: id !in mappings[j].evidenceIds)
  }

  predicate RefsFit(refs: seq<Entry>) {
    && StrictlySorted(EvidenceIds(refs))
    && (forall i | 0 <= i < |refs| :: refs[i].eligible)
  }

  // The mappings are a sorted partition of the eligible references, and the unresolved requirements
  // are exactly the obligations with an empty mapping.
  ghost predicate EvidenceSetInv(s: EvidenceSet) {
    && s.obligationMappings != []
    && MappingsFit(s.obligationMappings, s.unresolved)
    && RefsFit(s.evidenceRefs)
    && Canonical(s.unresolved) && (forall id | id in s.unresolved :: id in ObligationIds(s.obligationMappings))
    && (forall id :: id in EvidenceIds(s.evidenceRefs) <==> Mapped(s.obligationMappings, id))
  }

  // False where `assertEvidenceSetInvariant` throws.
  method AssertEvidenceSet(s: EvidenceSet) returns (ok: bool)
    ensures ok == EvidenceSetInv(s)
  {
    if |s.obligationMappings| == 0 { return false; }
    var mapped;
    ok, mapped := CheckMappings(s.obligationMappings, s.unresolved);
    if !ok { return; }
    ok := CheckRefs(s.evidenceRefs);
    if !ok { return; }
    ok := AssertCanonicalStrings(s.unresolved);
    if !ok { return; }
    if exists id | id in s.unresolved :: id !in ObligationIds(s.obligationMappings) { return false; }
    var referenced := set id | id in EvidenceIds(s.evidenceRefs);
    if !(mapped <= referenced) {
      ghost var id :| id in mapped && id !in referenced;
      assert Mapped(s.obligationMappings, id);
      return false;
    }
    if !(referenced <= mapped) {
      ghost var id :| id in referenced && id !in mapped;
      assert !Mapped(s.obligationMappings, id);
      return false;
    }
    return true;
  }

  method CheckMappings(mappings: seq<Mapping>, unresolved: seq<Id>) returns (ok: bool, mapped: set<Id>)
    ensures ok == MappingsFit(mappings, unresolved)
    ensures ok ==> forall id :: id in mapped <==> Mapped(mappings, id)
  {
    mapped := {};
    var i := 0;
    while i < |mappings|
      invariant i <= |mappings| && MappingsFit(mappings[..i], unresolved)
      invariant forall id :: id in mapped <==> Mapped(mappings[..i], id)
    {
      var mapping := mappings[i];
      assert mappings[..i + 1] == mappings[..i] + [mapping];
      if i > 0 && !Less(mappings[i - 1].obligationId, mapping.obligationId) {
        assert ObligationIds(mappings)[i - 1] == mappings[i - 1].obligationId && ObligationIds(mappings)[i] == mapping.obligationId;
        return false, mapped;
      }
      var canonical := AssertCanonicalStrings(mapping.evidenceIds);
      if !canonical { return false, mapped; }
      if (mapping.obligationId in unresolved) != (mapping.evidenceIds == []) { return false, mapped; }
      var unmapped, more := MapEvidence(mapping.evidenceIds, mapped);
      if !unmapped {
        SharedEvidence(mappings, i, mapped);
        return false, mapped;
      }
      OneMoreFits(mappings[..i], mapping, unresolved, mapped);
      MappedMore(mappings[..i], mapping, mapped);
      mapped := more;
      i := i + 1;
    }
    assert mappings[..i] == mappings;
    return true, mapped;
  }

  method MapEvidence(ids: seq<Id>, mapped: set<Id>) returns (unmapped: bool, more: set<Id>)
    requires Canonical(ids)
    ensures unmapped <==> forall id | id in ids :: id !in mapped
    ensures unmapped ==> more == mapped + SetOf(ids)
  {
    more := mapped;
    var k := 0;
    while k < |ids|
      invariant k <= |ids| && more == mapped + SetOf(ids[..k])
      invariant forall id | id in ids[..k] :: id !in mapped
    {
      if ids[k] in more {
        if ids[k] in ids[..k] { Repeated(ids, k); }
        return false, more;
      }
      assert ids[..k + 1] == ids[..k] + [ids[k]];
      more := more + {ids[k]};
      k := k + 1;
    }
    assert ids[..k] == ids;
    return true, more;
  }

  // A strictly sorted sequence repeats nothing.
  lemma {:induction false} Repeated(ids: seq<Id>, k: nat)
    requires k < |ids| && ids[k] in ids[..k]
    ensures !StrictlySorted(ids)
  {
    var j :| 0 <= j < k && ids[..k][j] == ids[k];
    LessTotal(ids[j], ids[k]);
    assert !Less(ids[j], ids[k]);
  }

  lemma {:induction false} SharedEvidence(mappings: seq<Mapping>, i: nat, mapped: set<Id>)
    requires i < |mappings| && (forall id :: id in mapped <==> Mapped(mappings[..i], id))
    requires exists id :: id in mappings[i].evidenceIds && id in mapped
    ensures exists j, k, id :: 0 <= j < k < |mappings| && id in mappings[j].evidenceIds && id in mappings[k].evidenceIds
  {
    var id :| id in mappings[i].evidenceIds && id in mapped;
    var j :| 0 <= j < i && id in mappings[..i][j].evidenceIds;
    assert id in mappings[j].evidenceIds && id in mappings[i].evidenceIds;
  }

  lemma {:induction false} OneMoreFits(front: seq<Mapping>, mapping: Mapping, unresolved: seq<Id>, mapped: set<Id>)
    requires MappingsFit(front, unresolved) && (forall id :: id in mapped <==> Mapped(front, id))
    requires front == [] || Less(front[|front| - 1].obligationId, mapping.obligationId)
    requires Canonical(mapping.evidenceIds) && (mapping.obligationId in unresolved <==> mapping.evidenceIds == [])
    requires forall id | id in mapping.evidenceIds :: id !in mapped
    ensures MappingsFit(front + [mapping], unresolved)
  {
    SortedMore(ObligationIds(front), mapping.obligationId);
    assert ObligationIds(front + [mapping]) == ObligationIds(front) + [mapping.obligationId];
    forall i, id | 0 <= i < |front| && id in front[i].evidenceIds ensures id !in mapping.evidenceIds {
      assert Mapped(front, id);
    }
  }

  lemma {:induction false} MappedMore(front: seq<Mapping>, mapping: Mapping, mapped: set<Id>)
    requires forall id :: id in mapped <==> Mapped(front, id)
    ensures forall id :: id in mapped + SetOf(mapping.evidenceIds) <==> Mapped(front + [mapping], id)
  {
    var all := front + [mapping];
    forall id ensures id in mapped + SetOf(mapping.evidenceIds) <==> Mapped(all, id) {
      if id in mapped {
        var i :| 0 <= i < |front| && id in front[i].evidenceIds;
        assert id in all[i].evidenceIds;
      }
      if id in mapping.evidenceIds { assert id in all[|front|].evidenceIds; }
    }
  }

  lemma {:induction false} MoreRefs(refs: seq<Entry>, ref: Entry)
    requires RefsFit(refs) && ref.eligible && (refs == [] || Less(refs[|refs| - 1].evidenceId, ref.evidenceId))
    ensures RefsFit(refs + [ref])
  {
    SortedMore(EvidenceIds(refs), ref.evidenceId);
    assert EvidenceIds(refs + [ref]) == EvidenceIds(refs) + [ref.evidenceId];
  }

  method CheckRefs(refs: seq<Entry>) returns (ok: bool)
    ensures ok == RefsFit(refs)
  {
    var i := 0;
    while i < |refs|
      invariant i <= |refs| && RefsFit(refs[..i])
    {
      if !refs[i].eligible { return false; }
      if i > 0 && !Less(refs[i - 1].evidenceId, refs[i].evidenceId) {
        assert EvidenceIds(refs)[i - 1] == refs[i - 1].evidenceId && EvidenceIds(refs)[i] == refs[i].evidenceId;
        return false;
      }
      MoreRefs(refs[..i], refs[i]);
      assert refs[..i + 1] == refs[..i] + [refs[i]];
      i := i + 1;
    }
    assert refs[..i] == refs;
    return true;
  }

  // ---- Counting ----

  function Sizes(mappings: seq<Mapping>): nat {
    if mappings == [] then 0 else |mappings[0].evidenceIds| + Sizes(mappings[1..])
  }

  ghost function MappedSet(mappings: seq<Mapping>): set<Id> {
    if mappings == [] then {} else SetOf(mappings[0].evidenceIds) + MappedSet(mappings[1..])
  }

  lemma {:induction false} MappedSetIs(mappings: seq<Mapping>, id: Id)
    ensures id in MappedSet(mappings) <==> Mapped(mappings, id)
    decreases |mappings|
  {
    if mappings != [] {
      MappedSetIs(mappings[1..], id);
      if id in mappings[0].evidenceIds { assert Mapped(mappings, id); }
      if Mapped(mappings[1..], id) {
        var i :| 0 <= i < |mappings[1..]| && id in mappings[1..][i].evidenceIds;
        assert id in mappings[i + 1].evidenceIds;
      }
      if Mapped(mappings, id) && id !in mappings[0].evidenceIds {
        var i :| 0 <= i < |mappings| && id in mappings[i].evidenceIds;
        assert id in mappings[1..][i - 1].evidenceIds;
      }
    }
  }

  lemma {:induction false} SortedIsDistinct(ids: seq<Id>)
    requires StrictlySorted(ids)
    ensures Distinct(ids)
  {
    forall i, j | 0 <= i < j < |ids| ensures ids[i] != ids[j] { LessTotal(ids[i], ids[j]); }
  }

  lemma {:induction false} SizesCount(mappings: seq<Mapping>)
    requires forall i | 0 <= i < |mappings| :: Canonical(mappings[i].evidenceIds)
    requires forall i, j, id | 0 <= i < j < |mappings| && id in mappings[i].evidenceIds :: id !in mappings[j].evidenceIds
    ensures |MappedSet(mappings)| == Sizes(mappings)
    decreases |mappings|
  {
    if mappings != [] {
      var rest := mappings[1..];
      assert forall i | 0 <= i < |rest| :: rest[i] == mappings[i + 1];
      SizesCount(rest);
      SortedIsDistinct(mappings[0].evidenceIds);
      DistinctCount(mappings[0].evidenceIds);
      forall id | id in SetOf(mappings[0].evidenceIds) ensures id !in MappedSet(rest) {
        MappedSetIs(rest, id);
      }
      assert SetOf(mappings[0].evidenceIds) !! MappedSet(rest);
    }
  }

  // In an accepted Evidence Set, the sizes of the mappings add up to the number of references.
  lemma {:induction false} SizesAddUp(s: EvidenceSet)
    requires EvidenceSetInv(s)
    ensures Sizes(s.obligationMappings) == |s.evidenceRefs|
  {
    var ids := EvidenceIds(s.evidenceRefs);
    SizesCount(s.obligationMappings);
    SortedIsDistinct(ids);
    DistinctCount(ids);
    forall id ensures id in SetOf(ids) <==> id in MappedSet(s.obligationMappings) { MappedSetIs(s.obligationMappings, id); }
    assert SetOf(ids) == MappedSet(s.obligationMappings);
  }

  // ---- A partition of the references ----

  // Each text comes after the one before it, and none is blank.
  predicate Ascends(values: seq<Text>) { forall k | 0 < k < |values| :: Less(values[k - 1], values[k]) }

  predicate IsSaid(value: Text) { Trim(value) != [] }

  lemma {:induction false} AscendsExactly(values: seq<Text>)
    ensures Ascends(values) <==> StrictlySorted(values)
  {
    if Ascends(values) {
      forall i, j | 0 <= i < j < |values| ensures Less(values[i], values[j]) { AscendsTo(values, i, j); }
    }
  }

  lemma {:induction false} AscendsTo(values: seq<Text>, i: nat, j: nat)
    requires Ascends(values) && i < j < |values|
    ensures Less(values[i], values[j])
    decreases j
  {
    if i < j - 1 {
      AscendsTo(values, i, j - 1);
      LessTransitive(values[i], values[j - 1], values[j]);
    }
  }

  lemma {:induction false} CanonicalExactly(values: seq<Text>)
    ensures Canonical(values) <==> Ascends(values) && forall value | value in values :: IsSaid(value)
  {
    AscendsExactly(values);
    forall value ensures IsSaid(value) <==> !AllWhitespace(value) { TrimKeeps(value); }
  }

  // The obligations without evidence, in their order.
  function Unfilled(mappings: seq<Mapping>): seq<Id> {
    if mappings == [] then [] else
    (if mappings[0].evidenceIds == [] then [mappings[0].obligationId] else []) + Unfilled(mappings[1..])
  }

  lemma {:induction false} UnfilledHas(mappings: seq<Mapping>, id: Id)
    ensures id in Unfilled(mappings) <==> exists i :: 0 <= i < |mappings| && mappings[i].obligationId == id && mappings[i].evidenceIds == []
    decreases |mappings|
  {
    if mappings != [] {
      var rest := mappings[1..];
      UnfilledHas(rest, id);
      assert forall i | 0 <= i < |rest| :: rest[i] == mappings[i + 1];
      if i :| 0 <= i < |mappings| && mappings[i].obligationId == id && mappings[i].evidenceIds == [] {
        if i > 0 { assert rest[i - 1] == mappings[i]; }
      }
    }
  }

  lemma {:induction false} UnfilledIsSorted(mappings: seq<Mapping>)
    requires StrictlySorted(ObligationIds(mappings))
    ensures StrictlySorted(Unfilled(mappings))
    decreases |mappings|
  {
    if mappings != [] {
      var rest, ids := mappings[1..], ObligationIds(mappings);
      assert ObligationIds(rest) == ids[1..];
      UnfilledIsSorted(rest);
      forall id | id in Unfilled(rest) ensures Less(mappings[0].obligationId, id) {
        UnfilledHas(rest, id);
        var i :| 0 <= i < |rest| && rest[i].obligationId == id;
        assert ids[0] == mappings[0].obligationId && ids[i + 1] == id;
      }
    }
  }

  // The unresolved requirements are the obligations with an empty mapping, whoever lists them.
  lemma {:induction false} UnresolvedExactly(mappings: seq<Mapping>, unresolved: seq<Id>)
    requires StrictlySorted(ObligationIds(mappings)) && StrictlySorted(unresolved)
    ensures unresolved == Unfilled(mappings) <==>
      && (forall i | 0 <= i < |mappings| :: mappings[i].obligationId in unresolved <==> mappings[i].evidenceIds == [])
      && forall id | id in unresolved :: id in ObligationIds(mappings)
  {
    var ids := ObligationIds(mappings);
    UnfilledIsSorted(mappings);
    forall id ensures id in Unfilled(mappings) <==>
      exists i :: 0 <= i < |mappings| && mappings[i].obligationId == id && mappings[i].evidenceIds == []
    {
      UnfilledHas(mappings, id);
    }
    SortedIsDistinct(ids);
    if (forall i | 0 <= i < |mappings| :: mappings[i].obligationId in unresolved <==> mappings[i].evidenceIds == []) &&
       forall id | id in unresolved :: id in ids
    {
      forall id ensures id in unresolved <==> id in Unfilled(mappings) {
        if id in unresolved { var i :| 0 <= i < |ids| && ids[i] == id; }
      }
      SortedIsUnique(unresolved, Unfilled(mappings));
    } else if unresolved == Unfilled(mappings) {
      SameObligation(mappings, unresolved);
    }
  }

  lemma {:induction false} SameObligation(mappings: seq<Mapping>, unresolved: seq<Id>)
    requires Distinct(ObligationIds(mappings)) && unresolved == Unfilled(mappings)
    ensures forall i | 0 <= i < |mappings| :: mappings[i].obligationId in unresolved <==> mappings[i].evidenceIds == []
    ensures forall id | id in unresolved :: id in ObligationIds(mappings)
  {
    var ids := ObligationIds(mappings);
    forall i | 0 <= i < |mappings| ensures mappings[i].obligationId in unresolved <==> mappings[i].evidenceIds == [] {
      UnfilledHas(mappings, ids[i]);
      if ids[i] in unresolved {
        var j :| 0 <= j < |mappings| && mappings[j].obligationId == ids[i] && mappings[j].evidenceIds == [];
        assert ids[j] == ids[i];
      }
    }
    forall id | id in unresolved ensures id in ids {
      UnfilledHas(mappings, id);
      var j :| 0 <= j < |mappings| && mappings[j].obligationId == id && mappings[j].evidenceIds == [];
      assert ids[j] == id;
    }
  }

  lemma {:induction false} MappingsAre(mappings: seq<Mapping>)
    ensures (forall i | 0 <= i < |mappings| :: Canonical(mappings[i].evidenceIds)) <==>
      forall m | m in mappings :: Ascends(m.evidenceIds) && forall id | id in m.evidenceIds :: IsSaid(id)
    ensures forall id :: Mapped(mappings, id) <==> exists m :: m in mappings && id in m.evidenceIds
  {
    forall m | m in mappings ensures Canonical(m.evidenceIds) <==> Ascends(m.evidenceIds) && forall id | id in m.evidenceIds :: IsSaid(id) {
      CanonicalExactly(m.evidenceIds);
    }
  }

  // An Evidence Set is accepted exactly when its references, sorted and eligible, are partitioned by its
  // sorted mappings, and what is unresolved is what has no evidence.
  lemma {:induction false} PartitionsExactly(s: EvidenceSet)
    ensures EvidenceSetInv(s) <==>
      && |s.obligationMappings| > 0 && Ascends(ObligationIds(s.obligationMappings)) && Ascends(EvidenceIds(s.evidenceRefs))
      && (forall m | m in s.obligationMappings :: Ascends(m.evidenceIds) && forall id | id in m.evidenceIds :: IsSaid(id))
      && (forall entry | entry in s.evidenceRefs :: entry.eligible)
      && (forall id :: id in EvidenceIds(s.evidenceRefs) <==> exists m :: m in s.obligationMappings && id in m.evidenceIds)
      && (forall i, j, id | 0 <= i < j < |s.obligationMappings| && id in s.obligationMappings[i].evidenceIds :: id !in s.obligationMappings[j].evidenceIds)
      && s.unresolved == Unfilled(s.obligationMappings) && forall id | id in s.unresolved :: IsSaid(id)
  {
    var mappings, refs := s.obligationMappings, s.evidenceRefs;
    AscendsExactly(ObligationIds(mappings));
    AscendsExactly(EvidenceIds(refs));
    CanonicalExactly(s.unresolved);
    AscendsExactly(s.unresolved);
    MappingsAre(mappings);
    assert (forall entry | entry in refs :: entry.eligible) <==> forall i | 0 <= i < |refs| :: refs[i].eligible;
    if StrictlySorted(ObligationIds(mappings)) {
      UnfilledIsSorted(mappings);
      if StrictlySorted(s.unresolved) { UnresolvedExactly(mappings, s.unresolved); }
    }
  }
}
