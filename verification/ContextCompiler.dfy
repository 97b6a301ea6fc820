// packages/runtime/src/context-compiler.ts: selected entries and omission decisions are put in
// canonical order and compiled into a package and a manifest.
module ContextCompiler {
  import opened Options
  import opened CodeUnits
  import opened Sequences
  import opened Sorting

  datatype Kind =
    | GOAL | SUCCESS_CRITERION | FACT | DECISION | PROJECT_RULE | PROJECT_OBSERVATION | WORKING_CONTEXT | CANDIDATE
    | ACCEPTANCE_REPAIR | ACCEPTANCE_DECISION | ACCEPTANCE_INPUT_MANIFEST | EVIDENCE_SET | EVIDENCE | EVIDENCE_ELIGIBILITY
    | CANDIDATE_RELATIONSHIP | PRESERVATION_CONSTRAINT | PRIOR_ATTEMPT_FEEDBACK

  // OBSERVED is the source's PROJECT_OBSERVATION, which here is a Kind.
  datatype AuthorityClass =
    | GOAL_AUTHORITY | CONFIRMED_FACT | HUMAN_DECISION | OBSERVED | NON_AUTHORITATIVE_WORKING | RUNTIME_DECISION
    | EVIDENCE_AUTHORITY

  function KindName(kind: Kind): Text {
    match kind
    case GOAL => Ascii("GOAL")
    case SUCCESS_CRITERION => Ascii("SUCCESS_CRITERION")
    case FACT => Ascii("FACT")
    case DECISION => Ascii("DECISION")
    case PROJECT_RULE => Ascii("PROJECT_RULE")
    case PROJECT_OBSERVATION => Ascii("PROJECT_OBSERVATION")
    case WORKING_CONTEXT => Ascii("WORKING_CONTEXT")
    case CANDIDATE => Ascii("CANDIDATE")
    case ACCEPTANCE_REPAIR => Ascii("ACCEPTANCE_REPAIR")
    case ACCEPTANCE_DECISION => Ascii("ACCEPTANCE_DECISION")
    case ACCEPTANCE_INPUT_MANIFEST => Ascii("ACCEPTANCE_INPUT_MANIFEST")
    case EVIDENCE_SET => Ascii("EVIDENCE_SET")
    case EVIDENCE => Ascii("EVIDENCE")
    case EVIDENCE_ELIGIBILITY => Ascii("EVIDENCE_ELIGIBILITY")
    case CANDIDATE_RELATIONSHIP => Ascii("CANDIDATE_RELATIONSHIP")
    case PRESERVATION_CONSTRAINT => Ascii("PRESERVATION_CONSTRAINT")
    case PRIOR_ATTEMPT_FEEDBACK => Ascii("PRIOR_ATTEMPT_FEEDBACK")
  }

  // Digests are opaque numbers.
  datatype Entry = Entry(
    kind: Kind, sourceRef: Text, sourceRevision: Text, sourceDigest: Option<nat>, authority: AuthorityClass, renderedContent: Text)

  datatype ManifestEntry = ManifestEntry(
    kind: Kind, sourceRef: Text, sourceRevision: Text, sourceDigest: Option<nat>, authority: AuthorityClass, renderedDigest: nat)

  datatype Omission = Omission(sourceRef: Text, selectionRule: Text, reason: Text)

  const NUL: Text := [0]

  function EntryKey(e: Entry): Text { KindName(e.kind) + NUL + e.sourceRef + NUL + e.sourceRevision }

  function ManifestKey(e: ManifestEntry): Text { KindName(e.kind) + NUL + e.sourceRef + NUL + e.sourceRevision }

  function OmissionKey(o: Omission): Text { o.sourceRef + NUL + o.selectionRule + NUL + o.reason }

  function SourceOf(o: Omission): Text { o.sourceRef }

  predicate AuthorityFits(kind: Kind, authority: AuthorityClass) {
    match kind
    case GOAL => authority == GOAL_AUTHORITY
    case SUCCESS_CRITERION => authority == GOAL_AUTHORITY
    case FACT => authority == CONFIRMED_FACT || authority == OBSERVED || authority == NON_AUTHORITATIVE_WORKING
    case DECISION => authority == HUMAN_DECISION
    case PROJECT_RULE => authority == OBSERVED
    case PROJECT_OBSERVATION => authority == OBSERVED
    case CANDIDATE => authority == OBSERVED
    case WORKING_CONTEXT => authority == NON_AUTHORITATIVE_WORKING
    case EVIDENCE_SET => authority == EVIDENCE_AUTHORITY
    case EVIDENCE => authority == EVIDENCE_AUTHORITY
    case EVIDENCE_ELIGIBILITY => authority == EVIDENCE_AUTHORITY
    case PRIOR_ATTEMPT_FEEDBACK => authority == NON_AUTHORITATIVE_WORKING
    case _ => authority == RUNTIME_DECISION
  }

  // Not owned by the compiler, and of a fitting authority.
  predicate Selectable(e: Entry) {
    e.kind != GOAL && e.kind != SUCCESS_CRITERION && e.kind != CANDIDATE && AuthorityFits(e.kind, e.authority)
  }

  // ---- Canonical entries and omissions ----

  ghost function CanonicalEntries(entries: seq<Entry>): Option<seq<Entry>> {
    if DistinctBy(entries, EntryKey) && forall e | e in entries :: Selectable(e) then Some(SortBy(entries, EntryKey)) else None
  }

  ghost function CanonicalOmissions(omissions: seq<Omission>): Option<seq<Omission>> {
    if DistinctBy(omissions, OmissionKey) && DistinctBy(omissions, SourceOf) then Some(SortBy(omissions, OmissionKey)) else None
  }

  lemma {:induction false} NeighboursSuffice<T>(s: seq<T>, key: T -> Text)
    requires Ordered(s, key) && forall k | 0 < k < |s| :: key(s[k - 1]) != key(s[k])
    ensures DistinctBy(s, key)
  {
    forall i, j | 0 <= i < j < |s| ensures key(s[i]) != key(s[j]) {
      LessTotal(key(s[j - 1]), key(s[j]));
      if i < j - 1 { LessTotal(key(s[i]), key(s[j - 1])); }
    }
  }

  // Sorting keeps the members and their being distinct.
  lemma {:induction false} SortedAlike<T, K>(s: seq<T>, key: T -> Text, other: T -> K)
    ensures DistinctBy(SortBy(s, key), other) <==> DistinctBy(s, other)
    ensures forall x :: x in SortBy(s, key) <==> x in s
  {
    SortIs(s, key);
    var r := SortBy(s, key);
    if DistinctBy(s, other) { PermutationIsDistinct(s, r, other); }
    if DistinctBy(r, other) { PermutationIsDistinct(r, s, other); }
    forall x ensures x in r <==> x in s { SameMembers(r, s, x); }
  }

  // The loop of `canonicalEntries`: it compares neighbours only.
  method AcceptSorted<T>(s: seq<T>, key: T -> Text, fits: T -> bool) returns (ok: bool)
    requires Ordered(s, key)
    ensures ok <==> DistinctBy(s, key) && forall x | x in s :: fits(x)
  {
    var i := 0;
    while i < |s|
      invariant i <= |s|
      invariant forall k | 0 < k < i :: key(s[k - 1]) != key(s[k])
      invariant forall k | 0 <= k < i :: fits(s[k])
    {
      if i > 0 && key(s[i - 1]) == key(s[i]) { return false; }
      if !fits(s[i]) { return false; }
      i := i + 1;
    }
    NeighboursSuffice(s, key);
    return true;
  }

  // The loop of `canonicalOmissions`.
  method AcceptDistinct<T>(s: seq<T>, key: T -> Text, source: T -> Text) returns (ok: bool)
    requires Ordered(s, key)
    ensures ok <==> DistinctBy(s, key) && DistinctBy(s, source)
  {
    var sourceRefs: set<Text> := {};
    var i := 0;
    while i < |s|
      invariant i <= |s|
      invariant forall k | 0 < k < i :: key(s[k - 1]) != key(s[k])
      invariant forall r :: r in sourceRefs <==> exists k :: 0 <= k < i && source(s[k]) == r
      invariant forall j, k | 0 <= j < k < i :: source(s[j]) != source(s[k])
    {
      if i > 0 && key(s[i - 1]) == key(s[i]) { return false; }
      if source(s[i]) in sourceRefs { return false; }
      sourceRefs := sourceRefs + {source(s[i])};
      i := i + 1;
    }
    NeighboursSuffice(s, key);
    return true;
  }

  // `assertCanonicalOrder`.
  method AssertCanonicalOrder<T>(s: seq<T>, key: T -> Text) returns (ok: bool)
    ensures ok <==> StrictlyOrdered(s, key)
  {
    var i := 1;
    while i < |s|
      invariant 1 <= i
      invariant forall j, k | 0 <= j < k < i && k < |s| :: Less(key(s[j]), key(s[k]))
    {
      if !Less(key(s[i - 1]), key(s[i])) { return false; }
      forall j | 0 <= j < i ensures Less(key(s[j]), key(s[i])) {
        if j < i - 1 { LessTransitive(key(s[j]), key(s[i - 1]), key(s[i])); }
      }
      i := i + 1;
    }
    return true;
  }

  method SortEntries(entries: seq<Entry>) returns (r: Option<seq<Entry>>)
    ensures r == CanonicalEntries(entries)
  {
    var materialized := SortBy(entries, EntryKey);
    SortIs(entries, EntryKey);
    SortedAlike(entries, EntryKey, EntryKey);
    var ok := AcceptSorted(materialized, EntryKey, Selectable);
    return if ok then Some(materialized) else None;
  }

  method SortOmissions(omissions: seq<Omission>) returns (r: Option<seq<Omission>>)
    ensures r == CanonicalOmissions(omissions)
  {
    var materialized := SortBy(omissions, OmissionKey);
    SortIs(omissions, OmissionKey);
    SortedAlike(omissions, OmissionKey, OmissionKey);
    SortedAlike(omissions, OmissionKey, SourceOf);
    var ok := AcceptDistinct(materialized, OmissionKey, SourceOf);
    return if ok then Some(materialized) else None;
  }

  lemma {:induction false} CanonicalEntriesForgetOrder(a: seq<Entry>, b: seq<Entry>)
    requires multiset(a) == multiset(b)
    ensures CanonicalEntries(a) == CanonicalEntries(b)
  {
    forall e ensures e in a <==> e in b { SameMembers(a, b, e); }
    if DistinctBy(a, EntryKey) {
      PermutationIsDistinct(a, b, EntryKey);
      SortForgetsOrder(a, b, EntryKey);
    }
    if DistinctBy(b, EntryKey) { PermutationIsDistinct(b, a, EntryKey); }
  }

  lemma {:induction false} CanonicalOmissionsForgetOrder(a: seq<Omission>, b: seq<Omission>)
    requires multiset(a) == multiset(b)
    ensures CanonicalOmissions(a) == CanonicalOmissions(b)
  {
    if DistinctBy(a, OmissionKey) {
      PermutationIsDistinct(a, b, OmissionKey);
      SortForgetsOrder(a, b, OmissionKey);
    }
    if DistinctBy(b, OmissionKey) { PermutationIsDistinct(b, a, OmissionKey); }
    if DistinctBy(a, SourceOf) { PermutationIsDistinct(a, b, SourceOf); }
    if DistinctBy(b, SourceOf) { PermutationIsDistinct(b, a, SourceOf); }
  }

  // ---- Compiling ----

  datatype CandidateBinding = CandidateBinding(generationId: Text, digest: nat)

  // Everything that goes into a package but the selected entries.  The repair entries are those of
  // the repair context, if there is one; rest stands for the other fields.
  datatype Base = Base(
    goalId: Text,
    goalRevision: Text,
    criterionIds: seq<Text>,
    workflowVersion: Text,
    candidate: Option<CandidateBinding>,
    repairEntries: seq<ManifestEntry>,
    rest: nat)

  datatype Package = Package(base: Base, selectedEntries: seq<Entry>)

  datatype Manifest = Manifest(base: Base, entries: seq<ManifestEntry>, omissionDecisions: seq<Omission>, packageDigest: nat)

  // The digests, and the checks that are not part of this model: the byte budget and the decoders.
  datatype Host = Host(
    goalDigest: Base -> nat,
    criterionDigest: (Base, Text) -> nat,
    renderedDigest: Entry -> nat,
    candidateDigest: CandidateBinding -> nat,
    packageDigest: Package -> nat,
    packageFits: Package -> bool,
    manifestFits: Manifest -> bool)

  function GoalEntry(b: Base, h: Host): ManifestEntry {
    ManifestEntry(GOAL, b.goalId, b.goalRevision, None, GOAL_AUTHORITY, h.goalDigest(b))
  }

  function CandidateEntries(b: Base, h: Host): seq<ManifestEntry> {
    if b.candidate.None? then [] else
    [ManifestEntry(CANDIDATE, b.candidate.value.generationId, b.workflowVersion, Some(b.candidate.value.digest), OBSERVED,
      h.candidateDigest(b.candidate.value))]
  }

  function CriterionEntries(b: Base, h: Host): seq<ManifestEntry> {
    seq(|b.criterionIds|, k requires 0 <= k < |b.criterionIds| =>
      ManifestEntry(SUCCESS_CRITERION, b.criterionIds[k], b.goalRevision, None, GOAL_AUTHORITY, h.criterionDigest(b, b.criterionIds[k])))
  }

  function SelectedEntries(p: Package, h: Host): seq<ManifestEntry> {
    seq(|p.selectedEntries|, k requires 0 <= k < |p.selectedEntries| =>
      var e := p.selectedEntries[k];
      ManifestEntry(e.kind, e.sourceRef, e.sourceRevision, e.sourceDigest, e.authority, h.renderedDigest(e)))
  }

  function RawEntries(p: Package, h: Host): seq<ManifestEntry> {
    [GoalEntry(p.base, h)] + CriterionEntries(p.base, h) + SelectedEntries(p, h) + CandidateEntries(p.base, h) +
    p.base.repairEntries
  }

  function DeriveEntries(p: Package, h: Host): seq<ManifestEntry> { SortBy(RawEntries(p, h), ManifestKey) }

  function RefsOf(entries: seq<Entry>): set<Text> { set e | e in entries :: e.sourceRef }

  function ManifestRefs(entries: seq<ManifestEntry>): set<Text> { set e | e in entries :: e.sourceRef }

  // The sources that the compiler looks at before it decodes the package.
  function Included(b: Base, selected: seq<Entry>): set<Text> {
    {b.goalId} + SetOf(b.criterionIds) + RefsOf(selected) + if b.candidate.Some? then {b.candidate.value.generationId} else {}
  }

  predicate Conflicts(sources: set<Text>, omissions: seq<Omission>) {
    exists k | 0 <= k < |omissions| :: omissions[k].sourceRef in sources
  }

  predicate EntryFits(e: ManifestEntry) {
    !AllWhitespace(e.sourceRef) && !AllWhitespace(e.sourceRevision) && AuthorityFits(e.kind, e.authority)
  }

  predicate OmissionFits(o: Omission) {
    !AllWhitespace(o.sourceRef) && !AllWhitespace(o.selectionRule) && !AllWhitespace(o.reason)
  }

  function OfKind(entries: seq<ManifestEntry>, kind: Kind): seq<ManifestEntry> {
    if entries == [] then [] else
    var last := entries[|entries| - 1];
    OfKind(entries[..|entries| - 1], kind) + if last.kind == kind then [last] else []
  }

  predicate GoalFits(b: Base, goals: seq<ManifestEntry>) {
    |goals| == 1 && goals[0].sourceRef == b.goalId && goals[0].sourceRevision == b.goalRevision
  }

  predicate CandidateFits(b: Base, candidates: seq<ManifestEntry>) {
    if b.candidate.None? then candidates == [] else
    && |candidates| == 1 && candidates[0].sourceRef == b.candidate.value.generationId
    && candidates[0].sourceRevision == b.workflowVersion && candidates[0].sourceDigest == Some(b.candidate.value.digest)
  }

  ghost predicate CriteriaFit(revision: Text, entries: seq<ManifestEntry>) {
    forall e | e in entries && e.kind == SUCCESS_CRITERION :: e.sourceRevision == revision
  }

  // Exactly the Goal entry and the Candidate entry that the manifest binds, and criteria of its revision.
  ghost predicate BindingsFit(b: Base, entries: seq<ManifestEntry>) {
    && GoalFits(b, OfKind(entries, GOAL)) && CandidateFits(b, OfKind(entries, CANDIDATE))
    && CriteriaFit(b.goalRevision, entries)
  }

  // `assertContextManifestInvariant`, as far as it is about the entries and the omissions.
  ghost predicate ManifestInv(m: Manifest) {
    && (forall e | e in m.entries :: EntryFits(e)) && StrictlyOrdered(m.entries, ManifestKey) && BindingsFit(m.base, m.entries)
    && (forall o | o in m.omissionDecisions :: OmissionFits(o))
    && StrictlyOrdered(m.omissionDecisions, OmissionKey) && DistinctBy(m.omissionDecisions, SourceOf)
    && !Conflicts(ManifestRefs(m.entries), m.omissionDecisions)
  }

  datatype Compiled = Compiled(package: Package, manifest: Manifest)

  ghost function Compile(b: Base, entries: seq<Entry>, omissions: seq<Omission>, h: Host): Option<Compiled> {
    var selected, omitted := CanonicalEntries(entries), CanonicalOmissions(omissions);
    if selected.None? || omitted.None? || Conflicts(Included(b, selected.value), omitted.value) then None else
    var p := Package(b, selected.value);
    if !h.packageFits(p) then None else
    var m := Manifest(b, DeriveEntries(p, h), omitted.value, h.packageDigest(p));
    if ManifestInv(m) && h.manifestFits(m) then Some(Compiled(p, m)) else None
  }

  method CompileContext(b: Base, entries: seq<Entry>, omissions: seq<Omission>, h: Host) returns (r: Option<Compiled>)
    ensures r == Compile(b, entries, omissions, h)
  {
    var selected := SortEntries(entries);
    if selected.None? { return None; }
    var omitted := SortOmissions(omissions);
    if omitted.None? { return None; }
    var conflict := FindsConflict(Included(b, selected.value), omitted.value);
    if conflict { return None; }
    var p := Package(b, selected.value);
    if !h.packageFits(p) { return None; }
    var m := Manifest(b, DeriveEntries(p, h), omitted.value, h.packageDigest(p));
    var ok := CheckManifest(m);
    if !ok || !h.manifestFits(m) { return None; }
    return Some(Compiled(p, m));
  }

  // Whether one of the omitted sources is among the sources.
  method FindsConflict(sources: set<Text>, omissions: seq<Omission>) returns (found: bool)
    ensures found == Conflicts(sources, omissions)
  {
    var i := 0;
    while i < |omissions|
      invariant i <= |omissions|
      invariant forall k | 0 <= k < i :: omissions[k].sourceRef !in sources
    {
      if omissions[i].sourceRef in sources { return true; }
      i := i + 1;
    }
    return false;
  }

  method CheckManifest(m: Manifest) returns (ok: bool)
    ensures ok == ManifestInv(m)
  {
    ok := CheckEntries(m.base, m.entries);
    if !ok { return; }
    var i := 0;
    while i < |m.omissionDecisions|
      invariant i <= |m.omissionDecisions|
      invariant forall k | 0 <= k < i :: OmissionFits(m.omissionDecisions[k])
    {
      if !OmissionFits(m.omissionDecisions[i]) { return false; }
      i := i + 1;
    }
    ok := AssertCanonicalOrder(m.omissionDecisions, OmissionKey);
    if !ok { return; }
    StrictIsOrdered(m.omissionDecisions, OmissionKey);
    ok := AcceptDistinct(m.omissionDecisions, OmissionKey, SourceOf);
    if !ok { return; }
    var conflict := FindsConflict(ManifestRefs(m.entries), m.omissionDecisions);
    ok := !conflict;
  }

  method CheckEntries(b: Base, entries: seq<ManifestEntry>) returns (ok: bool)
    ensures ok <==> (forall e | e in entries :: EntryFits(e)) && StrictlyOrdered(entries, ManifestKey) && BindingsFit(b, entries)
  {
    ok := CheckBindings(b, entries);
    if !ok { return; }
    ok := AssertCanonicalOrder(entries, ManifestKey);
    if !ok { return; }
    ok := CheckRevisions(b.goalRevision, entries);
  }

  // The last loop: every criterion is of the revision of the Goal.
  method CheckRevisions(revision: Text, entries: seq<ManifestEntry>) returns (ok: bool)
    ensures ok <==> CriteriaFit(revision, entries)
  {
    var i := 0;
    while i < |entries|
      invariant i <= |entries|
      invariant forall k | 0 <= k < i && entries[k].kind == SUCCESS_CRITERION :: entries[k].sourceRevision == revision
    {
      if entries[i].kind == SUCCESS_CRITERION && entries[i].sourceRevision != revision { return false; }
      i := i + 1;
    }
    return true;
  }

  // The first loop: every entry by itself, and the Goal and Candidate entries collected.
  method CheckBindings(b: Base, entries: seq<ManifestEntry>) returns (ok: bool)
    ensures ok <==>
      && (forall e | e in entries :: EntryFits(e)) && GoalFits(b, OfKind(entries, GOAL)) && CandidateFits(b, OfKind(entries, CANDIDATE))
  {
    var goalEntries: seq<ManifestEntry>, candidateEntries: seq<ManifestEntry> := [], [];
    var i := 0;
    while i < |entries|
      invariant i <= |entries|
      invariant forall k | 0 <= k < i :: EntryFits(entries[k])
      invariant goalEntries == OfKind(entries[..i], GOAL) && candidateEntries == OfKind(entries[..i], CANDIDATE)
    {
      if !EntryFits(entries[i]) { return false; }
      OfKindNext(entries, i, GOAL);
      OfKindNext(entries, i, CANDIDATE);
      if entries[i].kind == GOAL { goalEntries := goalEntries + [entries[i]]; }
      if entries[i].kind == CANDIDATE { candidateEntries := candidateEntries + [entries[i]]; }
      i := i + 1;
    }
    assert entries[..i] == entries;
    return GoalFits(b, goalEntries) && CandidateFits(b, candidateEntries);
  }

  lemma {:induction false} OfKindNext(s: seq<ManifestEntry>, i: nat, kind: Kind)
    requires i < |s|
    ensures OfKind(s[..i + 1], kind) == OfKind(s[..i], kind) + if s[i].kind == kind then [s[i]] else []
  {
    assert s[..i + 1][..i] == s[..i];
  }

  lemma {:induction false} StrictIsOrdered<T>(s: seq<T>, key: T -> Text)
    requires StrictlyOrdered(s, key)
    ensures Ordered(s, key) && DistinctBy(s, key)
  {
    forall i, j | 0 <= i < j < |s| ensures !Less(key(s[j]), key(s[i])) && key(s[i]) != key(s[j]) {
      LessTotal(key(s[i]), key(s[j]));
    }
  }

  // Compilation does not depend on the order of the selected entries and the omission decisions.
  lemma {:induction false} CompilationForgetsOrder(
    b: Base, entries: seq<Entry>, permuted: seq<Entry>, omissions: seq<Omission>, reordered: seq<Omission>, h: Host)
    requires multiset(entries) == multiset(permuted) && multiset(omissions) == multiset(reordered)
    ensures Compile(b, entries, omissions, h) == Compile(b, permuted, reordered, h)
  {
    CanonicalEntriesForgetOrder(entries, permuted);
    CanonicalOmissionsForgetOrder(omissions, reordered);
  }

  // A compiled manifest is strictly increasing, has exactly the derived entries, and omits no source
  // that it or the package has; the selected entries are the given ones.
  lemma {:induction false} CompiledIsCanonical(b: Base, entries: seq<Entry>, omissions: seq<Omission>, h: Host)
    requires Compile(b, entries, omissions, h).Some?
    ensures var c := Compile(b, entries, omissions, h).value;
      && StrictlyOrdered(c.package.selectedEntries, EntryKey) && multiset(c.package.selectedEntries) == multiset(entries)
      && StrictlyOrdered(c.manifest.entries, ManifestKey)
      && multiset(c.manifest.entries) == multiset(RawEntries(c.package, h))
      && multiset(c.manifest.omissionDecisions) == multiset(omissions)
      && (forall e, o | e in entries && o in omissions :: e.sourceRef != o.sourceRef)
      && (forall e, o | e in c.manifest.entries && o in omissions :: e.sourceRef != o.sourceRef)
  {
    var c := Compile(b, entries, omissions, h).value;
    StrictlySortedExactly(entries, EntryKey);
    SortIs(entries, EntryKey);
    SortIs(omissions, OmissionKey);
    SortIs(RawEntries(c.package, h), ManifestKey);
    forall e, o | e in entries && o in omissions ensures e.sourceRef != o.sourceRef {
      SameMembers(entries, c.package.selectedEntries, e);
      SameMembers(omissions, c.manifest.omissionDecisions, o);
      NoConflict(Included(b, c.package.selectedEntries), c.manifest.omissionDecisions, o);
    }
    forall e, o | e in c.manifest.entries && o in omissions ensures e.sourceRef != o.sourceRef {
      SameMembers(omissions, c.manifest.omissionDecisions, o);
      NoConflict(ManifestRefs(c.manifest.entries), c.manifest.omissionDecisions, o);
    }
  }

  lemma {:induction false} NoConflict(sources: set<Text>, omissions: seq<Omission>, o: Omission)
    requires o in omissions && !Conflicts(sources, omissions)
    ensures o.sourceRef !in sources
  {
    var k :| 0 <= k < |omissions| && omissions[k] == o;
  }

  // ---- The bindings of a derived manifest ----

  lemma {:induction false} OfKindCounts(s: seq<ManifestEntry>, kind: Kind, x: ManifestEntry)
    ensures multiset(OfKind(s, kind))[x] == if x.kind == kind then multiset(s)[x] else 0
  {
    if s != [] {
      OfKindCounts(s[..|s| - 1], kind, x);
      assert s == s[..|s| - 1] + [s[|s| - 1]];
    }
  }

  lemma {:induction false} OfKindPermutes(a: seq<ManifestEntry>, b: seq<ManifestEntry>, kind: Kind)
    requires multiset(a) == multiset(b)
    ensures multiset(OfKind(a, kind)) == multiset(OfKind(b, kind))
  {
    forall x ensures multiset(OfKind(a, kind))[x] == multiset(OfKind(b, kind))[x] {
      OfKindCounts(a, kind, x);
      OfKindCounts(b, kind, x);
    }
  }

  lemma {:induction false} OfKindConcat(a: seq<ManifestEntry>, b: seq<ManifestEntry>, kind: Kind)
    ensures OfKind(a + b, kind) == OfKind(a, kind) + OfKind(b, kind)
    decreases |b|
  {
    if b == [] {
      assert a + b == a;
    } else {
      assert (a + b)[..|a + b| - 1] == a + b[..|b| - 1];
      OfKindConcat(a, b[..|b| - 1], kind);
    }
  }

  lemma {:induction false} OfKindNone(s: seq<ManifestEntry>, kind: Kind)
    requires forall e | e in s :: e.kind != kind
    ensures OfKind(s, kind) == []
  {
    if s != [] {
      assert s[|s| - 1] in s;
      OfKindNone(s[..|s| - 1], kind);
    }
  }

  lemma {:induction false} SameOne(a: seq<ManifestEntry>, b: seq<ManifestEntry>)
    requires multiset(a) == multiset(b) && |a| <= 1
    ensures a == b
  {
    assert |a| == |multiset(a)| == |multiset(b)| == |b|;
    if a != [] {
      assert a[0] in multiset(a) && a[0] in multiset(b) && a[0] in b;
    }
  }

  // Neither owned by the compiler nor a criterion.
  predicate IsForeign(e: ManifestEntry) { e.kind != GOAL && e.kind != SUCCESS_CRITERION && e.kind != CANDIDATE }

  lemma {:induction false} CriteriaAreCriteria(b: Base, h: Host)
    ensures forall e | e in CriterionEntries(b, h) :: e.kind == SUCCESS_CRITERION && e.sourceRevision == b.goalRevision
  {
  }

  lemma {:induction false} SelectedAreForeign(p: Package, h: Host)
    requires forall e | e in p.selectedEntries :: Selectable(e)
    ensures forall e | e in SelectedEntries(p, h) :: IsForeign(e)
  {
    forall e | e in SelectedEntries(p, h) ensures IsForeign(e) {
      var k :| 0 <= k < |p.selectedEntries| && SelectedEntries(p, h)[k] == e;
      assert Selectable(p.selectedEntries[k]);
    }
  }

  lemma {:induction false} RawOfKind(p: Package, h: Host, kind: Kind)
    requires forall e | e in p.selectedEntries :: Selectable(e)
    requires (forall e | e in p.base.repairEntries :: IsForeign(e)) && (kind == GOAL || kind == CANDIDATE)
    ensures OfKind(RawEntries(p, h), kind) == if kind == GOAL then [GoalEntry(p.base, h)] else CandidateEntries(p.base, h)
  {
    CriteriaAreCriteria(p.base, h);
    SelectedAreForeign(p, h);
    OfKindNone(CriterionEntries(p.base, h), kind);
    OfKindNone(SelectedEntries(p, h), kind);
    OfKindNone(p.base.repairEntries, kind);
    OnlyOne([GoalEntry(p.base, h)], kind);
    OnlyOne(CandidateEntries(p.base, h), kind);
    OfKindOfFive([GoalEntry(p.base, h)], CriterionEntries(p.base, h), SelectedEntries(p, h), CandidateEntries(p.base, h),
      p.base.repairEntries, kind);
  }

  lemma {:induction false} OfKindOfFive(
    a: seq<ManifestEntry>, b: seq<ManifestEntry>, c: seq<ManifestEntry>, d: seq<ManifestEntry>, e: seq<ManifestEntry>, kind: Kind)
    ensures OfKind(a + b + c + d + e, kind) == OfKind(a, kind) + OfKind(b, kind) + OfKind(c, kind) + OfKind(d, kind) + OfKind(e, kind)
  {
    OfKindConcat(a + b + c + d, e, kind);
    OfKindConcat(a + b + c, d, kind);
    OfKindConcat(a + b, c, kind);
    OfKindConcat(a, b, kind);
  }

  lemma {:induction false} OnlyOne(s: seq<ManifestEntry>, kind: Kind)
    requires |s| <= 1
    ensures OfKind(s, kind) == if s != [] && s[0].kind == kind then s else []
  {
    if s != [] { assert s[..0] == [] && s == [s[0]]; }
  }

  // The compiler never trips its own check of the Goal, the criteria and the Candidate: the manifest
  // derived from selectable entries has exactly the entries that it binds.
  lemma {:induction false} DerivedBindingsFit(p: Package, h: Host)
    requires (forall e | e in p.selectedEntries :: Selectable(e)) && forall e | e in p.base.repairEntries :: IsForeign(e)
    ensures BindingsFit(p.base, DeriveEntries(p, h))
  {
    var raw, derived := RawEntries(p, h), DeriveEntries(p, h);
    SortIs(raw, ManifestKey);
    RawOfKind(p, h, GOAL);
    RawOfKind(p, h, CANDIDATE);
    OfKindPermutes(raw, derived, GOAL);
    OfKindPermutes(raw, derived, CANDIDATE);
    SameOne(OfKind(raw, GOAL), OfKind(derived, GOAL));
    SameOne(OfKind(raw, CANDIDATE), OfKind(derived, CANDIDATE));
    forall e | e in derived && e.kind == SUCCESS_CRITERION ensures e.sourceRevision == p.base.goalRevision {
      SameMembers(raw, derived, e);
      CriterionOfRevision(p, h, e);
    }
  }

  lemma {:induction false} CriterionOfRevision(p: Package, h: Host, e: ManifestEntry)
    requires (forall x | x in p.selectedEntries :: Selectable(x)) && forall x | x in p.base.repairEntries :: IsForeign(x)
    requires e in RawEntries(p, h) && e.kind == SUCCESS_CRITERION
    ensures e.sourceRevision == p.base.goalRevision
  {
    CriteriaAreCriteria(p.base, h);
    SelectedAreForeign(p, h);
  }

  // ---- Kinds, authorities and keys ----

  // The kinds that the authority goes with.
  function KindsOf(authority: AuthorityClass): set<Kind> {
    match authority
    case GOAL_AUTHORITY => {GOAL, SUCCESS_CRITERION}
    case CONFIRMED_FACT => {FACT}
    case HUMAN_DECISION => {DECISION}
    case OBSERVED => {FACT, PROJECT_RULE, PROJECT_OBSERVATION, CANDIDATE}
    case NON_AUTHORITATIVE_WORKING => {FACT, WORKING_CONTEXT, PRIOR_ATTEMPT_FEEDBACK}
    case EVIDENCE_AUTHORITY => {EVIDENCE_SET, EVIDENCE, EVIDENCE_ELIGIBILITY}
    case RUNTIME_DECISION =>
      {ACCEPTANCE_REPAIR, ACCEPTANCE_DECISION, ACCEPTANCE_INPUT_MANIFEST, CANDIDATE_RELATIONSHIP, PRESERVATION_CONSTRAINT}
  }

  lemma {:induction false} AuthoritiesExactly(kind: Kind, authority: AuthorityClass)
    ensures AuthorityFits(kind, authority) <==> kind in KindsOf(authority)
  {
  }

  // An entry may be selected exactly if its authority goes with its kind, and it is not one of the three
  // kinds that the compiler derives itself.
  lemma {:induction false} SelectableExactly(e: Entry)
    ensures Selectable(e) <==> e.kind in KindsOf(e.authority) - {GOAL, SUCCESS_CRITERION, CANDIDATE}
  {
    AuthoritiesExactly(e.kind, e.authority);
  }

  // The names of the kinds are told apart by their lengths and first letters.
  function NameSize(kind: Kind): (nat, char) {
    match kind
    case GOAL => (4, 'G')
    case SUCCESS_CRITERION => (17, 'S')
    case FACT => (4, 'F')
    case DECISION => (8, 'D')
    case PROJECT_RULE => (12, 'P')
    case PROJECT_OBSERVATION => (19, 'P')
    case WORKING_CONTEXT => (15, 'W')
    case CANDIDATE => (9, 'C')
    case ACCEPTANCE_REPAIR => (17, 'A')
    case ACCEPTANCE_DECISION => (19, 'A')
    case ACCEPTANCE_INPUT_MANIFEST => (25, 'A')
    case EVIDENCE_SET => (12, 'E')
    case EVIDENCE => (8, 'E')
    case EVIDENCE_ELIGIBILITY => (20, 'E')
    case CANDIDATE_RELATIONSHIP => (22, 'C')
    case PRESERVATION_CONSTRAINT => (23, 'P')
    case PRIOR_ATTEMPT_FEEDBACK => (22, 'P')
  }

  lemma {:induction false} NameIs(kind: Kind)
    ensures |KindName(kind)| == NameSize(kind).0 && KindName(kind)[0] == NameSize(kind).1 as int
  {
  }

  // Where the name of another kind with the same first letter ends, the name goes on.
  lemma {:induction false} NameGoesOn(kind: Kind, other: Kind)
    requires NameSize(kind).1 == NameSize(other).1 && NameSize(other).0 < NameSize(kind).0
    ensures NameSize(other).0 < |KindName(kind)| && KindName(kind)[NameSize(other).0] != 0
  {
    NameIs(kind);
    match other {
      case PROJECT_RULE => ProjectGoesOn(kind, other);
      case PROJECT_OBSERVATION => ProjectGoesOn(kind, other);
      case PRIOR_ATTEMPT_FEEDBACK => assert kind == PRESERVATION_CONSTRAINT;
      case EVIDENCE => EvidenceGoesOn(kind);
      case EVIDENCE_SET => assert kind == EVIDENCE_ELIGIBILITY;
      case CANDIDATE => assert kind == CANDIDATE_RELATIONSHIP;
      case ACCEPTANCE_REPAIR => AcceptanceGoesOn(kind);
      case ACCEPTANCE_DECISION => assert kind == ACCEPTANCE_INPUT_MANIFEST;
    }
  }

  lemma {:induction false} EvidenceGoesOn(kind: Kind)
    requires NameSize(kind).1 == 'E' && 8 < NameSize(kind).0
    ensures 8 < |KindName(kind)| && KindName(kind)[8] != 0
  {
    match kind {
      case EVIDENCE_SET =>
      case EVIDENCE_ELIGIBILITY =>
    }
  }

  lemma {:induction false} AcceptanceGoesOn(kind: Kind)
    requires NameSize(kind).1 == 'A' && 17 < NameSize(kind).0
    ensures 17 < |KindName(kind)| && KindName(kind)[17] != 0
  {
    match kind {
      case ACCEPTANCE_DECISION =>
      case ACCEPTANCE_INPUT_MANIFEST =>
    }
  }

  lemma {:induction false} ProjectGoesOn(kind: Kind, other: Kind)
    requires other == PROJECT_RULE || other == PROJECT_OBSERVATION
    requires NameSize(kind).1 == NameSize(other).1 && NameSize(other).0 < NameSize(kind).0
    ensures NameSize(other).0 < |KindName(kind)| && KindName(kind)[NameSize(other).0] != 0
  {
    NameIs(kind);
    match kind {
      case PROJECT_OBSERVATION =>
      case PRIOR_ATTEMPT_FEEDBACK =>
      case PRESERVATION_CONSTRAINT =>
    }
  }

  lemma {:induction false} KindsDiffer(a: Kind, b: Kind, x: Text, y: Text)
    requires a != b
    ensures KindName(a) + NUL + x != KindName(b) + NUL + y
  {
    var s, t := KindName(a) + NUL + x, KindName(b) + NUL + y;
    NameIs(a);
    NameIs(b);
    assert s[0] == KindName(a)[0] && t[0] == KindName(b)[0];
    if NameSize(a).1 == NameSize(b).1 {
      assert NameSize(a).0 != NameSize(b).0;
      if NameSize(a).0 < NameSize(b).0 { NamesDiffer(a, b, x, y); } else { NamesDiffer(b, a, y, x); }
    }
  }

  lemma {:induction false} NamesDiffer(a: Kind, b: Kind, x: Text, y: Text)
    requires NameSize(a).1 == NameSize(b).1 && NameSize(a).0 < NameSize(b).0
    ensures KindName(a) + NUL + x != KindName(b) + NUL + y
  {
    NameIs(a);
    NameGoesOn(b, a);
    var s, t, k := KindName(a) + NUL + x, KindName(b) + NUL + y, NameSize(a).0;
    assert s[k] == 0 && t[k] == KindName(b)[k];
  }

  // Up to a separator that the first parts do not contain, two joined texts are equal only part by part.
  lemma {:induction false} PartsAreEqual(a: Text, b: Text, x: Text, y: Text)
    requires 0 !in a && 0 !in b && a + NUL + x == b + NUL + y
    ensures a == b && x == y
  {
    SeparatesFirst(a, x);
    SeparatesFirst(b, y);
    assert |a| == |b|;
    assert a == (a + NUL + x)[..|a|] == (b + NUL + y)[..|b|] == b;
    assert x == (a + NUL + x)[|a| + 1..] == (b + NUL + y)[|b| + 1..] == y;
  }

  predicate IsFirstSeparator(s: Text, k: nat) { k < |s| && s[k] == 0 && forall j | 0 <= j < k :: s[j] != 0 }

  lemma {:induction false} SeparatesFirst(a: Text, x: Text)
    requires 0 !in a
    ensures IsFirstSeparator(a + NUL + x, |a|)
  {
    forall j | 0 <= j < |a| ensures (a + NUL + x)[j] != 0 { assert a[j] in a; }
  }

  // Two entries whose sources contain no separator have one key exactly when they are of one kind, one
  // source and one revision.
  lemma {:induction false} KeysExactly(d: Entry, e: Entry)
    requires 0 !in d.sourceRef && 0 !in e.sourceRef
    ensures EntryKey(d) == EntryKey(e) <==> (d.kind, d.sourceRef, d.sourceRevision) == (e.kind, e.sourceRef, e.sourceRevision)
  {
    var x, y := d.sourceRef + NUL + d.sourceRevision, e.sourceRef + NUL + e.sourceRevision;
    assert EntryKey(d) == KindName(d.kind) + NUL + x && EntryKey(e) == KindName(e.kind) + NUL + y;
    if d.kind != e.kind {
      KindsDiffer(d.kind, e.kind, x, y);
    } else if EntryKey(d) == EntryKey(e) {
      var k := |KindName(d.kind)| + 1;
      assert x == EntryKey(d)[k..] == EntryKey(e)[k..] == y;
      PartsAreEqual(d.sourceRef, e.sourceRef, d.sourceRevision, e.sourceRevision);
    }
  }

  // With the separator in a source the keys of two different entries can be equal.
  lemma {:induction false} SeparatorsCollide(e: Entry)
    ensures var a, b := e.(sourceRef := [0x61, 0, 0x62], sourceRevision := [0x63]), e.(sourceRef := [0x61], sourceRevision := [0x62, 0, 0x63]);
      a != b && EntryKey(a) == EntryKey(b)
  {
    var a, b := e.(sourceRef := [0x61, 0, 0x62], sourceRevision := [0x63]), e.(sourceRef := [0x61], sourceRevision := [0x62, 0, 0x63]);
    assert [0x61, 0, 0x62] + NUL + [0x63] == [0x61] + NUL + [0x62, 0, 0x63];
    assert EntryKey(a) == KindName(e.kind) + NUL + ([0x61, 0, 0x62] + NUL + [0x63]);
    assert EntryKey(b) == KindName(e.kind) + NUL + ([0x61] + NUL + [0x62, 0, 0x63]);
    assert |a.sourceRef| != |b.sourceRef|;
  }

  // The keys of omissions, and of the entries of a manifest, are made in the same way.
  lemma {:induction false} OtherKeysExactly(d: ManifestEntry, e: ManifestEntry, o: Omission, q: Omission, x: Entry)
    requires 0 !in o.sourceRef + o.selectionRule && 0 !in q.sourceRef + q.selectionRule
    ensures OmissionKey(o) == OmissionKey(q) <==> o == q
    ensures (x.kind, x.sourceRef, x.sourceRevision) == (d.kind, d.sourceRef, d.sourceRevision) ==> ManifestKey(d) == EntryKey(x)
  {
    assert OmissionKey(o) == o.sourceRef + NUL + (o.selectionRule + NUL + o.reason);
    assert OmissionKey(q) == q.sourceRef + NUL + (q.selectionRule + NUL + q.reason);
    if OmissionKey(o) == OmissionKey(q) {
      PartsAreEqual(o.sourceRef, q.sourceRef, o.selectionRule + NUL + o.reason, q.selectionRule + NUL + q.reason);
      PartsAreEqual(o.selectionRule, q.selectionRule, o.reason, q.reason);
    }
  }

  // ---- What a manifest lists ----

  // The entry of the Goal, of a criterion, of a selected entry, of the Candidate, or of the repair.
  ghost predicate IsDerived(e: ManifestEntry, p: Package, h: Host) {
    var b := p.base;
    match e.kind
    case GOAL =>
      (e.sourceRef, e.sourceRevision, e.sourceDigest, e.authority, e.renderedDigest) ==
        (b.goalId, b.goalRevision, None, GOAL_AUTHORITY, h.goalDigest(b))
    case SUCCESS_CRITERION =>
      e.sourceRef in b.criterionIds &&
      (e.sourceRevision, e.sourceDigest, e.authority, e.renderedDigest) ==
        (b.goalRevision, None, GOAL_AUTHORITY, h.criterionDigest(b, e.sourceRef))
    case CANDIDATE =>
      b.candidate.Some? &&
      (e.sourceRef, e.sourceRevision, e.sourceDigest, e.authority, e.renderedDigest) ==
        (b.candidate.value.generationId, b.workflowVersion, Some(b.candidate.value.digest), OBSERVED, h.candidateDigest(b.candidate.value))
    case _ => e in b.repairEntries || exists x :: x in p.selectedEntries && IsRendered(e, x, h)
  }

  predicate IsRendered(e: ManifestEntry, x: Entry, h: Host) {
    && (e.kind, e.sourceRef, e.sourceRevision) == (x.kind, x.sourceRef, x.sourceRevision)
    && (e.sourceDigest, e.authority, e.renderedDigest) == (x.sourceDigest, x.authority, h.renderedDigest(x))
  }

  // The manifest of a package lists these and nothing else, each once.
  lemma {:induction false} DerivedExactly(p: Package, h: Host, e: ManifestEntry)
    requires (forall x | x in p.selectedEntries :: Selectable(x)) && forall x | x in p.base.repairEntries :: IsForeign(x)
    ensures e in DeriveEntries(p, h) <==> IsDerived(e, p, h)
    ensures |DeriveEntries(p, h)| == 1 + |p.base.criterionIds| + |p.selectedEntries| + |p.base.repairEntries| + if p.base.candidate.Some? then 1 else 0
  {
    SortIs(RawEntries(p, h), ManifestKey);
    SameMembers(RawEntries(p, h), DeriveEntries(p, h), e);
    assert |multiset(RawEntries(p, h))| == |multiset(DeriveEntries(p, h))|;
    RawHas(p, h, e);
  }

  lemma {:induction false} RawHas(p: Package, h: Host, e: ManifestEntry)
    requires (forall x | x in p.selectedEntries :: Selectable(x)) && forall x | x in p.base.repairEntries :: IsForeign(x)
    ensures e in RawEntries(p, h) <==> IsDerived(e, p, h)
  {
    CriteriaAreCriteria(p.base, h);
    SelectedAreForeign(p, h);
    SelectedHas(p, h, e);
    CriteriaHave(p.base, h, e);
    CandidatesHave(p.base, h, e);
    assert e in RawEntries(p, h) <==>
      || e == GoalEntry(p.base, h) || e in CriterionEntries(p.base, h) || e in SelectedEntries(p, h)
      || e in CandidateEntries(p.base, h) || e in p.base.repairEntries;
  }

  lemma {:induction false} CandidatesHave(b: Base, h: Host, e: ManifestEntry)
    ensures e in CandidateEntries(b, h) <==>
      e.kind == CANDIDATE && b.candidate.Some? && e.sourceRef == b.candidate.value.generationId && e.sourceRevision == b.workflowVersion &&
      e.sourceDigest == Some(b.candidate.value.digest) && e.authority == OBSERVED && e.renderedDigest == h.candidateDigest(b.candidate.value)
  {
  }

  lemma {:induction false} SelectedHas(p: Package, h: Host, e: ManifestEntry)
    ensures e in SelectedEntries(p, h) <==> exists x :: x in p.selectedEntries && IsRendered(e, x, h)
  {
    if x :| x in p.selectedEntries && IsRendered(e, x, h) {
      var k :| 0 <= k < |p.selectedEntries| && p.selectedEntries[k] == x;
      assert SelectedEntries(p, h)[k] == e;
    }
    if k :| 0 <= k < |p.selectedEntries| && SelectedEntries(p, h)[k] == e { assert IsRendered(e, p.selectedEntries[k], h); }
  }

  lemma {:induction false} CriteriaHave(b: Base, h: Host, e: ManifestEntry)
    ensures e in CriterionEntries(b, h) <==>
      e.kind == SUCCESS_CRITERION && e.sourceRef in b.criterionIds && e.sourceRevision == b.goalRevision && e.sourceDigest.None? &&
      e.authority == GOAL_AUTHORITY && e.renderedDigest == h.criterionDigest(b, e.sourceRef)
  {
    if e.kind == SUCCESS_CRITERION && e.sourceRef in b.criterionIds && e.sourceRevision == b.goalRevision && e.sourceDigest.None? &&
       e.authority == GOAL_AUTHORITY && e.renderedDigest == h.criterionDigest(b, e.sourceRef)
    {
      var k :| 0 <= k < |b.criterionIds| && b.criterionIds[k] == e.sourceRef;
      assert CriterionEntries(b, h)[k] == e;
    }
  }

  // ---- Valid manifests ----

  predicate IsSaid(t: Text) { Trim(t) != [] }

  predicate Ascends<T>(s: seq<T>, key: T -> Text) { forall k | 0 < k < |s| :: Less(key(s[k - 1]), key(s[k])) }

  lemma {:induction false} AscendsExactly<T>(s: seq<T>, key: T -> Text)
    ensures Ascends(s, key) <==> StrictlyOrdered(s, key)
  {
    if Ascends(s, key) {
      forall i, j | 0 <= i < j < |s| ensures Less(key(s[i]), key(s[j])) { AscendsTo(s, key, i, j); }
    }
    if StrictlyOrdered(s, key) {
      forall k | 0 < k < |s| ensures Less(key(s[k - 1]), key(s[k])) { }
    }
  }

  lemma {:induction false} AscendsTo<T>(s: seq<T>, key: T -> Text, i: nat, j: nat)
    requires Ascends(s, key) && i < j < |s|
    ensures Less(key(s[i]), key(s[j]))
    decreases j
  {
    if i < j - 1 {
      AscendsTo(s, key, i, j - 1);
      LessTransitive(key(s[i]), key(s[j - 1]), key(s[j]));
    }
  }

  // Exactly one entry of the kind, if there is one to be, and with these fields.
  ghost predicate IsOnly(entries: seq<ManifestEntry>, kind: Kind, sourceRef: Text, revision: Text) {
    && (exists e :: e in entries && e.kind == kind)
    && (forall e | e in entries && e.kind == kind :: (e.sourceRef, e.sourceRevision) == (sourceRef, revision))
    && forall i, j | 0 <= i < j < |entries| && entries[i].kind == kind :: entries[j].kind != kind
  }

  lemma {:induction false} OfKindHas(entries: seq<ManifestEntry>, kind: Kind, e: ManifestEntry)
    ensures e in OfKind(entries, kind) <==> e in entries && e.kind == kind
    decreases |entries|
  {
    if entries != [] {
      var front, last := entries[..|entries| - 1], entries[|entries| - 1];
      OfKindHas(front, kind, e);
      assert entries == front + [last];
    }
  }

  ghost predicate AtMostOne(entries: seq<ManifestEntry>, kind: Kind) {
    forall i, j | 0 <= i < j < |entries| && entries[i].kind == kind :: entries[j].kind != kind
  }

  lemma {:induction false} OfKindFew(entries: seq<ManifestEntry>, kind: Kind)
    ensures |OfKind(entries, kind)| <= 1 <==> AtMostOne(entries, kind)
    decreases |entries|
  {
    if entries != [] {
      var front, last := entries[..|entries| - 1], entries[|entries| - 1];
      OfKindFew(front, kind);
      assert entries == front + [last];
      if last.kind == kind {
        LastOfKind(front, last);
        assert |OfKind(entries, kind)| == |OfKind(front, kind)| + 1;
      } else {
        assert AtMostOne(front, kind) <==> AtMostOne(entries, kind);
      }
    }
  }

  lemma {:induction false} LastOfKind(front: seq<ManifestEntry>, last: ManifestEntry)
    ensures OfKind(front, last.kind) == [] <==> AtMostOne(front + [last], last.kind)
  {
    var entries := front + [last];
    if OfKind(front, last.kind) != [] {
      var e := OfKind(front, last.kind)[0];
      assert e in OfKind(front, last.kind);
      OfKindHas(front, last.kind, e);
      var i :| 0 <= i < |front| && front[i] == e;
      assert entries[i].kind == last.kind && entries[|front|].kind == last.kind;
    } else {
      forall i | 0 <= i < |front| ensures entries[i].kind != last.kind { OfKindHas(front, last.kind, front[i]); }
    }
  }

  lemma {:induction false} OfKindIs(entries: seq<ManifestEntry>, kind: Kind)
    ensures forall e :: e in OfKind(entries, kind) <==> e in entries && e.kind == kind
    ensures |OfKind(entries, kind)| <= 1 <==> AtMostOne(entries, kind)
  {
    forall e ensures e in OfKind(entries, kind) <==> e in entries && e.kind == kind { OfKindHas(entries, kind, e); }
    OfKindFew(entries, kind);
  }

  lemma {:induction false} GoalIs(b: Base, entries: seq<ManifestEntry>)
    ensures GoalFits(b, OfKind(entries, GOAL)) <==> IsOnly(entries, GOAL, b.goalId, b.goalRevision)
  {
    OfKindIs(entries, GOAL);
    var goals := OfKind(entries, GOAL);
    if GoalFits(b, goals) { assert goals[0] in goals; }
    if IsOnly(entries, GOAL, b.goalId, b.goalRevision) {
      assert |goals| == 1 && goals[0] in goals;
    }
  }

  // The entry of the Candidate, if there is one, and none otherwise.
  ghost predicate BindsCandidate(b: Base, entries: seq<ManifestEntry>) {
    match b.candidate
    case None => forall e | e in entries :: e.kind != CANDIDATE
    case Some(c) =>
      && IsOnly(entries, CANDIDATE, c.generationId, b.workflowVersion)
      && forall e | e in entries && e.kind == CANDIDATE :: e.sourceDigest == Some(c.digest)
  }

  lemma {:induction false} CandidateIs(b: Base, entries: seq<ManifestEntry>)
    ensures CandidateFits(b, OfKind(entries, CANDIDATE)) <==> BindsCandidate(b, entries)
  {
    OfKindIs(entries, CANDIDATE);
    var candidates := OfKind(entries, CANDIDATE);
    if candidates != [] { assert candidates[0] in candidates; }
  }

  // Entries that say what they are of, under an authority that goes with their kind, in ascending order, of
  // which one is the Goal, one the Candidate if there is any, and the criteria are of the revision.
  ghost predicate ListsWell(b: Base, entries: seq<ManifestEntry>) {
    && (forall e | e in entries :: IsSaid(e.sourceRef) && IsSaid(e.sourceRevision) && e.kind in KindsOf(e.authority))
    && Ascends(entries, ManifestKey) && IsOnly(entries, GOAL, b.goalId, b.goalRevision) && BindsCandidate(b, entries)
    && (forall e | e in entries && e.kind == SUCCESS_CRITERION :: e.sourceRevision == b.goalRevision)
  }

  // Omissions that say why, in ascending order, of sources that are all different.
  ghost predicate OmitsWell(omissions: seq<Omission>) {
    && (forall o | o in omissions :: IsSaid(o.sourceRef) && IsSaid(o.selectionRule) && IsSaid(o.reason))
    && Ascends(omissions, OmissionKey)
    && (forall i, j | 0 <= i < j < |omissions| :: omissions[i].sourceRef != omissions[j].sourceRef)
  }

  lemma {:induction false} ListsExactly(b: Base, entries: seq<ManifestEntry>)
    ensures ListsWell(b, entries) <==>
      (forall e | e in entries :: EntryFits(e)) && StrictlyOrdered(entries, ManifestKey) && BindingsFit(b, entries)
  {
    AscendsExactly(entries, ManifestKey);
    GoalIs(b, entries);
    CandidateIs(b, entries);
    EntriesAre(entries);
  }

  lemma {:induction false} OmitsExactly(omissions: seq<Omission>)
    ensures OmitsWell(omissions) <==>
      (forall o | o in omissions :: OmissionFits(o)) && StrictlyOrdered(omissions, OmissionKey) && DistinctBy(omissions, SourceOf)
  {
    AscendsExactly(omissions, OmissionKey);
    OmissionsAre(omissions);
    assert DistinctBy(omissions, SourceOf) <==> forall i, j | 0 <= i < j < |omissions| :: omissions[i].sourceRef != omissions[j].sourceRef;
  }

  // A manifest is valid exactly if it lists well, omits well, and omits nothing that it lists.
  lemma {:induction false} ManifestExactly(m: Manifest)
    ensures ManifestInv(m) <==>
      && ListsWell(m.base, m.entries) && OmitsWell(m.omissionDecisions)
      && forall e, o | e in m.entries && o in m.omissionDecisions :: e.sourceRef != o.sourceRef
  {
    ListsExactly(m.base, m.entries);
    OmitsExactly(m.omissionDecisions);
    ConflictsAre(m.entries, m.omissionDecisions);
  }

  lemma {:induction false} EntriesAre(entries: seq<ManifestEntry>)
    ensures (forall e | e in entries :: EntryFits(e)) <==>
      forall e | e in entries :: IsSaid(e.sourceRef) && IsSaid(e.sourceRevision) && e.kind in KindsOf(e.authority)
  {
    forall e: ManifestEntry ensures EntryFits(e) <==> IsSaid(e.sourceRef) && IsSaid(e.sourceRevision) && e.kind in KindsOf(e.authority) {
      TrimKeeps(e.sourceRef);
      TrimKeeps(e.sourceRevision);
      AuthoritiesExactly(e.kind, e.authority);
    }
  }

  lemma {:induction false} OmissionsAre(omissions: seq<Omission>)
    ensures (forall o | o in omissions :: OmissionFits(o)) <==>
      forall o | o in omissions :: IsSaid(o.sourceRef) && IsSaid(o.selectionRule) && IsSaid(o.reason)
  {
    forall o: Omission ensures OmissionFits(o) <==> IsSaid(o.sourceRef) && IsSaid(o.selectionRule) && IsSaid(o.reason) {
      TrimKeeps(o.sourceRef);
      TrimKeeps(o.selectionRule);
      TrimKeeps(o.reason);
    }
  }

  lemma {:induction false} ConflictsAre(entries: seq<ManifestEntry>, omissions: seq<Omission>)
    ensures !Conflicts(ManifestRefs(entries), omissions) <==> forall e, o | e in entries && o in omissions :: e.sourceRef != o.sourceRef
  {
    if !Conflicts(ManifestRefs(entries), omissions) {
      forall e, o | e in entries && o in omissions ensures e.sourceRef != o.sourceRef { NoConflict(ManifestRefs(entries), omissions, o); }
    }
    if Conflicts(ManifestRefs(entries), omissions) {
      var k :| 0 <= k < |omissions| && omissions[k].sourceRef in ManifestRefs(entries);
      assert omissions[k] in omissions;
    }
  }

  // ---- What compiles ----

  // Each listed once, saying what it is of, under an authority that goes with its kind.
  ghost predicate ListsOnce(raw: seq<ManifestEntry>) {
    && (forall e | e in raw :: IsSaid(e.sourceRef) && IsSaid(e.sourceRevision) && e.kind in KindsOf(e.authority))
    && DistinctBy(raw, ManifestKey)
  }

  // Omissions that say why, with keys and sources that are all different.
  ghost predicate OmitsOnce(omissions: seq<Omission>) {
    && (forall o | o in omissions :: IsSaid(o.sourceRef) && IsSaid(o.selectionRule) && IsSaid(o.reason))
    && DistinctBy(omissions, OmissionKey) && DistinctBy(omissions, SourceOf)
  }

  ghost predicate OmitsNone(raw: seq<ManifestEntry>, omissions: seq<Omission>) {
    forall e, o | e in raw && o in omissions :: e.sourceRef != o.sourceRef
  }

  // A compilation succeeds exactly if the entries may be selected and differ in their keys, what is listed and
  // what is omitted is given once each and is not the same, and the package and the manifest fit.
  lemma {:induction false} CompilesExactly(b: Base, entries: seq<Entry>, omissions: seq<Omission>, h: Host)
    requires forall e | e in b.repairEntries :: IsForeign(e)
    ensures var p := Package(b, SortBy(entries, EntryKey));
      Compile(b, entries, omissions, h).Some? <==>
        && (forall e | e in entries :: Selectable(e)) && DistinctBy(entries, EntryKey)
        && ListsOnce(RawEntries(p, h)) && OmitsOnce(omissions) && OmitsNone(RawEntries(p, h), omissions)
        && h.packageFits(p)
        && h.manifestFits(Manifest(b, DeriveEntries(p, h), SortBy(omissions, OmissionKey), h.packageDigest(p)))
  {
    var p, omitted := Package(b, SortBy(entries, EntryKey)), SortBy(omissions, OmissionKey);
    if CanonicalEntries(entries).Some? {
      SortedAlike(entries, EntryKey, EntryKey);
      if OmitsNone(RawEntries(p, h), omissions) { IncludedIsListed(p, omissions, h); }
      DerivedIsValid(p, omissions, h);
    }
  }

  lemma {:induction false} DerivedIsValid(p: Package, omissions: seq<Omission>, h: Host)
    requires (forall e | e in p.selectedEntries :: Selectable(e)) && forall e | e in p.base.repairEntries :: IsForeign(e)
    ensures ManifestInv(Manifest(p.base, DeriveEntries(p, h), SortBy(omissions, OmissionKey), h.packageDigest(p))) <==>
      ListsOnce(RawEntries(p, h)) && OmitsOnce(omissions) && OmitsNone(RawEntries(p, h), omissions)
  {
    var raw := RawEntries(p, h);
    DerivedBindingsFit(p, h);
    EntriesAre(DeriveEntries(p, h));
    SortedAlike(raw, ManifestKey, ManifestKey);
    StrictlySortedExactly(raw, ManifestKey);
    OmissionsSorted(omissions);
    ConflictsAre(DeriveEntries(p, h), SortBy(omissions, OmissionKey));
    SortedAlike(omissions, OmissionKey, OmissionKey);
  }

  lemma {:induction false} OmissionsSorted(omissions: seq<Omission>)
    ensures OmitsWell(SortBy(omissions, OmissionKey)) <==> OmitsOnce(omissions)
    ensures var s := SortBy(omissions, OmissionKey);
      OmitsWell(s) <==> (forall o | o in s :: OmissionFits(o)) && StrictlyOrdered(s, OmissionKey) && DistinctBy(s, SourceOf)
  {
    OmitsExactly(SortBy(omissions, OmissionKey));
    OmissionsAre(SortBy(omissions, OmissionKey));
    SortedAlike(omissions, OmissionKey, OmissionKey);
    SortedAlike(omissions, OmissionKey, SourceOf);
    StrictlySortedExactly(omissions, OmissionKey);
  }

  // What is looked at before the package is decoded is listed in the end.
  lemma {:induction false} IncludedIsListed(p: Package, omissions: seq<Omission>, h: Host)
    requires OmitsNone(RawEntries(p, h), omissions)
    ensures !Conflicts(Included(p.base, p.selectedEntries), SortBy(omissions, OmissionKey))
  {
    var sorted := SortBy(omissions, OmissionKey);
    SortedAlike(omissions, OmissionKey, OmissionKey);
    forall k | 0 <= k < |sorted| ensures sorted[k].sourceRef !in Included(p.base, p.selectedEntries) {
      assert sorted[k] in omissions;
      if sorted[k].sourceRef in Included(p.base, p.selectedEntries) {
        var e := ListedUnder(p, h, sorted[k].sourceRef);
      }
    }
  }

  lemma {:induction false} ListedUnder(p: Package, h: Host, source: Text) returns (e: ManifestEntry)
    requires source in Included(p.base, p.selectedEntries)
    ensures e in RawEntries(p, h) && e.sourceRef == source
  {
    var b := p.base;
    e := GoalEntry(b, h);
    if source in b.criterionIds {
      var k :| 0 <= k < |b.criterionIds| && b.criterionIds[k] == source;
      e := CriterionEntries(b, h)[k];
    } else if source in RefsOf(p.selectedEntries) {
      var k :| 0 <= k < |p.selectedEntries| && p.selectedEntries[k].sourceRef == source;
      e := SelectedEntries(p, h)[k];
      assert e in SelectedEntries(p, h);
    } else if source != b.goalId {
      e := CandidateEntries(b, h)[0];
    }
  }
}
