/**
The index readiness manifest: how it is generated from the tracker and the index
registry, and the semantic validator that is then run on it.  Slices are numbered;
statuses are already normalised; the outcome of file, artifact and token checks is
an input.
 */
module IndexManifest {
  import opened Ordering
  import opened IndexFamilies

  const COMPLETE_WORDS := {"complete", "completed", "done", "closed", "complete_move_ready"}
  const PENDING_WORDS := {"pending", "planned"}

  const SUCCESSORS: seq<nat> := [31, 32, 33, 34, 35, 36, 37, 38, 39, 40, 41, 42]
  const INTEGRATED: seq<nat> := [90, 91, 92, 93, 94, 95]
  const BLOCKING: seq<nat> := [31, 32, 34, 35, 36, 37, 39, 40, 41, 42]

  type Tracker = map<nat, string>

  function StatusOf(t: Tracker, slice: nat): string {
    if slice in t then t[slice] else ""
  }

  predicate Done(t: Tracker, slice: nat) { StatusOf(t, slice) in COMPLETE_WORDS }

  predicate Waiting(t: Tracker, slice: nat) { StatusOf(t, slice) in PENDING_WORDS }

  datatype State = Complete | Pending | Blocked | NotApplicable

  function WhenDone(done: bool): State {
    if done then Complete else Pending
  }

  // ----- one family -----------------------------------------------------------------

  predicate RuntimeBlocked(d: Descriptor) { d.persistence in {ReferenceClass, PolicyClass} }

  function StorageState(d: Descriptor, t: Tracker): State {
    if RuntimeBlocked(d) then Blocked else if d.persistence == MemoryOnly then NotApplicable else WhenDone(Done(t, 42))
  }

  function RecoveryState(d: Descriptor, t: Tracker): State {
    if d.persistence in {ReferenceClass, PolicyClass, MemoryOnly}
    then (if d.persistence == MemoryOnly then NotApplicable else Blocked)
    else WhenDone(Done(t, 42))
  }

  function SecurityState(d: Descriptor, t: Tracker): State {
    if RuntimeBlocked(d) then Blocked else WhenDone(Done(t, 37))
  }

  function EvidenceState(d: Descriptor, done: bool): State {
    if RuntimeBlocked(d) then Blocked else WhenDone(done)
  }

  function UniqueState(d: Descriptor, t: Tracker): State {
    if d.family != UniqueBtree then NotApplicable else WhenDone(Done(t, 34))
  }

  function SpecializedState(d: Descriptor, t: Tracker): State {
    if Specialized(d.family) && Done(t, 39) then Complete
    else if RuntimeBlocked(d) then Blocked
    else if !Specialized(d.family) then NotApplicable
    else Pending
  }

  datatype Blocker = PendingSlice(slice: nat) | NonRuntimeFamily | TemporaryOnly | NeedsManifestGate

  /** Does a pending slice stand in the way of this family? */
  predicate Concerns(slice: nat, f: Family) {
    && (slice == 34 ==> f == UniqueBtree)
    && (slice == 35 ==> f == Hash)
    && (slice == 39 ==> Specialized(f))
  }

  function PendingBlockers(slices: seq<nat>, d: Descriptor, t: Tracker): seq<Blocker> {
    if slices == [] then []
    else
      var n := |slices| - 1;
      var before := PendingBlockers(slices[..n], d, t);
      if Concerns(slices[n], d.family) && Waiting(t, slices[n]) then before + [PendingSlice(slices[n])] else before
  }

  function WithoutProviderBlockers(bs: seq<Blocker>): seq<Blocker> {
    if bs == [] then []
    else
      var n := |bs| - 1;
      var before := WithoutProviderBlockers(bs[..n]);
      if bs[n] in {PendingSlice(31), PendingSlice(32)} then before else before + [bs[n]]
  }

  function Blockers(d: Descriptor, t: Tracker): seq<Blocker> {
    var pending := PendingBlockers(BLOCKING, d, t);
    if RuntimeBlocked(d) then [NonRuntimeFamily]
    else if d.persistence == MemoryOnly then [TemporaryOnly] + WithoutProviderBlockers(pending)
    else if pending == [] then [NeedsManifestGate]
    else pending
  }

  /** The loop that fills `blockers`, and the rewriting after it. */
  method BuildBlockers(d: Descriptor, t: Tracker) returns (blockers: seq<Blocker>)
    ensures blockers == Blockers(d, t)
  {
    hide Concerns, Waiting;
    blockers := [];
    for k := 0 to |BLOCKING|
      invariant blockers == PendingBlockers(BLOCKING[..k], d, t)
    {
      assert BLOCKING[..k + 1][..k] == BLOCKING[..k];
      if Concerns(BLOCKING[k], d.family) && Waiting(t, BLOCKING[k]) {
        blockers := blockers + [PendingSlice(BLOCKING[k])];
      }
    }
    assert BLOCKING[..|BLOCKING|] == BLOCKING;
    if RuntimeBlocked(d) {
      blockers := [NonRuntimeFamily];
    } else if d.persistence == MemoryOnly {
      blockers := [TemporaryOnly] + WithoutProviderBlockers(blockers);
    }
    if blockers == [] && !RuntimeBlocked(d) {
      blockers := [NeedsManifestGate];
    }
  }

  lemma {:induction false} PendingBlockersAre(slices: seq<nat>, d: Descriptor, t: Tracker, b: Blocker)
    ensures b in PendingBlockers(slices, d, t) <==>
            b.PendingSlice? && b.slice in slices && Concerns(b.slice, d.family) && Waiting(t, b.slice)
  {
    hide Concerns, Waiting;
    if slices != [] {
      var n := |slices| - 1;
      PendingBlockersAre(slices[..n], d, t, b);
      assert slices == slices[..n] + [slices[n]];
    }
  }

  ghost predicate IsPending(t: Tracker, slice: nat) {
    slice in t && t[slice] in {"pending", "planned"}
  }

  /** Slice by slice, what holds a family up. */
  ghost predicate HeldUpBy(f: Family, t: Tracker, slice: nat) {
    && IsPending(t, slice)
    && (|| slice in {31, 32, 36, 37, 40, 41, 42}
        || (slice == 34 && f == UniqueBtree)
        || (slice == 35 && f == Hash)
        || (slice == 39 && f in {Bitmap, Bloom, DocumentPath, Graph, FullText, Gin, Inverted, Ngram, SparseWand,
                                 VectorExact, VectorHnsw, VectorIvf, Spatial, Rtree, Gist, Spgist, BrinZone,
                                 ColumnarZone}))
  }

  lemma HeldUpIff(f: Family, t: Tracker, slice: nat)
    ensures slice in BLOCKING && Concerns(slice, f) && Waiting(t, slice) <==> HeldUpBy(f, t, slice)
  {
    SpecializedAre(f);
    WaitingIff(t, slice);
    hide Specialized, Waiting, IsPending;
    assert slice in BLOCKING <==> slice in {31, 32, 34, 35, 36, 37, 39, 40, 41, 42} by {
      BlockingAre(slice);
    }
  }

  lemma BlockingAre(slice: nat)
    ensures slice in BLOCKING <==> slice in {31, 32, 34, 35, 36, 37, 39, 40, 41, 42}
  {
  }

  lemma SpecializedAre(f: Family)
    ensures Specialized(f) <==>
            f in {Bitmap, Bloom, DocumentPath, Graph, FullText, Gin, Inverted, Ngram, SparseWand, VectorExact,
                  VectorHnsw, VectorIvf, Spatial, Rtree, Gist, Spgist, BrinZone, ColumnarZone}
  {
  }

  lemma WaitingIff(t: Tracker, slice: nat)
    ensures Waiting(t, slice) <==> IsPending(t, slice)
  {
    assert |"pending"| > 0 && |"planned"| > 0;
  }

  /** The blockers name slices in increasing order. */
  ghost predicate InOrder(bs: seq<Blocker>) {
    && (forall b <- bs :: b.PendingSlice?)
    && forall i, j :: 0 <= i < j < |bs| ==> bs[i].slice < bs[j].slice
  }

  lemma {:induction false} PendingInOrder(slices: seq<nat>, d: Descriptor, t: Tracker)
    requires forall i, j :: 0 <= i < j < |slices| ==> slices[i] < slices[j]
    ensures InOrder(PendingBlockers(slices, d, t))
    ensures forall b <- PendingBlockers(slices, d, t) :: b.slice in slices
  {
    hide Concerns, Waiting;
    if slices != [] {
      PendingInOrder(slices[..|slices| - 1], d, t);
    }
  }

  lemma {:induction false} WithoutProviderAre(bs: seq<Blocker>)
    requires InOrder(bs)
    ensures InOrder(WithoutProviderBlockers(bs))
    ensures forall b :: b in WithoutProviderBlockers(bs) <==> b in bs && b.slice !in {31, 32}
  {
    if bs != [] {
      var n := |bs| - 1;
      assert bs == bs[..n] + [bs[n]];
      WithoutProviderAre(bs[..n]);
      var before := WithoutProviderBlockers(bs[..n]);
      assert forall b <- before :: b.slice < bs[n].slice;
    }
  }

  /**
  The blockers of a family: of a non-runtime one, that it is one; of a memory-only one, that
  it is temporary and what holds it up but for the provider and recovery slices; of any other,
  what holds it up, and the manifest gate when nothing does.
   */
  lemma BlockersAre(d: Descriptor, t: Tracker)
    ensures d.persistence in {ReferenceClass, PolicyClass} ==> Blockers(d, t) == [NonRuntimeFamily]
    ensures d.persistence == MemoryOnly ==>
              && Blockers(d, t) != [] && Blockers(d, t)[0] == TemporaryOnly && InOrder(Blockers(d, t)[1..])
              && forall s :: PendingSlice(s) in Blockers(d, t) <==> HeldUpBy(d.family, t, s) && s !in {31, 32}
    ensures d.persistence !in {ReferenceClass, PolicyClass, MemoryOnly} ==>
              && (forall s :: PendingSlice(s) in Blockers(d, t) <==> HeldUpBy(d.family, t, s))
              && (if forall s :: !HeldUpBy(d.family, t, s) then Blockers(d, t) == [NeedsManifestGate]
                  else InOrder(Blockers(d, t)))
  {
    hide Concerns, Waiting, PendingBlockers, HeldUpBy, WithoutProviderBlockers;
    var pending := PendingBlockers(BLOCKING, d, t);
    BlockingIncreases();
    PendingInOrder(BLOCKING, d, t);
    WithoutProviderAre(pending);
    forall s
      ensures PendingSlice(s) in pending <==> HeldUpBy(d.family, t, s)
    {
      PendingBlockersAre(BLOCKING, d, t, PendingSlice(s));
      HeldUpIff(d.family, t, s);
    }
    if pending != [] {
      assert PendingSlice(pending[0].slice) in pending;
    }
    if d.persistence == MemoryOnly {
      var rest := WithoutProviderBlockers(pending);
      assert Blockers(d, t)[1..] == rest;
      assert forall s :: PendingSlice(s) in Blockers(d, t) <==> PendingSlice(s) in rest;
    }
  }

  lemma BlockingIncreases()
    ensures forall i, j :: 0 <= i < j < |BLOCKING| ==> BLOCKING[i] < BLOCKING[j]
  {
  }

  /** No family is ever without a blocker. */
  lemma AlwaysBlocked(d: Descriptor, t: Tracker)
    ensures Blockers(d, t) != []
  {
  }

  // ----- the manifest ------------------------------------------------------------------

  /** What a manifest must not claim; `Docs` stands for `docs_alone_runtime_proof`. */
  datatype Flag =
    | TransactionFinality | Visibility | AuthorizationSecurity | Security | Recovery | Parser | Reference | Wal
    | Benchmark | OptimizerPlan | OptimizerPlanFinality | IndexFinality | RowTruth | FinalRow | ResultFinality
    | LocalCluster | Cluster | ClusterAction | AgentAction | HashOrderedRange | StaticRegistryReady | MgaFinality
    | Docs | Closure39Claimed | Metrics40Claimed | Crash41Claimed | Drift42Claimed | AllIndexReadinessClaimed
    | ReferenceDominanceClaimed | EnterpriseReadinessClaimed

  type Flags = map<Flag, bool>

  function AllFalse(names: set<Flag>): Flags {
    map n | n in names :: false
  }

  /** The flags that the generator writes: in a row's boundary and classification, the header and the drift gate. */
  const CLAIM_BOUNDARY := {
    TransactionFinality, Visibility, AuthorizationSecurity, Security, Recovery, Parser, Reference, Wal, Benchmark,
    OptimizerPlan, OptimizerPlanFinality, IndexFinality, RowTruth, FinalRow, ResultFinality, LocalCluster, Cluster,
    ClusterAction, AgentAction}
  const CLASSIFICATION_FLAGS := {
    HashOrderedRange, RowTruth, FinalRow, Closure39Claimed, Metrics40Claimed, Crash41Claimed, Drift42Claimed,
    AllIndexReadinessClaimed, ReferenceDominanceClaimed, EnterpriseReadinessClaimed}
  const AUTHORITY_BOUNDARY := {
    Docs, StaticRegistryReady, MgaFinality, TransactionFinality, Visibility, AuthorizationSecurity, Recovery, Parser,
    Reference, Wal, Benchmark, OptimizerPlan, OptimizerPlanFinality, IndexFinality, RowTruth, FinalRow,
    ResultFinality, LocalCluster, Cluster, ClusterAction, AgentAction}
  const DRIFT_FLAGS := {ReferenceDominanceClaimed, AllIndexReadinessClaimed, EnterpriseReadinessClaimed}

  datatype RowField =
    | FamilyId | FamilyName | EnumName | ProviderClassification | PersistenceField | PersistentField
    | RuntimeAvailability | DescriptorField | RouteCapability | FamilyClassification | SpecializedStatus
    | StorageStatus | RecoveryStatus | UniqueStatus | SecurityStatus | MetricStatus | BenchmarkStatus | ScaleStatus
    | CrashStatus | CorruptionStatus | CleanupStatus | DriftStatus | ClaimBoundary | EnterpriseReady
    | EnterpriseReadyBlockers | AuditorTimestamp | GenerationMetadata

  datatype RouteField =
    | SourceField | RouteCount | SupportedRoutes | UnsupportedRoutes | AnyRead | AnyWrite | AnyBulkBuild | AnyReopen
    | AnyOrderedRange | AnyEquality | CandidateSet | ApproximateSource | ExactRecheck | MgaRecheck | SecurityRecheck
    | SummaryPruneField | NegativePrune | RankingOrSeedField | ExactFallback | RowTruthField | FinalRowField | RouteRows

  /** The fields that the generator writes: the evidence states are spread into the row. */
  const EVIDENCE_FIELDS := {
    MetricStatus, BenchmarkStatus, ScaleStatus, CrashStatus, CorruptionStatus, CleanupStatus}
  const ROW_FIELDS := {
    FamilyId, FamilyName, EnumName, ProviderClassification, PersistenceField, PersistentField, RuntimeAvailability,
    DescriptorField, RouteCapability, FamilyClassification, SpecializedStatus, StorageStatus, RecoveryStatus,
    UniqueStatus, SecurityStatus, DriftStatus, ClaimBoundary, EnterpriseReady, EnterpriseReadyBlockers,
    AuditorTimestamp, GenerationMetadata}
  const ROUTE_FIELDS := {
    SourceField, RouteCount, SupportedRoutes, UnsupportedRoutes, AnyRead, AnyWrite, AnyBulkBuild, AnyReopen,
    AnyOrderedRange, AnyEquality, CandidateSet, ApproximateSource, ExactRecheck, MgaRecheck, SecurityRecheck,
    SummaryPruneField, NegativePrune, RankingOrSeedField, ExactFallback, RowTruthField, FinalRowField, RouteRows}

  datatype Classification = Classification(
    semantic: SemanticClass, bloomOnly: bool, summaryOnly: bool, rerank: bool, fallback: bool, hashEqualityOnly: bool,
    candidateOnly: bool, proof: State, flags: Flags)

  function Classify(d: Descriptor, t: Tracker): Classification {
    Classification(SemanticClassOf(d.family), d.family == Bloom, SummaryPrune(d.family), NeedsRerank(d.family),
                   NeedsFallback(d.family), d.family == Hash, Candidate(d.family), WhenDone(Done(t, 38)),
                   AllFalse(CLASSIFICATION_FLAGS))
  }

  datatype FamilyRow = FamilyRow(
    fields: set<RowField>, routeFields: set<RouteField>,
    id: string, family: Family, provider: Provider, persistence: Persistence, persistent: bool,
    runtimeAvailable: bool, routes: RouteSummary, classification: Classification, specialized: State, unique: State,
    storage: State, recovery: State, security: State, metric: State, benchmark: State, scale: State, crash: State,
    corruption: State, cleanup: State, drift: State, boundary: Flags, enterpriseReady: bool, blockers: seq<Blocker>)

  /** `build_family_row`. */
  function BuildFamilyRow(d: Descriptor, c: Capability, t: Tracker, metrics: bool, crash: bool, drift: bool)
    : FamilyRow
  {
    FamilyRow(
      ROW_FIELDS + EVIDENCE_FIELDS, ROUTE_FIELDS,
      d.id, d.family, ProviderOf(d), d.persistence, d.persistence == Persistent, c.runtimeAvailable,
      Summarize(RouteStates(d.family, c)), Classify(d, t), SpecializedState(d, t), UniqueState(d, t),
      StorageState(d, t), RecoveryState(d, t), SecurityState(d, t), EvidenceState(d, metrics),
      EvidenceState(d, drift), EvidenceState(d, false), EvidenceState(d, crash), EvidenceState(d, crash),
      EvidenceState(d, crash), EvidenceState(d, drift), AllFalse(CLAIM_BOUNDARY), false, Blockers(d, t))
  }

  datatype SliceStatus = SliceStatus(slice: nat, status: string)
  datatype Drift = Drift(
    state: State, smokeOnly: bool, missingFamilies: nat, staleAllowed: bool, claims: Flags, cluster: string)
  /** Texts that the source names once and uses on both sides. */
  datatype Constant = AuthorityBoundaryToken | Scope042Pending | Scope042Complete

  datatype Schema = Schema(id: string, version: nat, kind: string, searchKey: string)
  datatype Policy = Policy(cluster: string, classificationScope: string, driftScope: Constant)

  datatype Manifest = Manifest(
    schema: Schema, slices: seq<nat>, pending: seq<nat>, successors: seq<SliceStatus>, integrated: seq<SliceStatus>,
    commit: string, branch: string, digest: string, generatedAt: string, generatedBy: string, boundaryToken: Constant,
    authority: Flags, policy: Policy, drift: Drift, familyCount: nat, families: seq<FamilyRow>,
    auditorTimestamp: string)

  function DriftScope(done: bool): Constant {
    if done then Scope042Complete else Scope042Pending
  }

  function WrittenSchema(): Schema {
    Schema("scratchbird.ceic.evidence_manifest", 1, "index_readiness_manifest", "CEIC_030_INDEX_READINESS_MANIFEST")
  }

  function WrittenPolicy(done: bool): Policy {
    Policy("blocked_external_provider_only",
           "lossy_candidate_pruning_family_classification_only_no_provider_metrics_crash_drift_readiness_claim",
           DriftScope(done))
  }

  function WrittenDrift(done: bool): Drift {
    Drift(WhenDone(done), false, 0, false, AllFalse(DRIFT_FLAGS), "blocked_external_provider_only")
  }

  const GENERATED_BY := "project/tools/ceic_index_readiness_manifest.py#CEIC_030_INDEX_READINESS_MANIFEST_TOOL"

  datatype Registered = Registered(descriptor: Descriptor, capability: Capability)

  /** What the files, artifact rows and tokens that a step looks at allow. */
  datatype Checks = Checks(
    plan: bool, sources: bool, metrics: bool, crash: bool, integrated: bool, proofs: bool, drift: bool)

  datatype Inputs = Inputs(
    tracker: Tracker, acceptance: map<nat, bool>, registry: seq<Registered>, checks: Checks,
    commit: string, branch: string, generatedAt: string, digest: string)

  datatype Built = Refused | Built(manifest: Manifest)

  function StatusList(slices: seq<nat>, t: Tracker): seq<SliceStatus> {
    if slices == [] then []
    else StatusList(slices[..|slices| - 1], t) + [SliceStatus(slices[|slices| - 1], StatusOf(t, slices[|slices| - 1]))]
  }

  function PendingAmong(slices: seq<nat>, t: Tracker): seq<nat> {
    if slices == [] then []
    else
      var n := |slices| - 1;
      var before := PendingAmong(slices[..n], t);
      if Waiting(t, slices[n]) then before + [slices[n]] else before
  }

  /** The plan is in order: every tracked slice is complete or pending. */
  predicate PlanOk(i: Inputs) {
    && (Done(i.tracker, 30) || Waiting(i.tracker, 30))
    && (forall s <- SUCCESSORS :: Done(i.tracker, s) || Waiting(i.tracker, s))
    && i.checks.plan
  }

  /** The drift gate may be called complete: integrated and index proofs are complete and their evidence is there. */
  predicate DriftOk(i: Inputs) {
    && (forall s <- INTEGRATED :: Done(i.tracker, s) && s in i.acceptance && i.acceptance[s])
    && i.checks.integrated
    && (forall s <- SUCCESSORS :: s != 42 ==> Done(i.tracker, s))
    && i.checks.proofs && i.checks.drift
  }

  function OrElse(s: string, fallback: string): string {
    if s == "" then fallback else s
  }

  function RowOf(e: Registered, t: Tracker): FamilyRow {
    BuildFamilyRow(e.descriptor, e.capability, t, Done(t, 40), Done(t, 41), Done(t, 42))
  }

  function BuildRows(registry: seq<Registered>, t: Tracker): (r: seq<FamilyRow>)
    ensures |r| == |registry| && forall k :: 0 <= k < |r| ==> r[k] == RowOf(registry[k], t)
  {
    seq(|registry|, k requires 0 <= k < |registry| => RowOf(registry[k], t))
  }

  /** Every step of the build finds what it needs. */
  predicate Buildable(i: Inputs) {
    && PlanOk(i) && i.checks.sources && i.registry != []
    && (Done(i.tracker, 40) ==> i.checks.metrics)
    && (Done(i.tracker, 41) ==> i.checks.crash)
    && (Done(i.tracker, 42) ==> DriftOk(i))
  }

  function ManifestOf(i: Inputs): Manifest {
    var t := i.tracker;
    var at := OrElse(i.generatedAt, "1970-01-01T00:00:00+00:00");
    Manifest(
      WrittenSchema(), if Done(t, 42) then [30, 42] else [30], PendingAmong(SUCCESSORS, t),
      StatusList(SUCCESSORS, t), StatusList(INTEGRATED, t), OrElse(i.commit, "unknown"),
      OrElse(i.branch, "unknown"), i.digest, at, GENERATED_BY, AuthorityBoundaryToken,
      AllFalse(AUTHORITY_BOUNDARY), WrittenPolicy(Done(t, 42)), WrittenDrift(Done(t, 42)), |i.registry|,
      BuildRows(i.registry, t), at)
  }

  /** `build_manifest`. */
  function BuildManifest(i: Inputs): Built {
    if Buildable(i) then Built(ManifestOf(i)) else Refused
  }

  // ----- the validator -------------------------------------------------------------------

  datatype Complaint = Complaint(family: string, about: string)

  function When(c: bool, family: string, about: string): seq<Complaint> {
    if c then [Complaint(family, about)] else []
  }

  /** `boundary.get(key) is not False` for some required key. */
  predicate NotAllFalse(flags: Flags, names: set<Flag>) {
    exists n <- names :: n !in flags || flags[n]
  }

  /** What the validator looks for, from its own lists. */
  const REQUIRED_FIELDS := {
    FamilyId, FamilyName, ProviderClassification, PersistentField, RuntimeAvailability, RouteCapability,
    FamilyClassification, StorageStatus, RecoveryStatus, SecurityStatus, MetricStatus, BenchmarkStatus, ScaleStatus,
    CrashStatus, CorruptionStatus, CleanupStatus, DriftStatus, ClaimBoundary, AuditorTimestamp, GenerationMetadata,
    EnterpriseReady}
  const REQUIRED_ROUTE_FIELDS := {
    SupportedRoutes, UnsupportedRoutes, ExactRecheck, MgaRecheck, SecurityRecheck, ExactFallback, NegativePrune,
    SummaryPruneField, RowTruthField, FinalRowField, RouteRows}
  const FALSE_IN_BOUNDARY := {
    TransactionFinality, Visibility, AuthorizationSecurity, Security, Recovery, Parser, Reference, Wal, Benchmark,
    OptimizerPlan, OptimizerPlanFinality, IndexFinality, RowTruth, FinalRow, ResultFinality, LocalCluster, Cluster,
    ClusterAction, AgentAction}
  const FALSE_IN_CLASSIFICATION := {
    RowTruth, FinalRow, Closure39Claimed, Metrics40Claimed, Crash41Claimed, Drift42Claimed, AllIndexReadinessClaimed,
    ReferenceDominanceClaimed, EnterpriseReadinessClaimed}
  const FALSE_IN_DRIFT := {ReferenceDominanceClaimed, AllIndexReadinessClaimed, EnterpriseReadinessClaimed}

  /** Does the flag's key end in `_authority`? */
  predicate NamesAuthority(n: Flag) {
    n !in {Docs, Closure39Claimed, Metrics40Claimed, Crash41Claimed, Drift42Claimed, AllIndexReadinessClaimed,
           ReferenceDominanceClaimed, EnterpriseReadinessClaimed}
  }

  /** The complaints about fields that a row lacks. */
  function FieldErrors(r: FamilyRow): seq<Complaint> {
    When(!(REQUIRED_FIELDS <= r.fields), r.id, "missing fields") +
    When(!(REQUIRED_ROUTE_FIELDS <= r.routeFields), r.id, "route_capability_summary")
  }

  /** The status in a list of slice statuses: the last one given. */
  function Listed(statuses: seq<SliceStatus>, slice: nat): string {
    if statuses == [] then ""
    else
      var n := |statuses| - 1;
      if statuses[n].slice == slice then statuses[n].status else Listed(statuses[..n], slice)
  }

  /** The complaints about the proof states of a row. */
  function StateErrors(r: FamilyRow, done: bool): seq<Complaint> {
    When(r.persistent && r.scale == Complete, r.id, "scale_evidence_status") +
    When(r.persistent && done && r.benchmark != Complete, r.id, "benchmark_evidence_status") +
    When(r.persistent && done && r.drift != Complete, r.id, "readiness_drift_gate_status") +
    When(r.persistent && done && r.security != Complete, r.id, "security_exact_recheck_proof_status") +
    When(r.persistent && done && r.metric != Complete, r.id, "metric_producer_status") +
    When(r.persistent && done && r.crash != Complete, r.id, "crash_evidence_status") +
    When(r.persistent && done && r.corruption != Complete, r.id, "corruption_evidence_status") +
    When(r.persistent && done && r.cleanup != Complete, r.id, "cleanup_evidence_status") +
    When(r.persistence in {ReferenceClass, PolicyClass} && r.drift != Blocked, r.id, "drift gate must be blocked") +
    When(done && MustStore(r.persistence) && r.storage != Complete, r.id, "storage") +
    When(done && MustStore(r.persistence) && r.recovery != Complete, r.id, "recovery")
  }

  predicate MustStore(p: Persistence) { p !in {ReferenceClass, PolicyClass, MemoryOnly} }

  /** The complaints about the claims of a row and about its classification. */
  function ClassErrors(r: FamilyRow): seq<Complaint> {
    var c := r.classification;
    When(r.enterpriseReady, r.id, "enterprise_ready") +
    When(NotAllFalse(r.boundary, FALSE_IN_BOUNDARY), r.id, "boundary") +
    When(NotAllFalse(c.flags, FALSE_IN_CLASSIFICATION), r.id, "classification") +
    When(r.family == Bloom &&
         (c.semantic != BloomNegativePrune || !c.bloomOnly || r.routes.candidates), r.id, "bloom") +
    When(r.family in {BrinZone, ColumnarZone} &&
         (c.semantic != SummarySegmentPrune || !c.summaryOnly || r.routes.candidates), r.id, "zone") +
    When(r.family in {VectorHnsw, VectorIvf, SparseWand} && !(c.rerank && c.fallback), r.id, "rerank") +
    When(r.family == Hash && (!c.hashEqualityOnly || r.routes.orderedRange), r.id, "hash")
  }

  /** The complaints about the two families that must not run. */
  function NonRuntimeErrors(r: FamilyRow): seq<Complaint> {
    When(r.family == ReferenceEmulated &&
         (r.provider != ReferenceProvider || r.runtimeAvailable || r.storage != Blocked), r.id, "reference_emulated") +
    When(r.family == PolicyBlocked &&
         (r.provider != PolicyProvider || r.runtimeAvailable || r.storage != Blocked), r.id, "policy_blocked")
  }

  function RowErrors(r: FamilyRow, done: bool): seq<Complaint> {
    FieldErrors(r) + StateErrors(r, done) + ClassErrors(r) + NonRuntimeErrors(r)
  }

  function AllRowErrors(rows: seq<FamilyRow>, done: bool): seq<Complaint> {
    if rows == [] then [] else AllRowErrors(rows[..|rows| - 1], done) + RowErrors(rows[|rows| - 1], done)
  }

  function IdsOf(rows: seq<FamilyRow>): seq<string> {
    seq(|rows|, k requires 0 <= k < |rows| => rows[k].id)
  }

  /** `validate_family_semantics`. */
  function FamilyErrors(m: Manifest): seq<Complaint> {
    if m.families == [] then [Complaint("", "families must be a non-empty list")]
    else
      When(!Distinct(IdsOf(m.families)), "", "families must be present exactly once") +
      When(m.familyCount != |m.families|, "", "family_count") +
      AllRowErrors(m.families, Listed(m.successors, 42) in COMPLETE_WORDS)
  }

  predicate SuccessorsOk(m: Manifest) {
    forall s <- SUCCESSORS :: Listed(m.successors, s) in COMPLETE_WORDS + PENDING_WORDS
  }

  function ListedPending(slices: seq<nat>, statuses: seq<SliceStatus>): seq<nat> {
    if slices == [] then []
    else
      var n := |slices| - 1;
      var before := ListedPending(slices[..n], statuses);
      if Listed(statuses, slices[n]) in PENDING_WORDS then before + [slices[n]] else before
  }

  function SchemaErrors(x: Schema): seq<Complaint> {
    When(x.id != "scratchbird.ceic.evidence_manifest", "", "schema_id") +
    When(x.version != 1, "", "schema_version") +
    When(x.kind != "index_readiness_manifest", "", "manifest_kind") +
    When(x.searchKey != "CEIC_030_INDEX_READINESS_MANIFEST", "", "search_key")
  }

  function PlanErrors(m: Manifest, done: bool): seq<Complaint> {
    When(!SuccessorsOk(m), "", "successor status") +
    When(m.pending != ListedPending(SUCCESSORS, m.successors), "", "future_index_slices_pending") +
    When(m.slices != if done then [30, 42] else [30], "", "slice_ids") +
    When(exists s <- INTEGRATED :: Listed(m.integrated, s) !in COMPLETE_WORDS, "", "integrated proof")
  }

  function MetadataErrors(m: Manifest): seq<Complaint> {
    When(m.commit == "", "", "source_commit") +
    When(m.branch == "", "", "source_branch") +
    When(m.digest == "", "", "source_evidence_digest") +
    When(m.generatedAt == "", "", "generated_at_utc") +
    When(m.generatedBy == "", "", "generated_by") +
    When(m.auditorTimestamp == "", "", "auditor timestamp") +
    When(m.boundaryToken != AuthorityBoundaryToken, "", "authority boundary token") +
    When(exists n <- m.authority :: NamesAuthority(n) && m.authority[n], "", "authority boundary")
  }

  function PolicyErrors(x: Policy, done: bool): seq<Complaint> {
    When(x.cluster != "blocked_external_provider_only", "", "cluster production") +
    When(x.classificationScope !=
         "lossy_candidate_pruning_family_classification_only_no_provider_metrics_crash_drift_readiness_claim",
         "", "CEIC-038 scope") +
    When(x.driftScope != DriftScope(done), "", "CEIC-042 scope")
  }

  function DriftErrors(x: Drift, done: bool): seq<Complaint> {
    When(x.state != WhenDone(done), "", "drift gate state") +
    When(x.smokeOnly, "", "static_or_smoke_only") +
    When(x.missingFamilies != 0, "", "missing family manifests") +
    When(x.staleAllowed, "", "stale manifests") +
    When(NotAllFalse(x.claims, FALSE_IN_DRIFT), "", "drift claims") +
    When(x.cluster != "blocked_external_provider_only", "", "cluster routes")
  }

  /** The complaints about the header of a manifest, family rows apart. */
  function HeaderErrors(m: Manifest): seq<Complaint> {
    var done := Listed(m.successors, 42) in COMPLETE_WORDS;
    SchemaErrors(m.schema) + PlanErrors(m, done) + MetadataErrors(m) + PolicyErrors(m.policy, done) +
    DriftErrors(m.drift, done)
  }

  /** `validate_manifest_semantics`. */
  function ManifestErrors(m: Manifest): seq<Complaint> {
    HeaderErrors(m) + FamilyErrors(m)
  }

  /** The validator's loop over the rows. */
  method ValidateRows(rows: seq<FamilyRow>, done: bool) returns (errors: seq<Complaint>)
    ensures errors == AllRowErrors(rows, done)
  {
    hide RowErrors;
    errors := [];
    for k := 0 to |rows|
      invariant errors == AllRowErrors(rows[..k], done)
    {
      assert rows[..k + 1][..k] == rows[..k];
      errors := errors + RowErrors(rows[k], done);
    }
    assert rows[..|rows|] == rows;
  }

  // ----- the generator satisfies the validator ----------------------------------------------

  /** A non-runtime family is declared as such and is not available at run time. */
  predicate Declared(e: Registered) {
    var d, c := e.descriptor, e.capability;
    && (d.family == ReferenceEmulated ==> d.persistence == ReferenceClass && !c.runtimeAvailable)
    && (d.family == PolicyBlocked ==> d.persistence == PolicyClass && !c.runtimeAvailable)
  }

  lemma {:induction false} ListedStatus(slices: seq<nat>, t: Tracker, s: nat)
    ensures Listed(StatusList(slices, t), s) == if s in slices then StatusOf(t, s) else ""
  {
    if slices != [] {
      var n := |slices| - 1;
      var all := StatusList(slices, t);
      ListedStatus(slices[..n], t, s);
      assert all[..|all| - 1] == StatusList(slices[..n], t);
      assert slices == slices[..n] + [slices[n]];
    }
  }

  lemma {:induction false} ListedPendingIs(slices: seq<nat>, all: seq<nat>, t: Tracker)
    requires forall s <- slices :: s in all
    ensures ListedPending(slices, StatusList(all, t)) == PendingAmong(slices, t)
  {
    if slices != [] {
      var n := |slices| - 1;
      assert slices[n] in slices;
      ListedPendingIs(slices[..n], all, t);
      ListedStatus(all, t, slices[n]);
    }
  }

  /** Everything the validator looks for in a row is among what the generator writes. */
  lemma FieldsAreGood(d: Descriptor, c: Capability, t: Tracker, metrics: bool, crash: bool, drift: bool)
    ensures FieldErrors(BuildFamilyRow(d, c, t, metrics, crash, drift)) == []
  {
    hide Done, Blockers, Summarize, RouteStates, Classify, ProviderOf, SpecializedState, UniqueState, StorageState,
         RecoveryState, SecurityState, EvidenceState;
  }

  lemma FlagsAreGood()
    ensures !NotAllFalse(AllFalse(CLAIM_BOUNDARY), FALSE_IN_BOUNDARY)
    ensures !NotAllFalse(AllFalse(CLASSIFICATION_FLAGS), FALSE_IN_CLASSIFICATION)
    ensures !NotAllFalse(AllFalse(DRIFT_FLAGS), FALSE_IN_DRIFT)
  {
  }

  lemma StatesAreGood(d: Descriptor, c: Capability, t: Tracker)
    requires Done(t, 42) ==> Done(t, 37) && Done(t, 40) && Done(t, 41)
    ensures StateErrors(BuildFamilyRow(d, c, t, Done(t, 40), Done(t, 41), Done(t, 42)), Done(t, 42)) == []
  {
    hide Done, Blockers, Summarize, RouteStates, Classify, ProviderOf, SpecializedState, UniqueState;
  }

  lemma ClassIsGood(d: Descriptor, c: Capability, t: Tracker, metrics: bool, crash: bool, drift: bool)
    ensures ClassErrors(BuildFamilyRow(d, c, t, metrics, crash, drift)) == []
  {
    hide Done, Blockers, Summarize, RouteStates, ProviderOf, SpecializedState, UniqueState, StorageState,
         RecoveryState, SecurityState, EvidenceState, NotAllFalse, AllFalse;
    SummaryMatchesFamily(d.family, c);
    FlagsAreGood();
  }

  lemma NonRuntimeIff(e: Registered, t: Tracker, metrics: bool, crash: bool, drift: bool)
    ensures NonRuntimeErrors(BuildFamilyRow(e.descriptor, e.capability, t, metrics, crash, drift)) == [] <==>
            Declared(e)
  {
    hide Done, Blockers, Summarize, RouteStates, Classify, SpecializedState, UniqueState;
  }

  lemma {:induction false} AllRowsIff(rows: seq<FamilyRow>, done: bool)
    ensures AllRowErrors(rows, done) == [] <==> forall k :: 0 <= k < |rows| ==> RowErrors(rows[k], done) == []
  {
    hide RowErrors;
    if rows != [] {
      var n := |rows| - 1;
      AllRowsIff(rows[..n], done);
      assert forall k :: 0 <= k < n ==> rows[..n][k] == rows[k];
    }
  }

  lemma BuiltParts(i: Inputs)
    requires BuildManifest(i).Built?
    ensures var m, t := BuildManifest(i).manifest, i.tracker;
            && m.families == BuildRows(i.registry, t)
            && m.familyCount == |i.registry| != 0
            && m.successors == StatusList(SUCCESSORS, t) && m.integrated == StatusList(INTEGRATED, t)
            && m.pending == PendingAmong(SUCCESSORS, t)
  {
    hide PlanOk, DriftOk, Done, BuildRows, PendingAmong, StatusList, WrittenSchema, WrittenPolicy, WrittenDrift, OrElse,
         AllFalse;
  }

  ghost predicate DistinctIds(registry: seq<Registered>) {
    forall k, l :: 0 <= k < l < |registry| ==> registry[k].descriptor.id != registry[l].descriptor.id
  }

  ghost predicate AllDeclared(registry: seq<Registered>) {
    forall k :: 0 <= k < |registry| ==> Declared(registry[k])
  }

  lemma IdsIff(registry: seq<Registered>, t: Tracker)
    ensures Distinct(IdsOf(BuildRows(registry, t))) <==> DistinctIds(registry)
  {
    hide RowOf;
    var rows := BuildRows(registry, t);
    forall k | 0 <= k < |registry|
      ensures IdsOf(rows)[k] == registry[k].descriptor.id
    {
      RowId(registry[k], t);
    }
  }

  lemma RowsIff(i: Inputs)
    requires Buildable(i)
    ensures AllRowErrors(BuildRows(i.registry, i.tracker), Done(i.tracker, 42)) == [] <==> AllDeclared(i.registry)
  {
    hide RowErrors, Buildable, Declared, Done, RowOf;
    var rows := BuildRows(i.registry, i.tracker);
    AllRowsIff(rows, Done(i.tracker, 42));
    forall k | 0 <= k < |i.registry|
      ensures RowErrors(rows[k], Done(i.tracker, 42)) == [] <==> Declared(i.registry[k])
    {
      RowIff(i, i.registry[k]);
    }
  }

  /** Exactly which registries give family rows that the validator accepts. */
  lemma FamiliesIff(i: Inputs)
    requires BuildManifest(i).Built?
    ensures FamilyErrors(BuildManifest(i).manifest) == [] <==> DistinctIds(i.registry) && AllDeclared(i.registry)
  {
    hide Buildable, ManifestOf, AllRowErrors, DistinctIds, AllDeclared, StatusList, BuildRows, IdsOf, PendingAmong;
    BuiltParts(i);
    IdsIff(i.registry, i.tracker);
    RowsIff(i);
    ListedStatus(SUCCESSORS, i.tracker, 42);
    assert SUCCESSORS[11] == 42;
  }

  lemma RowId(e: Registered, t: Tracker)
    ensures RowOf(e, t).id == e.descriptor.id
  {
  }

  lemma RowIff(i: Inputs, e: Registered)
    requires Buildable(i)
    ensures RowErrors(RowOf(e, i.tracker), Done(i.tracker, 42)) == [] <==> Declared(e)
  {
    hide FieldErrors, StateErrors, ClassErrors, NonRuntimeErrors, BuildFamilyRow, Declared, Done;
    var t := i.tracker;
    assert SUCCESSORS[6] == 37 && SUCCESSORS[9] == 40 && SUCCESSORS[10] == 41;
    FieldsAreGood(e.descriptor, e.capability, t, Done(t, 40), Done(t, 41), Done(t, 42));
    StatesAreGood(e.descriptor, e.capability, t);
    ClassIsGood(e.descriptor, e.capability, t, Done(t, 40), Done(t, 41), Done(t, 42));
    NonRuntimeIff(e, t, Done(t, 40), Done(t, 41), Done(t, 42));
  }

  lemma StatusesListed(t: Tracker)
    ensures forall s <- SUCCESSORS :: Listed(StatusList(SUCCESSORS, t), s) == StatusOf(t, s)
    ensures forall s <- INTEGRATED :: Listed(StatusList(INTEGRATED, t), s) == StatusOf(t, s)
    ensures Listed(StatusList(SUCCESSORS, t), 42) == StatusOf(t, 42)
  {
    forall s <- SUCCESSORS
      ensures Listed(StatusList(SUCCESSORS, t), s) == StatusOf(t, s)
    {
      ListedStatus(SUCCESSORS, t, s);
    }
    forall s <- INTEGRATED
      ensures Listed(StatusList(INTEGRATED, t), s) == StatusOf(t, s)
    {
      ListedStatus(INTEGRATED, t, s);
    }
    assert SUCCESSORS[11] == 42;
  }

  /** Apart from its families, a generated manifest is accepted iff the integrated slices are complete. */
  lemma HeaderIff(i: Inputs)
    requires BuildManifest(i).Built? && i.digest != ""
    ensures HeaderErrors(BuildManifest(i).manifest) == [] <==> forall s <- INTEGRATED :: Done(i.tracker, s)
  {
    hide Buildable, BuildRows, StatusList, Listed, WrittenSchema, WrittenPolicy, WrittenDrift, SchemaErrors, PlanErrors,
         MetadataErrors, PolicyErrors, DriftErrors, OrElse, AllFalse, PendingAmong;
    StatusesListed(i.tracker);
    PlanIff(i);
    SchemaIsGood();
    MetadataIsGood(i);
    PolicyIsGood(Done(i.tracker, 42));
    DriftIsGood(Done(i.tracker, 42));
  }

  lemma PlanIff(i: Inputs)
    requires BuildManifest(i).Built?
    ensures PlanErrors(BuildManifest(i).manifest, Done(i.tracker, 42)) == [] <==>
            forall s <- INTEGRATED :: Done(i.tracker, s)
  {
    hide BuildRows, PendingAmong, StatusList, Listed, ListedPending, DriftOk, WrittenSchema, WrittenPolicy,
         WrittenDrift, OrElse, AllFalse;
    BuiltParts(i);
    StatusesListed(i.tracker);
    ListedPendingIs(SUCCESSORS, SUCCESSORS, i.tracker);
  }

  lemma SchemaIsGood()
    ensures SchemaErrors(WrittenSchema()) == []
  {
  }

  lemma MetadataIsGood(i: Inputs)
    requires BuildManifest(i).Built? && i.digest != ""
    ensures MetadataErrors(BuildManifest(i).manifest) == []
  {
    hide Buildable, BuildRows, PendingAmong, StatusList, Done, WrittenSchema, WrittenPolicy, WrittenDrift;
    assert |GENERATED_BY| > 0;
  }

  lemma PolicyIsGood(done: bool)
    ensures PolicyErrors(WrittenPolicy(done), done) == []
  {
    hide DriftScope;
  }

  lemma DriftIsGood(done: bool)
    ensures DriftErrors(WrittenDrift(done), done) == []
  {
    hide NotAllFalse, AllFalse;
    FlagsAreGood();
  }

  /**
  Whenever the build succeeds, the validator has nothing to say about the result iff
  family ids are distinct, non-runtime families are declared as such, and the
  integrated slices are complete.
   */
  lemma GeneratedIsValidIff(i: Inputs)
    requires BuildManifest(i).Built? && i.digest != ""
    ensures ManifestErrors(BuildManifest(i).manifest) == [] <==>
            DistinctIds(i.registry) && AllDeclared(i.registry) && forall s <- INTEGRATED :: Done(i.tracker, s)
  {
    hide BuildManifest, HeaderErrors, FamilyErrors, DistinctIds, AllDeclared, Done;
    FamiliesIff(i);
    HeaderIff(i);
  }

  /** With the drift gate complete, the integrated slices always are, or the build would have been refused. */
  lemma GeneratedIsValidWhenComplete(i: Inputs)
    requires BuildManifest(i).Built? && i.digest != "" && Done(i.tracker, 42)
    ensures ManifestErrors(BuildManifest(i).manifest) == [] <==> DistinctIds(i.registry) && AllDeclared(i.registry)
  {
    hide ManifestErrors, DistinctIds, AllDeclared;
    GeneratedIsValidIff(i);
  }

  const EARLY_TRACKER: Tracker := map[
    30 := "pending", 31 := "pending", 32 := "pending", 33 := "pending", 34 := "pending", 35 := "pending",
    36 := "pending", 37 := "pending", 38 := "pending", 39 := "pending", 40 := "pending", 41 := "pending",
    42 := "pending"]

  lemma EarlyStatuses()
    ensures Waiting(EARLY_TRACKER, 30) && forall s <- SUCCESSORS :: Waiting(EARLY_TRACKER, s)
    ensures forall s :: !Done(EARLY_TRACKER, s)
  {
    assert "pending" !in COMPLETE_WORDS by {
      assert "pending"[0] == 'p';
    }
    assert "" !in COMPLETE_WORDS;
    assert forall s: nat :: StatusOf(EARLY_TRACKER, s) in {"pending", ""};
  }

  /** Before CEIC-042 is complete the build can succeed and the validator still complain. */
  lemma EarlyManifestIsRefused(i: Inputs)
    requires i.tracker == EARLY_TRACKER && i.registry != [] && i.digest != ""
    requires i.checks == Checks(true, true, true, true, true, true, true)
    ensures BuildManifest(i).Built? && ManifestErrors(BuildManifest(i).manifest) != []
  {
    hide ManifestErrors, ManifestOf, DistinctIds, AllDeclared, DriftOk, Waiting, Done;
    EarlyStatuses();
    GeneratedIsValidIff(i);
    assert INTEGRATED[0] == 90 && !Done(i.tracker, 90);
  }

  // ----- what a generated row may claim --------------------------------------------------------

  /** A state is complete only when the tracker shows the slices it rests on complete. */
  ghost predicate Honest(r: FamilyRow, t: Tracker) {
    && (r.specialized == Complete ==> Done(t, 39))
    && (r.unique == Complete ==> Done(t, 34))
    && (r.security == Complete ==> Done(t, 37))
    && (r.metric == Complete ==> Done(t, 40))
    && (Complete in {r.crash, r.corruption, r.cleanup} ==> Done(t, 41))
    && (r.classification.proof == Complete ==> Done(t, 38))
    && (Complete in {r.storage, r.recovery, r.benchmark, r.drift} ==> forall s <- SUCCESSORS + INTEGRATED :: Done(t, s))
    && r.scale != Complete
  }

  /** A row's routes are split in two, none is lossy without its checks, and only candidate families have candidates. */
  ghost predicate Disciplined(r: FamilyRow) {
    && |r.routes.routes| == |ROUTES|
    && (forall x <- r.routes.routes :: SafeRoute(x))
    && r.routes.supported !! r.routes.unsupported
    && (forall x <- ROUTES :: x in r.routes.supported || x in r.routes.unsupported)
    && (r.routes.candidates ==> r.classification.candidateOnly)
  }

  lemma AllSlicesDone(i: Inputs)
    requires BuildManifest(i).Built? && Done(i.tracker, 42)
    ensures forall s <- SUCCESSORS + INTEGRATED :: Done(i.tracker, s)
  {
    hide ManifestOf, PlanOk, Done;
    forall s <- SUCCESSORS + INTEGRATED
      ensures Done(i.tracker, s)
    {
      assert s in SUCCESSORS || s in INTEGRATED;
    }
  }

  lemma RowIsHonest(e: Registered, t: Tracker)
    requires Done(t, 42) ==> forall s <- SUCCESSORS + INTEGRATED :: Done(t, s)
    ensures Honest(RowOf(e, t), t)
  {
    hide Done, Blockers, Summarize, RouteStates, ProviderOf, AllFalse;
  }

  lemma RowIsDisciplined(e: Registered, t: Tracker)
    ensures Disciplined(RowOf(e, t))
  {
    hide Done, Blockers, ProviderOf, SpecializedState, UniqueState, StorageState, RecoveryState, SecurityState,
         EvidenceState, AllFalse, Candidate, BuildRouteState, SafeRoute;
    var f, c := e.descriptor.family, e.capability;
    SummaryMatchesFamily(f, c);
    RoutesPartitioned(f, c);
    forall x <- RouteStates(f, c)
      ensures SafeRoute(x)
    {
      var k :| 0 <= k < |ROUTES| && RouteStates(f, c)[k] == x;
      RouteDiscipline(ROUTES[k], f, c);
    }
  }

  /**
  Whatever the registry, the tracker and the checks are: no generated row is called ready
  or is without a blocker, none shows a state complete that the tracker does not, and
  none has an undisciplined route.
   */
  lemma GeneratedRowsClaimNoMore(i: Inputs)
    requires BuildManifest(i).Built?
    ensures forall r <- BuildManifest(i).manifest.families ::
              !r.enterpriseReady && r.blockers != [] && Honest(r, i.tracker) && Disciplined(r)
  {
    hide Buildable, ManifestOf, RowOf, Done, Honest, Disciplined;
    var t := i.tracker;
    BuiltParts(i);
    if Done(t, 42) {
      AllSlicesDone(i);
    }
    forall e <- i.registry
      ensures !RowOf(e, t).enterpriseReady && RowOf(e, t).blockers != []
      ensures Honest(RowOf(e, t), t) && Disciplined(RowOf(e, t))
    {
      NeverReady(e, t);
      RowIsHonest(e, t);
      RowIsDisciplined(e, t);
    }
  }

  lemma NeverReady(e: Registered, t: Tracker)
    ensures !RowOf(e, t).enterpriseReady && RowOf(e, t).blockers != []
  {
    hide Done, Blockers, Summarize, RouteStates, Classify, ProviderOf, SpecializedState, UniqueState, StorageState,
         RecoveryState, SecurityState, EvidenceState, AllFalse;
    AlwaysBlocked(e.descriptor, t);
  }
}
