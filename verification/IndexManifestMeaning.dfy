/** What a generated row says, when the build goes through, and which manifests the validator accepts. */
module IndexManifestMeaning {
  import opened Ordering
  import opened IndexFamilies
  import opened IndexManifest

  ghost predicate IsComplete(t: Tracker, slice: nat) {
    slice in t && t[slice] in {"complete", "completed", "done", "closed", "complete_move_ready"}
  }

  lemma DoneIff(t: Tracker, slice: nat)
    ensures Done(t, slice) <==> IsComplete(t, slice)
  {
    assert |"complete"| > 0 && |"completed"| > 0 && |"done"| > 0 && |"closed"| > 0 && |"complete_move_ready"| > 0;
  }

  // ----- the states of a row -----------------------------------------------------------

  /** A state is blocked, or not applicable, or complete when its proof is, or else pending. */
  ghost predicate StateIs(s: State, blocked: bool, notApplicable: bool, complete: bool) {
    && (s == Blocked <==> blocked)
    && (s == NotApplicable <==> !blocked && notApplicable)
    && (s == Complete <==> !blocked && !notApplicable && complete)
  }

  /** Every state of a generated row, from the class of its family and the tracker. */
  lemma RowStatesAre(e: Registered, t: Tracker)
    ensures var r, d := RowOf(e, t), e.descriptor;
            var blocked, memory := d.persistence in {ReferenceClass, PolicyClass}, d.persistence == MemoryOnly;
            && StateIs(r.storage, blocked, memory, IsComplete(t, 42))
            && StateIs(r.recovery, blocked, memory, IsComplete(t, 42))
            && StateIs(r.security, blocked, false, IsComplete(t, 37))
            && StateIs(r.metric, blocked, false, IsComplete(t, 40))
            && StateIs(r.benchmark, blocked, false, IsComplete(t, 42))
            && StateIs(r.scale, blocked, false, false)
            && StateIs(r.crash, blocked, false, IsComplete(t, 41))
            && StateIs(r.corruption, blocked, false, IsComplete(t, 41))
            && StateIs(r.cleanup, blocked, false, IsComplete(t, 41))
            && StateIs(r.drift, blocked, false, IsComplete(t, 42))
            && StateIs(r.unique, false, d.family != UniqueBtree, IsComplete(t, 34))
            && StateIs(r.classification.proof, false, false, IsComplete(t, 38))
  {
    hide Done, IsComplete, Blockers, Summarize, RouteStates, ProviderOf, SpecializedState, AllFalse;
    DoneIff(t, 34);
    DoneIff(t, 37);
    DoneIff(t, 38);
    DoneIff(t, 40);
    DoneIff(t, 41);
    DoneIff(t, 42);
  }

  /** The specialized closure is complete for specialized families once CEIC-039 is, blocked families included. */
  lemma SpecializedStateIs(e: Registered, t: Tracker)
    ensures var s, d := RowOf(e, t).specialized, e.descriptor;
            var specialized := Candidate(d.family) || Pruning(d.family);
            && (s == Complete <==> specialized && IsComplete(t, 39))
            && (s == Blocked <==> s != Complete && d.persistence in {ReferenceClass, PolicyClass})
            && (s == NotApplicable <==> !specialized && d.persistence !in {ReferenceClass, PolicyClass})
  {
    CandidatesFollowClass(e.descriptor.family);
    hide Done, IsComplete, Blockers, Summarize, RouteStates, ProviderOf, AllFalse, Candidate, Pruning, Specialized,
         Classify, StorageState, RecoveryState, SecurityState, EvidenceState, UniqueState, SemanticClassOf;
    DoneIff(t, 39);
  }

  /** The rest of a row: what it is about, its routes, its classification, and that it claims nothing. */
  lemma RowDescribes(e: Registered, t: Tracker)
    ensures var r, d := RowOf(e, t), e.descriptor;
            && r.id == d.id && r.family == d.family && r.persistence == d.persistence
            && (r.persistent <==> d.persistence == Persistent)
            && r.provider == ProviderOf(d) && r.runtimeAvailable == e.capability.runtimeAvailable
            && r.routes == Summarize(RouteStates(d.family, e.capability))
            && r.blockers == Blockers(d, t) && !r.enterpriseReady
            && (forall n <- r.boundary :: !r.boundary[n])
            && (forall n <- r.classification.flags :: !r.classification.flags[n])
    ensures var c, f := RowOf(e, t).classification, e.descriptor.family;
            && c.semantic == SemanticClassOf(f)
            && (c.bloomOnly <==> f == Bloom)
            && (c.summaryOnly <==> f in {BrinZone, ColumnarZone})
            && (c.rerank <==> f in {VectorHnsw, VectorIvf, SparseWand})
            && (c.fallback <==> NeedsFallback(f))
            && (c.hashEqualityOnly <==> f == Hash)
            && (c.candidateOnly <==> Candidate(f))
  {
    hide Done, Blockers, Summarize, RouteStates, ProviderOf, SpecializedState, StorageState, RecoveryState,
         SecurityState, EvidenceState, UniqueState, SemanticClassOf, Candidate, NeedsFallback;
  }

  // ----- when the build goes through -----------------------------------------------------

  ghost predicate IsTracked(t: Tracker, slice: nat) {
    IsComplete(t, slice) || IsPending(t, slice)
  }

  /** Exactly when a manifest is built. */
  lemma BuiltIff(i: Inputs)
    ensures BuildManifest(i).Built? <==>
            && i.checks.plan && i.checks.sources && i.registry != []
            && (forall s: nat :: 30 <= s <= 42 ==> IsTracked(i.tracker, s))
            && (IsComplete(i.tracker, 40) ==> i.checks.metrics)
            && (IsComplete(i.tracker, 41) ==> i.checks.crash)
            && (IsComplete(i.tracker, 42) ==>
                  && i.checks.integrated && i.checks.proofs && i.checks.drift
                  && (forall s: nat :: 90 <= s <= 95 ==>
                        IsComplete(i.tracker, s) && s in i.acceptance && i.acceptance[s])
                  && (forall s: nat :: 31 <= s <= 41 ==> IsComplete(i.tracker, s)))
  {
    hide Done, Waiting, IsTracked, IsComplete, ManifestOf, PlanOk, DriftOk;
    DoneIff(i.tracker, 40);
    DoneIff(i.tracker, 41);
    DoneIff(i.tracker, 42);
    PlanOkIff(i);
    DriftOkIff(i);
  }

  lemma PlanOkIff(i: Inputs)
    ensures PlanOk(i) <==> i.checks.plan && forall s: nat :: 30 <= s <= 42 ==> IsTracked(i.tracker, s)
  {
    hide Done, Waiting, IsComplete, IsPending;
    SlicesAre();
    forall s: nat
      ensures IsTracked(i.tracker, s) <==> Done(i.tracker, s) || Waiting(i.tracker, s)
    {
      DoneIff(i.tracker, s);
      WaitingIff(i.tracker, s);
    }
    if PlanOk(i) {
      forall s: nat | 30 <= s <= 42
        ensures IsTracked(i.tracker, s)
      {
        assert s == 30 || s in SUCCESSORS;
      }
    }
  }

  lemma DriftOkIff(i: Inputs)
    ensures DriftOk(i) <==>
            && i.checks.integrated && i.checks.proofs && i.checks.drift
            && (forall s: nat :: 90 <= s <= 95 ==>
                  IsComplete(i.tracker, s) && s in i.acceptance && i.acceptance[s])
            && (forall s: nat :: 31 <= s <= 41 ==> IsComplete(i.tracker, s))
  {
    hide Done, IsComplete;
    SlicesAre();
    forall s: nat
      ensures IsComplete(i.tracker, s) <==> Done(i.tracker, s)
    {
      DoneIff(i.tracker, s);
    }
    if DriftOk(i) {
      forall s: nat | 90 <= s <= 95
        ensures IsComplete(i.tracker, s) && s in i.acceptance && i.acceptance[s]
      {
        assert s in INTEGRATED;
      }
      forall s: nat | 31 <= s <= 41
        ensures IsComplete(i.tracker, s)
      {
        assert s in SUCCESSORS;
      }
    }
  }

  lemma SlicesAre()
    ensures forall s: nat :: s in SUCCESSORS <==> 31 <= s <= 42
    ensures forall s: nat :: s in INTEGRATED <==> 90 <= s <= 95
  {
    assert forall k :: 0 <= k < 12 ==> SUCCESSORS[k] == 31 + k;
    assert forall k :: 0 <= k < 6 ==> INTEGRATED[k] == 90 + k;
    forall s: nat
      ensures s in SUCCESSORS <==> 31 <= s <= 42
      ensures s in INTEGRATED <==> 90 <= s <= 95
    {
      if 31 <= s <= 42 {
        assert SUCCESSORS[s - 31] == s;
      }
      if 90 <= s <= 95 {
        assert INTEGRATED[s - 90] == s;
      }
    }
  }

  /** A built manifest carries its inputs, the rows in registry order and the slices that are pending. */
  lemma ManifestCarries(i: Inputs)
    requires BuildManifest(i).Built?
    ensures var m := BuildManifest(i).manifest;
            && (i.commit != "" ==> m.commit == i.commit) && (i.branch != "" ==> m.branch == i.branch)
            && m.digest == i.digest && (i.generatedAt != "" ==> m.generatedAt == i.generatedAt)
            && m.auditorTimestamp == m.generatedAt
            && |m.families| == |i.registry|
            && (forall k :: 0 <= k < |i.registry| ==> m.families[k] == RowOf(i.registry[k], i.tracker))
            && (forall s :: s in m.pending <==> 31 <= s <= 42 && IsPending(i.tracker, s))
            && (42 in m.slices <==> IsComplete(i.tracker, 42))
  {
    hide Buildable, Done, Waiting, IsPending, IsComplete, RowOf, StatusList, PendingAmong, AllFalse, WrittenSchema,
         WrittenPolicy, WrittenDrift;
    DoneIff(i.tracker, 42);
    SlicesAre();
    forall s: nat
      ensures s in PendingAmong(SUCCESSORS, i.tracker) <==> 31 <= s <= 42 && IsPending(i.tracker, s)
    {
      PendingAmongAre(SUCCESSORS, i.tracker, s);
      WaitingIff(i.tracker, s);
    }
  }

  lemma {:induction false} PendingAmongAre(slices: seq<nat>, t: Tracker, s: nat)
    ensures s in PendingAmong(slices, t) <==> s in slices && Waiting(t, s)
  {
    hide Waiting;
    if slices != [] {
      var n := |slices| - 1;
      PendingAmongAre(slices[..n], t, s);
      assert slices == slices[..n] + [slices[n]];
    }
  }

  // ----- what the validator accepts ---------------------------------------------------------

  ghost predicate AllFalseIn(flags: Flags, names: set<Flag>) {
    forall n <- names :: n in flags && !flags[n]
  }

  ghost predicate HasFields(r: FamilyRow) {
    && {FamilyId, FamilyName, ProviderClassification, PersistentField, RuntimeAvailability, RouteCapability,
        FamilyClassification, StorageStatus, RecoveryStatus, SecurityStatus, MetricStatus, BenchmarkStatus, ScaleStatus,
        CrashStatus, CorruptionStatus, CleanupStatus, DriftStatus, ClaimBoundary, AuditorTimestamp,
        GenerationMetadata, EnterpriseReady} <= r.fields
    && {SupportedRoutes, UnsupportedRoutes, ExactRecheck, MgaRecheck, SecurityRecheck, ExactFallback, NegativePrune,
        SummaryPruneField, RowTruthField, FinalRowField, RouteRows} <= r.routeFields
  }

  /** A persistent row may not claim scale, and once CEIC-042 is complete its proofs must be. */
  ghost predicate ProofsInOrder(r: FamilyRow, done: bool) {
    && (r.persistent ==> r.scale != Complete)
    && (r.persistent && done ==> r.benchmark == r.drift == r.security == r.metric == r.crash == r.corruption ==
                                 r.cleanup == Complete)
    && (r.persistence in {ReferenceClass, PolicyClass} ==> r.drift == Blocked)
    && (done && r.persistence !in {ReferenceClass, PolicyClass, MemoryOnly} ==> r.storage == r.recovery == Complete)
  }

  ghost predicate ClaimsNothing(r: FamilyRow) {
    && !r.enterpriseReady
    && AllFalseIn(r.boundary, {TransactionFinality, Visibility, AuthorizationSecurity, Security, Recovery, Parser,
                               Reference, Wal, Benchmark, OptimizerPlan, OptimizerPlanFinality, IndexFinality, RowTruth,
                               FinalRow, ResultFinality, LocalCluster, Cluster, ClusterAction, AgentAction})
    && AllFalseIn(r.classification.flags, {RowTruth, FinalRow, Closure39Claimed, Metrics40Claimed, Crash41Claimed,
                                           Drift42Claimed, AllIndexReadinessClaimed, ReferenceDominanceClaimed,
                                           EnterpriseReadinessClaimed})
  }

  /** Lossy families are classified as such and do not overreach, and non-runtime families do not run. */
  ghost predicate ClassedRight(r: FamilyRow) {
    var c := r.classification;
    && (r.family == Bloom ==> c.semantic == BloomNegativePrune && c.bloomOnly && !r.routes.candidates)
    && (r.family in {BrinZone, ColumnarZone} ==>
          c.semantic == SummarySegmentPrune && c.summaryOnly && !r.routes.candidates)
    && (r.family in {VectorHnsw, VectorIvf, SparseWand} ==> c.rerank && c.fallback)
    && (r.family == Hash ==> c.hashEqualityOnly && !r.routes.orderedRange)
    && (r.family == ReferenceEmulated ==>
          r.provider == ReferenceProvider && !r.runtimeAvailable && r.storage == Blocked)
    && (r.family == PolicyBlocked ==> r.provider == PolicyProvider && !r.runtimeAvailable && r.storage == Blocked)
  }

  /** Exactly which rows the validator has no complaint about, generated or not. */
  lemma RowAcceptedIff(r: FamilyRow, done: bool)
    ensures RowErrors(r, done) == [] <==>
            HasFields(r) && ProofsInOrder(r, done) && ClaimsNothing(r) && ClassedRight(r)
  {
    hide FieldErrors, StateErrors, ClassErrors, NonRuntimeErrors, HasFields, ProofsInOrder, ClaimsNothing, ClassedRight;
    FieldsAccepted(r);
    StatesAccepted(r, done);
    ClassAccepted(r);
  }

  lemma FieldsAccepted(r: FamilyRow)
    ensures FieldErrors(r) == [] <==> HasFields(r)
  {
  }

  lemma StatesAccepted(r: FamilyRow, done: bool)
    ensures StateErrors(r, done) == [] <==> ProofsInOrder(r, done)
  {
  }

  lemma ClassAccepted(r: FamilyRow)
    ensures ClassErrors(r) == [] && NonRuntimeErrors(r) == [] <==> ClaimsNothing(r) && ClassedRight(r)
  {
    FlagsAccepted(r.boundary, FALSE_IN_BOUNDARY);
    FlagsAccepted(r.classification.flags, FALSE_IN_CLASSIFICATION);
    hide NotAllFalse, AllFalseIn;
  }

  lemma FlagsAccepted(flags: Flags, names: set<Flag>)
    ensures NotAllFalse(flags, names) <==> !AllFalseIn(flags, names)
  {
  }

  ghost predicate ListsInOrder(m: Manifest, done: bool) {
    && (forall s: nat :: 31 <= s <= 42 ==>
          Listed(m.successors, s) in {"complete", "completed", "done", "closed", "complete_move_ready", "pending",
                                      "planned"})
    && m.pending == ListedPending(SUCCESSORS, m.successors)
    && m.slices == (if done then [30, 42] else [30])
    && (forall s: nat :: 90 <= s <= 95 ==>
          Listed(m.integrated, s) in {"complete", "completed", "done", "closed", "complete_move_ready"})
  }

  /** The header flags that the validator leaves alone. */
  ghost predicate MayBeSet(n: Flag) {
    n in {Docs, Closure39Claimed, Metrics40Claimed, Crash41Claimed, Drift42Claimed, AllIndexReadinessClaimed,
          ReferenceDominanceClaimed, EnterpriseReadinessClaimed}
  }

  ghost predicate HeaderInOrder(m: Manifest, done: bool) {
    && m.schema == Schema("scratchbird.ceic.evidence_manifest", 1, "index_readiness_manifest",
                          "CEIC_030_INDEX_READINESS_MANIFEST")
    && m.commit != "" && m.branch != "" && m.digest != "" && m.generatedAt != "" && m.generatedBy != ""
    && m.auditorTimestamp != "" && m.boundaryToken == AuthorityBoundaryToken
    && (forall n <- m.authority :: !MayBeSet(n) ==> !m.authority[n])
    && m.policy == Policy(
         "blocked_external_provider_only",
         "lossy_candidate_pruning_family_classification_only_no_provider_metrics_crash_drift_readiness_claim",
         if done then Scope042Complete else Scope042Pending)
    && m.drift.state == (if done then Complete else Pending)
    && !m.drift.smokeOnly && m.drift.missingFamilies == 0 && !m.drift.staleAllowed
    && AllFalseIn(m.drift.claims, {ReferenceDominanceClaimed, AllIndexReadinessClaimed, EnterpriseReadinessClaimed})
    && m.drift.cluster == "blocked_external_provider_only"
  }

  /** Exactly which manifests the validator accepts, generated or not. */
  lemma ManifestAcceptedIff(m: Manifest)
    ensures var done := Listed(m.successors, 42) in {"complete", "completed", "done", "closed", "complete_move_ready"};
            ManifestErrors(m) == [] <==>
            && ListsInOrder(m, done) && HeaderInOrder(m, done)
            && m.families != [] && Distinct(IdsOf(m.families)) && m.familyCount == |m.families|
            && forall k :: 0 <= k < |m.families| ==> RowErrors(m.families[k], done) == []
  {
    hide RowErrors, SchemaErrors, PlanErrors, MetadataErrors, PolicyErrors, DriftErrors, ListsInOrder, HeaderInOrder,
         Listed, ListedPending;
    var done := Listed(m.successors, 42) in COMPLETE_WORDS;
    ListsAccepted(m, done);
    HeaderAccepted(m, done);
    AllRowsIff(m.families, done);
  }

  lemma ListsAccepted(m: Manifest, done: bool)
    ensures PlanErrors(m, done) == [] <==> ListsInOrder(m, done)
  {
    hide Listed, ListedPending;
    SlicesAre();
    hide SUCCESSORS, INTEGRATED;
  }

  lemma HeaderAccepted(m: Manifest, done: bool)
    ensures (&& SchemaErrors(m.schema) == [] && MetadataErrors(m) == [] && PolicyErrors(m.policy, done) == []
             && DriftErrors(m.drift, done) == []) <==>
            HeaderInOrder(m, done)
  {
    FlagsAccepted(m.drift.claims, FALSE_IN_DRIFT);
    hide NotAllFalse, AllFalseIn;
    SchemaAccepted(m.schema);
    PolicyAccepted(m.policy, done);
    hide SchemaErrors, PolicyErrors;
  }

  lemma SchemaAccepted(x: Schema)
    ensures SchemaErrors(x) == [] <==>
            x == Schema("scratchbird.ceic.evidence_manifest", 1, "index_readiness_manifest",
                        "CEIC_030_INDEX_READINESS_MANIFEST")
  {
  }

  lemma PolicyAccepted(x: Policy, done: bool)
    ensures PolicyErrors(x, done) == [] <==>
            x == Policy(
              "blocked_external_provider_only",
              "lossy_candidate_pruning_family_classification_only_no_provider_metrics_crash_drift_readiness_claim",
              if done then Scope042Complete else Scope042Pending)
  {
  }
}
