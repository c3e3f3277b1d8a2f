/** Index families, what their routes can do, and the proof states derived for them. */
module IndexFamilies {

  datatype Family =
    | Btree | UniqueBtree | Expression | Partial | Covering | Hash | Bitmap | Bloom | DocumentPath | Graph
    | FullText | Gin | Inverted | Ngram | SparseWand | VectorExact | VectorHnsw | VectorIvf
    | Spatial | Rtree | Gist | Spgist | BrinZone | ColumnarZone | TemporaryWork | InMemory
    | ReferenceEmulated | PolicyBlocked | OtherFamily(name: string)

  datatype Persistence =
    | Persistent | MemoryOnly | MemoryPrimary | ReferenceClass | PolicyClass | OtherClass(name: string)

  datatype Route =
    | DmlInsert | DmlUpdate | DmlDelete | SqlSelect | BulkBuild | NosqlDocument | NosqlGraph | NosqlVector
    | NosqlSearch | Maintenance | ValidateRepair

  const ROUTES := [DmlInsert, DmlUpdate, DmlDelete, SqlSelect, BulkBuild, NosqlDocument, NosqlGraph, NosqlVector,
                   NosqlSearch, Maintenance, ValidateRepair]

  datatype Descriptor = Descriptor(family: Family, id: string, persistence: Persistence)

  datatype Capability = Capability(
    implemented: bool, reader: bool, writer: bool, maintenance: bool, validate: bool, repair: bool,
    reopen: bool, rebuild: bool, runtimeAvailable: bool, benchmarkClean: bool, blocker: string)
  {
    predicate PhysicallyComplete() {
      implemented && reader && writer && maintenance && validate && repair && reopen && rebuild
    }

    predicate FamilyComplete() {
      runtimeAvailable && benchmarkClean && blocker == "none" && PhysicallyComplete()
    }
  }

  predicate OrderedWrite(f: Family) { f in {Btree, UniqueBtree, Expression, Partial, Covering} }

  predicate TokenSearch(f: Family) { f in {FullText, Gin, Inverted, Ngram, SparseWand} }

  predicate Vector(f: Family) { f in {VectorExact, VectorHnsw, VectorIvf} }

  predicate ApproximateVector(f: Family) { f in {VectorHnsw, VectorIvf} }

  predicate SpatialFamily(f: Family) { f in {Spatial, Rtree, Gist, Spgist} }

  predicate Candidate(f: Family) {
    f in {Bitmap, DocumentPath, Graph} || TokenSearch(f) || Vector(f) || SpatialFamily(f)
  }

  predicate SummaryPrune(f: Family) { f in {BrinZone, ColumnarZone} }

  predicate Pruning(f: Family) { f == Bloom || SummaryPrune(f) }

  predicate Specialized(f: Family) {
    f in {Bitmap, Bloom, DocumentPath, Graph} || TokenSearch(f) || Vector(f) || SpatialFamily(f) || SummaryPrune(f)
  }

  predicate RankingOrSeed(f: Family) {
    f in {SparseWand, DocumentPath, Graph} || Vector(f) || SpatialFamily(f)
  }

  predicate EqualityLookup(f: Family) { OrderedWrite(f) || f in {Hash, DocumentPath, Graph} }

  predicate NeedsFallback(f: Family) {
    || Pruning(f) || f == Bitmap || TokenSearch(f) || SpatialFamily(f) || ApproximateVector(f)
    || f in {DocumentPath, Graph}
  }

  predicate NeedsRerank(f: Family) { ApproximateVector(f) || f == SparseWand }

  predicate NonRuntime(f: Family) { f in {ReferenceEmulated, PolicyBlocked} }

  // ----- routes -----------------------------------------------------------------

  predicate RouteSupports(route: Route, f: Family, c: Capability) {
    && c.FamilyComplete()
    && match route
       case DmlInsert | DmlUpdate | DmlDelete => OrderedWrite(f)
       case SqlSelect | BulkBuild | Maintenance | ValidateRepair => !NonRuntime(f)
       case NosqlDocument => f == DocumentPath
       case NosqlGraph => f == Graph
       case NosqlVector => Vector(f)
       case NosqlSearch => TokenSearch(f)
  }

  datatype RouteState = RouteState(
    route: Route, supported: bool, read: bool, write: bool, mutation: bool, bulkBuild: bool, reopen: bool,
    orderedRange: bool, equality: bool, negativePrune: bool, summaryPrune: bool, candidates: bool, ranking: bool,
    approximate: bool, exactRecheck: bool, exactRerank: bool, exactFallback: bool, mgaRecheck: bool,
    securityRecheck: bool, rowTruth: bool)

  /** `build_route_state`. */
  function BuildRouteState(route: Route, f: Family, c: Capability): RouteState {
    var ok := RouteSupports(route, f, c);
    var write := ok && route in {DmlInsert, DmlUpdate, DmlDelete};
    RouteState(
      route, ok,
      ok && route in {SqlSelect, NosqlDocument, NosqlGraph, NosqlVector, NosqlSearch, Maintenance, ValidateRepair},
      write, write || (ok && route == Maintenance), ok && route == BulkBuild,
      ok && route in {Maintenance, ValidateRepair, BulkBuild},
      ok && OrderedWrite(f), ok && EqualityLookup(f), ok && f == Bloom, ok && SummaryPrune(f), ok && Candidate(f),
      ok && RankingOrSeed(f), ok && ApproximateVector(f), ok && (Candidate(f) || Pruning(f) || f == Hash),
      ok && NeedsRerank(f), ok && NeedsFallback(f), true, true, false)
  }

  function RouteStates(f: Family, c: Capability): (r: seq<RouteState>)
    ensures |r| == |ROUTES| && forall k :: 0 <= k < |r| ==> r[k] == BuildRouteState(ROUTES[k], f, c)
  {
    seq(|ROUTES|, k requires 0 <= k < |ROUTES| => BuildRouteState(ROUTES[k], f, c))
  }

  /** The route facts that the manifest records for a family as a whole. */
  datatype RouteSummary = RouteSummary(
    routes: seq<RouteState>, supported: set<Route>, unsupported: set<Route>, orderedRange: bool,
    candidates: bool, approximate: bool,
    exactRecheck: bool, exactFallback: bool, negativePrune: bool, summaryPrune: bool, ranking: bool,
    mgaRecheck: bool, securityRecheck: bool, rowTruth: bool)

  /** The `any` and `all` aggregations over the routes. */
  function Summarize(routes: seq<RouteState>): RouteSummary {
    RouteSummary(
      routes, set r | r in routes && r.supported :: r.route, set r | r in routes && !r.supported :: r.route,
      exists r <- routes :: r.orderedRange, exists r <- routes :: r.candidates, exists r <- routes :: r.approximate,
      exists r <- routes :: r.exactRecheck, exists r <- routes :: r.exactFallback,
      exists r <- routes :: r.negativePrune, exists r <- routes :: r.summaryPrune, exists r <- routes :: r.ranking,
      forall r <- routes :: r.mgaRecheck, forall r <- routes :: r.securityRecheck, false)
  }

  /** A route yields nothing lossy without the checks that make it exact, and grants no row truth. */
  predicate SafeRoute(r: RouteState) {
    && (r.candidates || r.negativePrune || r.summaryPrune ==> r.exactRecheck)
    && (r.approximate ==> r.exactRerank && r.exactFallback && r.exactRecheck)
    && (r.negativePrune || r.summaryPrune ==> r.exactFallback && !r.candidates)
    && (r.write ==> r.orderedRange && r.equality && !r.candidates && !r.exactRecheck)
    && (r.supported <==> r.read || r.write || r.bulkBuild)
    && r.mgaRecheck && r.securityRecheck && !r.rowTruth
  }

  lemma RouteDiscipline(route: Route, f: Family, c: Capability)
    ensures SafeRoute(BuildRouteState(route, f, c))
  {
    hide RankingOrSeed, Capability.FamilyComplete, OrderedWrite, TokenSearch, Vector, SpatialFamily, SummaryPrune,
         ApproximateVector, NonRuntime;
    TraitsApart(f);
  }

  /** What keeps the traits of a family from contradicting each other. */
  lemma TraitsApart(f: Family)
    ensures OrderedWrite(f) ==> !Candidate(f) && !Pruning(f) && f != Hash
    ensures Pruning(f) ==> !Candidate(f)
    ensures ApproximateVector(f) ==> Vector(f)
  {
  }

  lemma SelectIsARoute(f: Family, c: Capability)
    ensures BuildRouteState(SqlSelect, f, c) in RouteStates(f, c)
  {
    assert ROUTES[3] == SqlSelect;
    assert RouteStates(f, c)[3] == BuildRouteState(SqlSelect, f, c);
  }

  /** A flag of the summary is set exactly when the family is complete, runs at all and has the trait. */
  lemma SummaryMatchesFamily(f: Family, c: Capability)
    ensures var s := Summarize(RouteStates(f, c));
            var live := c.FamilyComplete() && !NonRuntime(f);
            && s.candidates == (live && Candidate(f))
            && s.orderedRange == (live && OrderedWrite(f))
            && s.approximate == (live && ApproximateVector(f))
            && s.exactRecheck == (live && (Candidate(f) || Pruning(f) || f == Hash))
            && s.exactFallback == (live && NeedsFallback(f))
            && s.negativePrune == (live && f == Bloom)
            && s.summaryPrune == (live && SummaryPrune(f))
            && s.ranking == (live && RankingOrSeed(f))
            && s.mgaRecheck && s.securityRecheck && !s.rowTruth
  {
    hide Candidate, OrderedWrite, ApproximateVector, Pruning, NeedsFallback, SummaryPrune, RankingOrSeed, NonRuntime,
         BuildRouteState, Capability.FamilyComplete;
    var routes := RouteStates(f, c);
    FlagsNeedSupport(f, c);
    SelectIsARoute(f, c);
    SelectSupports(f, c);
    var select := BuildRouteState(SqlSelect, f, c);
    assert select in routes;
  }

  lemma SelectSupports(f: Family, c: Capability)
    ensures BuildRouteState(SqlSelect, f, c).supported <==> c.FamilyComplete() && !NonRuntime(f)
  {
  }

  /** Every flag of a route is its support together with a trait of the family. */
  lemma FlagsNeedSupport(f: Family, c: Capability)
    ensures forall r <- RouteStates(f, c) ::
              && (r.supported ==> c.FamilyComplete() && !NonRuntime(f))
              && r.candidates == (r.supported && Candidate(f))
              && r.orderedRange == (r.supported && OrderedWrite(f))
              && r.approximate == (r.supported && ApproximateVector(f))
              && r.exactRecheck == (r.supported && (Candidate(f) || Pruning(f) || f == Hash))
              && r.exactFallback == (r.supported && NeedsFallback(f))
              && r.negativePrune == (r.supported && f == Bloom)
              && r.summaryPrune == (r.supported && SummaryPrune(f))
              && r.ranking == (r.supported && RankingOrSeed(f))
              && r.mgaRecheck && r.securityRecheck
  {
    hide RankingOrSeed, NeedsFallback, Candidate, OrderedWrite, ApproximateVector, Pruning, SummaryPrune, NonRuntime,
         RouteSupports, Capability.FamilyComplete;
    forall r <- RouteStates(f, c)
      ensures r == BuildRouteState(r.route, f, c)
      ensures r.supported ==> c.FamilyComplete() && !NonRuntime(f)
    {
      SupportedRuns(r.route, f, c);
    }
  }

  lemma SupportedRuns(route: Route, f: Family, c: Capability)
    ensures RouteSupports(route, f, c) ==> c.FamilyComplete() && !NonRuntime(f)
  {
    hide Capability.FamilyComplete;
  }

  /** The supported and unsupported routes split the routes in two. */
  lemma RoutesPartitioned(f: Family, c: Capability)
    ensures var s := Summarize(RouteStates(f, c));
            s.supported !! s.unsupported && forall r <- ROUTES :: r in s.supported || r in s.unsupported
  {
    var routes := RouteStates(f, c);
    assert forall r <- routes :: r == BuildRouteState(r.route, f, c);
    forall r <- ROUTES
      ensures BuildRouteState(r, f, c) in routes
    {
      var k :| 0 <= k < |ROUTES| && ROUTES[k] == r;
      assert routes[k] == BuildRouteState(r, f, c);
    }
  }

  // ----- classifications -------------------------------------------------------------

  datatype SemanticClass =
    | ExactCandidate | HashEqualityCandidate | BitmapCandidate | TokenRankingCandidate | TokenCandidate
    | SpatialCandidate | VectorExactCandidate | VectorApproximateCandidate | DocumentPathCandidate
    | GraphSeedCandidate | BloomNegativePrune | SummarySegmentPrune | TemporaryWorkCandidate | InMemoryCandidate
    | ReferenceNonRuntime | PolicyNonRuntime | Unsupported

  function SemanticClassOf(f: Family): SemanticClass {
    if OrderedWrite(f) then ExactCandidate
    else if f == Hash then HashEqualityCandidate
    else if f == Bitmap then BitmapCandidate
    else if f == SparseWand then TokenRankingCandidate
    else if f in {FullText, Gin, Inverted, Ngram} then TokenCandidate
    else if SpatialFamily(f) then SpatialCandidate
    else if f == VectorExact then VectorExactCandidate
    else if ApproximateVector(f) then VectorApproximateCandidate
    else if f == DocumentPath then DocumentPathCandidate
    else if f == Graph then GraphSeedCandidate
    else if f == Bloom then BloomNegativePrune
    else if SummaryPrune(f) then SummarySegmentPrune
    else if f == TemporaryWork then TemporaryWorkCandidate
    else if f == InMemory then InMemoryCandidate
    else if f == ReferenceEmulated then ReferenceNonRuntime
    else if f == PolicyBlocked then PolicyNonRuntime
    else Unsupported
  }

  datatype Provider =
    | PolicyProvider | ReferenceProvider | TemporaryProvider | InMemoryProvider | BloomProvider | SummaryProvider
    | BitmapProvider | TokenRankingProvider | TokenProvider | ApproximateVectorProvider | VectorExactProvider
    | SpatialProvider | DocumentProvider | GraphProvider | ExactNativeProvider

  function ProviderOf(d: Descriptor): Provider {
    if d.persistence == PolicyClass then PolicyProvider
    else if d.persistence == ReferenceClass then ReferenceProvider
    else if d.persistence == MemoryOnly then TemporaryProvider
    else if d.persistence == MemoryPrimary then InMemoryProvider
    else if d.family == Bloom then BloomProvider
    else if SummaryPrune(d.family) then SummaryProvider
    else if d.family == Bitmap then BitmapProvider
    else if d.family == SparseWand then TokenRankingProvider
    else if TokenSearch(d.family) then TokenProvider
    else if ApproximateVector(d.family) then ApproximateVectorProvider
    else if d.family == VectorExact then VectorExactProvider
    else if SpatialFamily(d.family) then SpatialProvider
    else if d.family == DocumentPath then DocumentProvider
    else if d.family == Graph then GraphProvider
    else ExactNativeProvider
  }

  // ----- the three classifications of a family agree -----------------------------------

  /** The families of each semantic class. */
  lemma ClassMeans(f: Family)
    ensures match SemanticClassOf(f)
            case ExactCandidate => f in {Btree, UniqueBtree, Expression, Partial, Covering}
            case HashEqualityCandidate => f == Hash
            case BitmapCandidate => f == Bitmap
            case TokenRankingCandidate => f == SparseWand
            case TokenCandidate => f in {FullText, Gin, Inverted, Ngram}
            case SpatialCandidate => f in {Spatial, Rtree, Gist, Spgist}
            case VectorExactCandidate => f == VectorExact
            case VectorApproximateCandidate => f in {VectorHnsw, VectorIvf}
            case DocumentPathCandidate => f == DocumentPath
            case GraphSeedCandidate => f == Graph
            case BloomNegativePrune => f == Bloom
            case SummarySegmentPrune => f in {BrinZone, ColumnarZone}
            case TemporaryWorkCandidate => f == TemporaryWork
            case InMemoryCandidate => f == InMemory
            case ReferenceNonRuntime => f == ReferenceEmulated
            case PolicyNonRuntime => f == PolicyBlocked
            case Unsupported => f.OtherFamily?
  {
  }

  /** The traits that routes and proofs go by are fixed by the semantic class. */
  lemma TraitsFollowClass(f: Family)
    ensures var k := SemanticClassOf(f);
            && (OrderedWrite(f) <==> k == ExactCandidate)
            && (TokenSearch(f) <==> k in {TokenCandidate, TokenRankingCandidate})
            && (Vector(f) <==> k in {VectorExactCandidate, VectorApproximateCandidate})
            && (ApproximateVector(f) <==> k == VectorApproximateCandidate)
            && (SpatialFamily(f) <==> k == SpatialCandidate)
            && (SummaryPrune(f) <==> k == SummarySegmentPrune)
            && (Pruning(f) <==> k in {BloomNegativePrune, SummarySegmentPrune})
            && (NonRuntime(f) <==> k in {ReferenceNonRuntime, PolicyNonRuntime})
            && (NeedsRerank(f) <==> k in {VectorApproximateCandidate, TokenRankingCandidate})
  {
  }

  lemma CandidatesFollowClass(f: Family)
    ensures var k := SemanticClassOf(f);
            && (Candidate(f) <==> k in {BitmapCandidate, DocumentPathCandidate, GraphSeedCandidate, TokenCandidate,
                                        TokenRankingCandidate, VectorExactCandidate, VectorApproximateCandidate,
                                        SpatialCandidate})
            && (Specialized(f) <==> Candidate(f) || Pruning(f))
            && (NeedsFallback(f) <==> Specialized(f) && k != VectorExactCandidate)
            && (RankingOrSeed(f) <==> Candidate(f) && k !in {BitmapCandidate, TokenCandidate})
            && (EqualityLookup(f) <==> k in {ExactCandidate, HashEqualityCandidate, DocumentPathCandidate,
                                             GraphSeedCandidate})
  {
    TraitsFollowClass(f);
    hide OrderedWrite, TokenSearch, Vector, ApproximateVector, SpatialFamily, SummaryPrune;
    ClassMeans(f);
  }

  /** A persistent family's provider follows its class; the other persistence classes have providers of their own. */
  lemma ProviderFollowsClass(d: Descriptor)
    ensures d.persistence == PolicyClass <==> ProviderOf(d) == PolicyProvider
    ensures d.persistence == ReferenceClass <==> ProviderOf(d) == ReferenceProvider
    ensures d.persistence == MemoryOnly <==> ProviderOf(d) == TemporaryProvider
    ensures d.persistence == MemoryPrimary <==> ProviderOf(d) == InMemoryProvider
    ensures d.persistence !in {PolicyClass, ReferenceClass, MemoryOnly, MemoryPrimary} ==>
              ProviderOf(d) ==
              match SemanticClassOf(d.family)
              case BloomNegativePrune => BloomProvider
              case SummarySegmentPrune => SummaryProvider
              case BitmapCandidate => BitmapProvider
              case TokenRankingCandidate => TokenRankingProvider
              case TokenCandidate => TokenProvider
              case VectorApproximateCandidate => ApproximateVectorProvider
              case VectorExactCandidate => VectorExactProvider
              case SpatialCandidate => SpatialProvider
              case DocumentPathCandidate => DocumentProvider
              case GraphSeedCandidate => GraphProvider
              case _ => ExactNativeProvider
  {
    ClassMeans(d.family);
    TraitsFollowClass(d.family);
    hide OrderedWrite, TokenSearch, ApproximateVector, SpatialFamily, SummaryPrune, SemanticClassOf;
  }

  // ----- which routes serve a family ------------------------------------------------------

  /** Everything about the family is implemented, available and without a blocker. */
  predicate Ready(c: Capability) {
    && c.implemented && c.reader && c.writer && c.maintenance && c.validate && c.repair && c.reopen && c.rebuild
    && c.runtimeAvailable && c.benchmarkClean && c.blocker == "none"
  }

  /** Which ready families a route serves: writes the ordered ones, document to search their own, the others all. */
  lemma RouteServes(route: Route, f: Family, c: Capability)
    ensures var k := SemanticClassOf(f);
            BuildRouteState(route, f, c).supported <==>
            Ready(c) &&
            match route
            case DmlInsert | DmlUpdate | DmlDelete => k == ExactCandidate
            case SqlSelect | BulkBuild | Maintenance | ValidateRepair => k !in {ReferenceNonRuntime, PolicyNonRuntime}
            case NosqlDocument => k == DocumentPathCandidate
            case NosqlGraph => k == GraphSeedCandidate
            case NosqlVector => k in {VectorExactCandidate, VectorApproximateCandidate}
            case NosqlSearch => k in {TokenCandidate, TokenRankingCandidate}
  {
    TraitsFollowClass(f);
    ClassMeans(f);
    hide OrderedWrite, TokenSearch, Vector, NonRuntime, SemanticClassOf, Candidate, ApproximateVector, SpatialFamily,
         SummaryPrune, RankingOrSeed, EqualityLookup, NeedsFallback, NeedsRerank;
  }

  /** A supported route does exactly one of reading, writing and building; reopening and mutation go with the route. */
  lemma RouteDoes(route: Route, f: Family, c: Capability)
    ensures var r := BuildRouteState(route, f, c);
            && r.route == route
            && (r.write <==> r.supported && route in {DmlInsert, DmlUpdate, DmlDelete})
            && (r.bulkBuild <==> r.supported && route == BulkBuild)
            && (r.read <==> r.supported && !r.write && !r.bulkBuild)
            && (r.reopen <==> r.supported && route in {BulkBuild, Maintenance, ValidateRepair})
            && (r.mutation <==> r.write || (r.supported && route == Maintenance))
            && (r.equality <==> r.supported && EqualityLookup(f))
            && (r.exactRerank <==> r.supported && NeedsRerank(f))
  {
    hide RouteSupports, OrderedWrite, TokenSearch, Vector, NonRuntime, Candidate, ApproximateVector, SpatialFamily,
         SummaryPrune, RankingOrSeed, EqualityLookup, NeedsFallback, NeedsRerank;
  }
}
