/** The reconciliation of a driver matrix: planned combinations against the results of all shards. */
module MatrixFinalizer {
  import opened Text
  import opened Ordering
  import opened Lists

  /** A result row; `parts` are the ordinal, driver, route, TLS mode, page size, parser and concurrency modes. */
  datatype Row = Row(id: Option<string>, parts: seq<string>, status: string)

  /** A report, with the row files it points to when they can be read. */
  datatype Report = Report(resultFile: Option<seq<Row>>, results: seq<Row>, failureFile: Option<seq<Row>>)

  function CombinationId(r: Row): string {
    if r.id.Some? && r.id.value != "" then r.id.value else Join(r.parts, "|")
  }

  function ResultRows(report: Report): seq<Row> {
    if report.resultFile.Some? then report.resultFile.value else report.results
  }

  predicate IsFailure(r: Row) {
    r.status !in {"pass", "planned"}
  }

  function FailureOf(r: Row): seq<Row> {
    if IsFailure(r) then [r] else []
  }

  function FailureRows(report: Report): seq<Row> {
    if report.failureFile.Some? then report.failureFile.value else FlatMap(ResultRows(report), FailureOf)
  }

  function PassId(r: Row): seq<string> {
    if r.status == "pass" then [CombinationId(r)] else []
  }

  function PlannedId(r: Row): seq<string> {
    if r.status == "planned" then [CombinationId(r)] else []
  }

  /** The rows, the failures and the passing ids of all shards. */
  function AllRows(shards: seq<Report>): seq<Row> {
    FlatMap(shards, ResultRows)
  }

  function AllFailures(shards: seq<Report>): seq<Row> {
    FlatMap(shards, FailureRows)
  }

  function Passed(shards: seq<Report>): seq<string> {
    FlatMap(AllRows(shards), PassId)
  }

  function Planned(plan: Report): set<string> {
    AsSet(FlatMap(ResultRows(plan), PlannedId))
  }

  function Ids(rows: seq<Row>): set<string> {
    set r | r in rows :: CombinationId(r)
  }

  /** The ids that come after an equal one. */
  function Repeated(ids: seq<string>): seq<string> {
    if ids == [] then []
    else
      var n := |ids| - 1;
      Repeated(ids[..n]) + if ids[n] in ids[..n] then [ids[n]] else []
  }

  datatype Verdict = Verdict(pass: bool, missing: set<string>, unexpected: set<string>, failed: set<string>,
                             repeated: seq<string>)

  function Reconciled(plan: Report, shards: seq<Report>): Verdict {
    var expected, passed := Planned(plan), Passed(shards);
    var missing, unexpected := expected - AsSet(passed), AsSet(passed) - expected;
    var failed, repeated := expected * Ids(AllFailures(shards)), Repeated(passed);
    Verdict(missing == {} && unexpected == {} && failed == {} && repeated == [], missing, unexpected, failed, repeated)
  }

  // ----- the loops --------------------------------------------------------------

  method ReadFailures(report: Report) returns (failures: seq<Row>)
    ensures failures == FailureRows(report)
  {
    if report.failureFile.Some? {
      return report.failureFile.value;
    }
    var rows := ResultRows(report);
    failures := [];
    for k := 0 to |rows|
      invariant failures == FlatMap(rows[..k], FailureOf)
    {
      FlatMapNext(rows, k, FailureOf);
      if IsFailure(rows[k]) {
        failures := failures + [rows[k]];
      }
    }
    assert rows[..|rows|] == rows;
  }

  lemma OneMore(ids: seq<string>, cid: string)
    ensures AsSet(ids + [cid]) == AsSet(ids) + {cid}
    ensures Repeated(ids + [cid]) == Repeated(ids) + if cid in ids then [cid] else []
  {
    assert (ids + [cid])[..|ids|] == ids;
  }

  /** The loop over the rows of one shard. */
  method AddPasses(rows: seq<Row>, seen0: set<string>, repeated0: seq<string>, ghost ids: seq<string>)
    returns (seen: set<string>, repeated: seq<string>)
    requires seen0 == AsSet(ids) && repeated0 == Repeated(ids)
    ensures seen == AsSet(ids + FlatMap(rows, PassId)) && repeated == Repeated(ids + FlatMap(rows, PassId))
  {
    hide Repeated, CombinationId;
    seen, repeated := seen0, repeated0;
    ghost var all := ids;
    for k := 0 to |rows|
      invariant all == ids + FlatMap(rows[..k], PassId)
      invariant seen == AsSet(all) && repeated == Repeated(all)
    {
      FlatMapNext(rows, k, PassId);
      if rows[k].status == "pass" {
        var cid := CombinationId(rows[k]);
        OneMore(all, cid);
        if cid in seen {
          repeated := repeated + [cid];
        }
        seen := seen + {cid};
        all := all + [cid];
      }
    }
    assert rows[..|rows|] == rows;
  }

  method PlannedIds(rows: seq<Row>) returns (expected: set<string>)
    ensures expected == AsSet(FlatMap(rows, PlannedId))
  {
    expected := {};
    for k := 0 to |rows|
      invariant expected == AsSet(FlatMap(rows[..k], PlannedId))
    {
      FlatMapNext(rows, k, PlannedId);
      if rows[k].status == "planned" {
        expected := expected + {CombinationId(rows[k])};
      }
    }
    assert rows[..|rows|] == rows;
  }

  /** The reconciliation part of `main`. */
  method Finalize(plan: Report, shards: seq<Report>) returns (verdict: Verdict)
    ensures verdict == Reconciled(plan, shards)
  {
    hide Repeated, FailureRows, ResultRows;
    var expected := PlannedIds(ResultRows(plan));
    var seen: set<string>, repeated: seq<string>, failing: set<string> := {}, [], {};
    NothingYet();
    for k := 0 to |shards|
      invariant seen == AsSet(Passed(shards[..k])) && repeated == Repeated(Passed(shards[..k]))
      invariant failing == Ids(AllFailures(shards[..k]))
    {
      NextShard(shards, k);
      var failures := ReadFailures(shards[k]);
      seen, repeated := AddPasses(ResultRows(shards[k]), seen, repeated, Passed(shards[..k]));
      failing := failing + Ids(failures);
    }
    assert shards[..|shards|] == shards;
    var missing, unexpected, failed := expected - seen, seen - expected, expected * failing;
    verdict := Verdict(missing == {} && unexpected == {} && failed == {} && repeated == [],
                       missing, unexpected, failed, repeated);
  }

  lemma NothingYet()
    ensures Passed([]) == [] && Repeated([]) == []
  {
  }

  lemma NextShard(shards: seq<Report>, k: nat)
    requires k < |shards|
    ensures Passed(shards[..k + 1]) == Passed(shards[..k]) + FlatMap(ResultRows(shards[k]), PassId)
    ensures AllFailures(shards[..k + 1]) == AllFailures(shards[..k]) + FailureRows(shards[k])
    ensures Ids(AllFailures(shards[..k + 1])) == Ids(AllFailures(shards[..k])) + Ids(FailureRows(shards[k]))
  {
    hide ResultRows, FailureRows;
    FlatMapNext(shards, k, ResultRows);
    FlatMapNext(shards, k, FailureRows);
    FlatMapAppend(AllRows(shards[..k]), ResultRows(shards[k]), PassId);
  }

  // ----- what a pass means ---------------------------------------------------------

  lemma {:induction false} NothingRepeated(ids: seq<string>)
    ensures Repeated(ids) == [] <==> Distinct(ids)
  {
    if ids != [] {
      var n := |ids| - 1;
      NothingRepeated(ids[..n]);
      DistinctLast(ids);
    }
  }

  lemma DistinctLast(ids: seq<string>)
    requires ids != []
    ensures var n := |ids| - 1; Distinct(ids) <==> Distinct(ids[..n]) && ids[n] !in ids[..n]
  {
  }

  lemma OnceEach(ids: seq<string>, expected: set<string>)
    ensures Distinct(ids) && AsSet(ids) == expected <==> multiset(ids) == multiset(expected)
  {
    if Distinct(ids) && AsSet(ids) == expected {
      forall x
        ensures multiset(ids)[x] == multiset(expected)[x]
      {
        DistinctMultiset(ids, x);
        assert x in AsSet(ids) <==> x in ids;
      }
    }
    if multiset(ids) == multiset(expected) {
      DistinctWhen(ids);
      forall x
        ensures x in AsSet(ids) <==> x in expected
      {
        assert x in ids <==> x in multiset(ids);
      }
    }
  }

  /** The matrix passes iff each planned id passes once, nothing else passes, and no planned id fails. */
  lemma PassIff(plan: Report, shards: seq<Report>)
    ensures Reconciled(plan, shards).pass <==>
            && multiset(Passed(shards)) == multiset(Planned(plan))
            && forall id <- Planned(plan) :: id !in Ids(AllFailures(shards))
  {
    hide Passed, Planned, Repeated, Ids, AllFailures;
    var expected, passed := Planned(plan), Passed(shards);
    NothingRepeated(passed);
    OnceEach(passed, expected);
    assert expected - AsSet(passed) == {} && AsSet(passed) - expected == {} <==> AsSet(passed) == expected;
    var failed := Ids(AllFailures(shards));
    assert expected * failed == {} <==> forall id <- expected :: id !in failed by {
      assert forall id :: id in expected * failed <==> id in expected && id in failed;
    }
  }

  // ----- what it does not depend on ---------------------------------------------------

  /** The verdict depends only on which rows and which failures there are, not on the shards they are in. */
  lemma ShardingDoesNotMatter(plan: Report, a: seq<Report>, b: seq<Report>)
    requires multiset(AllRows(a)) == multiset(AllRows(b))
    requires Ids(AllFailures(a)) == Ids(AllFailures(b))
    ensures Reconciled(plan, a).pass == Reconciled(plan, b).pass
  {
    hide Reconciled, AllRows, AllFailures, Ids, Planned;
    PassIff(plan, a);
    PassIff(plan, b);
    FlatMapPermutation(AllRows(a), AllRows(b), PassId);
  }

  /** Reading the shards in another order gives the same verdict. */
  lemma ShardOrderDoesNotMatter(plan: Report, a: seq<Report>, b: seq<Report>)
    requires multiset(a) == multiset(b)
    ensures Reconciled(plan, a).pass == Reconciled(plan, b).pass
  {
    hide Reconciled, FlatMap;
    FlatMapPermutation(a, b, ResultRows);
    FlatMapPermutation(a, b, FailureRows);
    SameIds(AllFailures(a), AllFailures(b));
    ShardingDoesNotMatter(plan, a, b);
  }

  lemma SameIds(x: seq<Row>, y: seq<Row>)
    requires multiset(x) == multiset(y)
    ensures Ids(x) == Ids(y)
  {
    forall r
      ensures r in x <==> r in y
    {
      assert r in x <==> r in multiset(x);
      assert r in y <==> r in multiset(y);
    }
  }

  // ----- the verdict in terms of the rows ----------------------------------------------

  /** A row without an id of its own is identified by its parts, which its id gives back. */
  lemma IdentifiedBy(r: Row)
    ensures r.id.Some? && r.id.value != "" ==> CombinationId(r) == r.id.value
    ensures r.id in {None, Some("")} && r.parts != [] && (forall p <- r.parts :: '|' !in p) ==>
              Split(CombinationId(r), '|') == r.parts
  {
    hide Split, Join;
    assert ['|'] == "|";
    if r.parts != [] && forall p <- r.parts :: '|' !in p {
      JoinSplits(r.parts, '|');
    }
  }

  /** The rows of all shards: of each, those of its result file if it has one, else its results. */
  ghost predicate InShards(r: Row, shards: seq<Report>) {
    exists s <- shards :: r in if s.resultFile.Some? then s.resultFile.value else s.results
  }

  /** The failures: of each shard, those of its failure file if it has one, else the rows neither passed nor planned. */
  ghost predicate FailsIn(r: Row, shards: seq<Report>) {
    exists s <- shards ::
      if s.failureFile.Some? then r in s.failureFile.value
      else r.status != "pass" && r.status != "planned" &&
           r in if s.resultFile.Some? then s.resultFile.value else s.results
  }

  ghost predicate PlansId(plan: Report, id: string) {
    exists r <- (if plan.resultFile.Some? then plan.resultFile.value else plan.results) ::
      r.status == "planned" && CombinationId(r) == id
  }

  ghost predicate PassesId(shards: seq<Report>, id: string) {
    exists r :: InShards(r, shards) && r.status == "pass" && CombinationId(r) == id
  }

  ghost predicate FailsId(shards: seq<Report>, id: string) {
    exists r :: FailsIn(r, shards) && CombinationId(r) == id
  }

  lemma {:induction false} InFlatMap<T, U>(s: seq<T>, f: T -> seq<U>, u: U)
    ensures u in FlatMap(s, f) <==> exists x <- s :: u in f(x)
  {
    if s != [] {
      var n := |s| - 1;
      InFlatMap(s[..n], f, u);
      assert s == s[..n] + [s[n]];
    }
  }

  lemma AllRowsAre(shards: seq<Report>, r: Row)
    ensures r in AllRows(shards) <==> InShards(r, shards)
  {
    InFlatMap(shards, ResultRows, r);
  }

  lemma AllFailuresAre(shards: seq<Report>, r: Row)
    ensures r in AllFailures(shards) <==> FailsIn(r, shards)
  {
    InFlatMap(shards, FailureRows, r);
    forall s <- shards
      ensures r in FailureRows(s) <==>
              if s.failureFile.Some? then r in s.failureFile.value
              else r.status != "pass" && r.status != "planned" &&
                   r in if s.resultFile.Some? then s.resultFile.value else s.results
    {
      InFlatMap(ResultRows(s), FailureOf, r);
    }
  }

  lemma PassedAre(shards: seq<Report>, id: string)
    ensures id in Passed(shards) <==> PassesId(shards, id)
  {
    hide CombinationId, AllRows, InShards;
    InFlatMap(AllRows(shards), PassId, id);
    forall r
      ensures r in AllRows(shards) <==> InShards(r, shards)
    {
      AllRowsAre(shards, r);
    }
    if PassesId(shards, id) {
      var r :| InShards(r, shards) && r.status == "pass" && CombinationId(r) == id;
      assert r in AllRows(shards) && id in PassId(r);
    }
    if exists r <- AllRows(shards) :: id in PassId(r) {
      var r :| r in AllRows(shards) && id in PassId(r);
      assert InShards(r, shards);
    }
  }

  lemma PlannedAre(plan: Report, id: string)
    ensures id in Planned(plan) <==> PlansId(plan, id)
  {
    hide CombinationId;
    InFlatMap(ResultRows(plan), PlannedId, id);
    if exists r <- ResultRows(plan) :: id in PlannedId(r) {
      var r :| r in ResultRows(plan) && id in PlannedId(r);
      assert r.status == "planned" && CombinationId(r) == id;
    }
    if PlansId(plan, id) {
      var r :| r in ResultRows(plan) && r.status == "planned" && CombinationId(r) == id;
      assert id in PlannedId(r);
    }
  }

  lemma FailedAre(shards: seq<Report>, id: string)
    ensures id in Ids(AllFailures(shards)) <==> FailsId(shards, id)
  {
    hide CombinationId, AllFailures, FailsIn;
    forall r
      ensures r in AllFailures(shards) <==> FailsIn(r, shards)
    {
      AllFailuresAre(shards, r);
    }
    if FailsId(shards, id) {
      var r :| FailsIn(r, shards) && CombinationId(r) == id;
      assert r in AllFailures(shards);
    }
    if id in Ids(AllFailures(shards)) {
      var r :| r in AllFailures(shards) && CombinationId(r) == id;
      assert FailsIn(r, shards);
    }
  }

  /** How often an id passes is the number of passing rows it identifies. */
  function PassCount(rows: seq<Row>, id: string): nat {
    if rows == [] then 0
    else
      var r := rows[|rows| - 1];
      PassCount(rows[..|rows| - 1], id) + if r.status == "pass" && CombinationId(r) == id then 1 else 0
  }

  lemma {:induction false} PassesCounted(rows: seq<Row>, id: string)
    ensures multiset(FlatMap(rows, PassId))[id] == PassCount(rows, id)
  {
    hide CombinationId;
    if rows != [] {
      PassesCounted(rows[..|rows| - 1], id);
    }
  }

  lemma {:induction false} RepeatedAre(ids: seq<string>, id: string)
    ensures multiset(Repeated(ids))[id] == if id in ids then multiset(ids)[id] - 1 else 0
  {
    if ids != [] {
      var n := |ids| - 1;
      RepeatedAre(ids[..n], id);
      assert ids == ids[..n] + [ids[n]];
      assert id in ids[..n] <==> multiset(ids[..n])[id] > 0;
    }
  }

  /** Each list of the verdict, in terms of the plan's and the shards' rows. */
  lemma VerdictMeans(plan: Report, shards: seq<Report>, id: string)
    ensures var v := Reconciled(plan, shards);
            && (id in v.missing <==> PlansId(plan, id) && !PassesId(shards, id))
            && (id in v.unexpected <==> PassesId(shards, id) && !PlansId(plan, id))
            && (id in v.failed <==> PlansId(plan, id) && FailsId(shards, id))
            && (id in v.repeated <==> PassCount(AllRows(shards), id) > 1)
            && (v.pass <==> v.missing == {} && v.unexpected == {} && v.failed == {} && v.repeated == [])
  {
    hide Planned, PlansId, PassesId, FailsId, Ids, AllFailures, AllRows, Repeated, PassCount;
    PlannedAre(plan, id);
    PassedAre(shards, id);
    FailedAre(shards, id);
    var passed := Passed(shards);
    RepeatedAre(passed, id);
    PassesCounted(AllRows(shards), id);
    assert id in Reconciled(plan, shards).repeated <==> multiset(Repeated(passed))[id] > 0;
    assert id in passed <==> multiset(passed)[id] > 0;
  }

  /** The matrix passes iff every planned id is that of exactly one passing row, every other of none, and none fails. */
  lemma PassMeans(plan: Report, shards: seq<Report>)
    ensures Reconciled(plan, shards).pass <==>
            && (forall id :: PassCount(AllRows(shards), id) == if PlansId(plan, id) then 1 else 0)
            && (forall id :: PlansId(plan, id) ==> !FailsId(shards, id))
  {
    hide Planned, PlansId, FailsId, Ids, AllFailures, AllRows, Reconciled, PassCount;
    PassIff(plan, shards);
    forall id
      ensures multiset(Passed(shards))[id] == PassCount(AllRows(shards), id)
      ensures multiset(Planned(plan))[id] == if PlansId(plan, id) then 1 else 0
      ensures id in Planned(plan) <==> PlansId(plan, id)
      ensures id in Ids(AllFailures(shards)) <==> FailsId(shards, id)
    {
      PassesCounted(AllRows(shards), id);
      PlannedAre(plan, id);
      FailedAre(shards, id);
    }
    if forall id :: PassCount(AllRows(shards), id) == if PlansId(plan, id) then 1 else 0 {
      forall id
        ensures multiset(Passed(shards))[id] == multiset(Planned(plan))[id]
      {
        assert PassCount(AllRows(shards), id) == if PlansId(plan, id) then 1 else 0;
      }
      assert multiset(Passed(shards)) == multiset(Planned(plan));
    }
  }
}
