/** The report of a phase trace does not depend on the order of its lines. */
module PhaseTraceOrder {
  import opened Text
  import opened Ordering
  import opened Lists
  import opened Statistics
  import opened PhaseTrace
  import opened PhaseTraceCounts

  // ----- reading ------------------------------------------------------------------

  /** The reader has no complaint about the line itself. */
  predicate LineOk(line: string) {
    EndsWith(line, "\n") && (IsBlank(line) || ParseRecord(line).Good?)
  }

  /** The record a line gives, if any. */
  function RecordsIn(line: string): seq<Record> {
    if IsBlank(line) || ParseRecord(line).Fail? then [] else [ParseRecord(line).record]
  }

  ghost predicate AllOk(lines: seq<string>) {
    forall l <- lines :: LineOk(l)
  }

  lemma AllOkLast(lines: seq<string>)
    requires lines != []
    ensures AllOk(lines) <==> AllOk(lines[..|lines| - 1]) && LineOk(lines[|lines| - 1])
  {
    hide LineOk;
    assert lines == lines[..|lines| - 1] + [lines[|lines| - 1]];
  }

  /** What the last line adds to a reading that is within the limit. */
  lemma ReadLast(lines: seq<string>, limit: nat)
    requires lines != []
    ensures var before, l := ReadAll(lines[..|lines| - 1], limit), lines[|lines| - 1];
            var r := ReadAll(lines, limit);
            && (before.Stop? ==> r.Stop?)
            && (before.Read? && |before.records| <= limit ==>
                  (r.Read? <==> LineOk(l) && |before.records + RecordsIn(l)| <= limit))
            && (before.Read? && r.Read? ==> r.records == before.records + RecordsIn(l))
  {
    hide ParseRecord, IsBlank, EndsWith;
  }

  /** A file is read iff every line is in order and the records are within the limit. */
  lemma {:induction false} ReadIff(lines: seq<string>, limit: nat)
    ensures ReadAll(lines, limit).Read? <==> AllOk(lines) && |FlatMap(lines, RecordsIn)| <= limit
    ensures ReadAll(lines, limit).Read? ==> ReadAll(lines, limit).records == FlatMap(lines, RecordsIn)
  {
    if lines != [] {
      hide ReadAll, LineOk, RecordsIn, AllOk;
      ReadIff(lines[..|lines| - 1], limit);
      AllOkLast(lines);
      ReadLast(lines, limit);
    }
  }

  // ----- grouping -------------------------------------------------------------------

  function ValuesIn(r: Record, g: GroupKey, phase: string): seq<nat> {
    if KeyOf(r) == g then Of(r.timings, phase) else []
  }

  lemma {:induction false} ValuesAreFlat(records: seq<Record>, g: GroupKey, phase: string, f: Record -> seq<nat>)
    requires forall r :: f(r) == ValuesIn(r, g, phase)
    ensures Values(records, g, phase) == FlatMap(records, f)
  {
    if records != [] {
      ValuesAreFlat(records[..|records| - 1], g, phase, f);
    }
  }

  lemma ValuesOfPermutation(a: seq<Record>, b: seq<Record>, g: GroupKey, phase: string)
    requires multiset(a) == multiset(b)
    ensures multiset(Values(a, g, phase)) == multiset(Values(b, g, phase))
    ensures |Values(a, g, phase)| == |Values(b, g, phase)|
  {
    hide ValuesIn;
    var f := (r: Record) => ValuesIn(r, g, phase);
    ValuesAreFlat(a, g, phase, f);
    ValuesAreFlat(b, g, phase, f);
    FlatMapPermutation(a, b, f);
    assert |multiset(Values(a, g, phase))| == |multiset(Values(b, g, phase))|;
  }

  /** The groups have the same phases, and each phase the same samples in some order. */
  ghost predicate SameSamples(a: Groups, b: Groups) {
    && a.Keys == b.Keys
    && forall g <- a :: SamePhases(a[g], b[g])
  }

  ghost predicate SamePhases(a: map<string, seq<nat>>, b: map<string, seq<nat>>) {
    && a.Keys == b.Keys
    && forall phase <- a :: multiset(a[phase]) == multiset(b[phase])
  }

  lemma SameGroup(a: seq<Record>, b: seq<Record>, g: GroupKey)
    requires multiset(a) == multiset(b) && (forall r <- a :: Regular(r)) && forall r <- b :: Regular(r)
    ensures g in GroupsOf(a) <==> g in GroupsOf(b)
  {
    hide GroupsOf, Regular, Values;
    RegularHasTimings(a);
    RegularHasTimings(b);
    GroupsHaveRecords(a, g);
    GroupsHaveRecords(b, g);
    ValuesCount(a, g, TOTAL);
    ValuesCount(b, g, TOTAL);
    ValuesOfPermutation(a, b, g, TOTAL);
  }

  lemma PhaseIsSampled(groups: Groups, g: GroupKey, phase: string)
    requires NoEmptyPhase(groups) && g in groups
    ensures phase in groups[g] <==> Samples(groups, g, phase) != []
    ensures phase in groups[g] ==> groups[g][phase] == Samples(groups, g, phase)
  {
  }

  lemma SamePhasesOf(a: seq<Record>, b: seq<Record>, g: GroupKey)
    requires multiset(a) == multiset(b) && (forall r <- a :: Regular(r)) && forall r <- b :: Regular(r)
    requires g in GroupsOf(a) && g in GroupsOf(b)
    ensures SamePhases(GroupsOf(a)[g], GroupsOf(b)[g])
  {
    hide GroupsOf, Regular, Values, NoEmptyPhase, Samples;
    RegularHasTimings(a);
    RegularHasTimings(b);
    GroupsHaveRecords(a, g);
    GroupsHaveRecords(b, g);
    forall phase
      ensures phase in GroupsOf(a)[g] <==> phase in GroupsOf(b)[g]
      ensures phase in GroupsOf(a)[g] ==> multiset(GroupsOf(a)[g][phase]) == multiset(GroupsOf(b)[g][phase])
    {
      PhaseIsSampled(GroupsOf(a), g, phase);
      PhaseIsSampled(GroupsOf(b), g, phase);
      GroupsHold(a, g, phase);
      GroupsHold(b, g, phase);
      ValuesOfPermutation(a, b, g, phase);
    }
  }

  lemma GroupsOfPermutation(a: seq<Record>, b: seq<Record>)
    requires multiset(a) == multiset(b) && (forall r <- a :: Regular(r)) && forall r <- b :: Regular(r)
    ensures SameSamples(GroupsOf(a), GroupsOf(b))
  {
    hide GroupsOf, Regular, SamePhases;
    forall g
      ensures g in GroupsOf(a) <==> g in GroupsOf(b)
      ensures g in GroupsOf(a) ==> SamePhases(GroupsOf(a)[g], GroupsOf(b)[g])
    {
      SameGroup(a, b, g);
      if g in GroupsOf(a) {
        SamePhasesOf(a, b, g);
      }
    }
  }

  // ----- reporting -------------------------------------------------------------------

  lemma {:induction false} PhaseListSame(keys: seq<string>, a: map<string, seq<nat>>, b: map<string, seq<nat>>)
    requires SamePhases(a, b) && forall k <- keys :: k in a
    ensures PhaseList(keys, a) == PhaseList(keys, b)
  {
    hide Compute;
    if keys != [] {
      StatisticsOfPermutation(a[keys[0]], b[keys[0]]);
      PhaseListSame(keys[1..], a, b);
    }
  }

  lemma OperationSame(g: GroupKey, a: Groups, b: Groups)
    requires SameSamples(a, b) && g in a
    ensures OperationOf(g, a) == OperationOf(g, b)
  {
    hide StringLeq, PhaseList;
    StringOrder();
    PhaseListSame(Listing(a[g].Keys, StringLeq), a[g], b[g]);
    if TOTAL in a[g] {
      assert |multiset(a[g][TOTAL])| == |multiset(b[g][TOTAL])|;
    }
  }

  lemma {:induction false} OperationListSame(keys: seq<GroupKey>, a: Groups, b: Groups)
    requires SameSamples(a, b) && forall k <- keys :: k in a
    ensures OperationList(keys, a) == OperationList(keys, b)
  {
    hide OperationOf, SamePhases;
    if keys != [] {
      OperationSame(keys[0], a, b);
      OperationListSame(keys[1..], a, b);
    }
  }

  /** An accepted file gives the same report with its lines in any other order, and a refused one stays refused. */
  lemma ReportOfPermutation(a: seq<string>, b: seq<string>, limit: int)
    requires multiset(a) == multiset(b)
    ensures if Summarized(a, limit).Report? then Summarized(b, limit) == Summarized(a, limit)
            else Summarized(b, limit).Refused?
  {
    hide LineOk, RecordsIn, GroupsOf, OperationList, ReadAll, GroupLeq, Regular, SameSamples;
    if limit >= 1 {
      ReadIff(a, limit);
      ReadIff(b, limit);
      FlatMapPermutation(a, b, RecordsIn);
      var x, y := FlatMap(a, RecordsIn), FlatMap(b, RecordsIn);
      assert |multiset(x)| == |multiset(y)|;
      assert forall l :: l in a <==> l in multiset(a);
      assert forall l :: l in b <==> l in multiset(b);
      if ReadAll(a, limit).Read? && x != [] {
        AllRegular(a, limit);
        AllRegular(b, limit);
        GroupOrder();
        GroupsOfPermutation(x, y);
        SameKeys(GroupsOf(x), GroupsOf(y));
        OperationListSame(Listing(GroupsOf(x).Keys, GroupLeq), GroupsOf(x), GroupsOf(y));
      }
    }
  }

  lemma SameKeys(a: Groups, b: Groups)
    requires SameSamples(a, b)
    ensures a.Keys == b.Keys
  {
  }
}
