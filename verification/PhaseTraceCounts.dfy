/** What the groups of an accepted trace hold, and how their counts add up. */
module PhaseTraceCounts {
  import opened Text
  import opened Ordering
  import opened Tally
  import opened Statistics
  import opened PhaseTrace

  /** The values a record gives for a phase. */
  function Of(timings: seq<Timing>, phase: string): seq<nat> {
    if timings == [] then []
    else
      var n := |timings| - 1;
      Of(timings[..n], phase) + if timings[n].key == phase then [timings[n].value] else []
  }

  /** The values of a phase over all records of a group, in file order. */
  function Values(records: seq<Record>, g: GroupKey, phase: string): seq<nat> {
    if records == [] then []
    else
      var n := |records| - 1;
      Values(records[..n], g, phase) + if KeyOf(records[n]) == g then Of(records[n].timings, phase) else []
  }

  lemma {:induction false} AddTimingsHold(groups: Groups, g: GroupKey, timings: seq<Timing>, h: GroupKey, phase: string)
    ensures Samples(AddTimings(groups, g, timings), h, phase) ==
            Samples(groups, h, phase) + if h == g then Of(timings, phase) else []
  {
    if timings != [] {
      AddTimingsHold(groups, g, timings[..|timings| - 1], h, phase);
    }
  }

  /** A group holds, for each phase, exactly the values of its records in file order. */
  lemma {:induction false} GroupsHold(records: seq<Record>, g: GroupKey, phase: string)
    ensures Samples(GroupsOf(records), g, phase) == Values(records, g, phase)
  {
    hide AddTimings;
    if records != [] {
      var n := |records| - 1;
      GroupsHold(records[..n], g, phase);
      AddTimingsHold(GroupsOf(records[..n]), KeyOf(records[n]), records[n].timings, g, phase);
    }
  }

  ghost predicate NoEmptyPhase(groups: Groups) {
    forall g <- groups :: forall phase <- groups[g] :: groups[g][phase] != []
  }

  lemma {:induction false} AddTimingsKeys(groups: Groups, g: GroupKey, timings: seq<Timing>)
    requires NoEmptyPhase(groups)
    ensures NoEmptyPhase(AddTimings(groups, g, timings))
    ensures AddTimings(groups, g, timings).Keys == groups.Keys + if timings == [] then {} else {g}
  {
    if timings != [] {
      AddTimingsKeys(groups, g, timings[..|timings| - 1]);
    }
  }

  lemma {:induction false} GroupsHaveRecords(records: seq<Record>, g: GroupKey)
    requires forall r <- records :: r.timings != []
    ensures NoEmptyPhase(GroupsOf(records))
    ensures g in GroupsOf(records) <==> CountIn(records, KeyOf, {g}) > 0
  {
    hide AddTimings, NoEmptyPhase;
    if records != [] {
      var n := |records| - 1;
      assert records[n] in records;
      GroupsHaveRecords(records[..n], g);
      AddTimingsKeys(GroupsOf(records[..n]), KeyOf(records[n]), records[n].timings);
    } else {
      assert NoEmptyPhase(map[]) by {
        NothingEmpty();
      }
    }
  }

  lemma NothingEmpty()
    ensures NoEmptyPhase(map[])
  {
  }

  // ----- every accepted record has one total and no phase twice ----------------------

  ghost predicate Regular(r: Record) {
    |Of(r.timings, TOTAL)| == 1 && forall phase :: |Of(r.timings, phase)| <= 1
  }

  lemma {:induction false} FieldsDistinct(tokens: seq<string>)
    requires FieldsOf(tokens).Some?
    ensures var fs := FieldsOf(tokens).value;
            forall i, j :: 0 <= i < j < |fs| ==> fs[i].key != fs[j].key
  {
    if tokens != [] {
      FieldsDistinct(tokens[..|tokens| - 1]);
    }
  }

  lemma {:induction false} TimingsCount(fields: seq<Field>, phase: string)
    requires TimingsOf(fields).GoodTimings?
    requires forall i, j :: 0 <= i < j < |fields| ==> fields[i].key != fields[j].key
    ensures |Of(TimingsOf(fields).timings, phase)| ==
            if IsTimingKey(phase) && HasKey(fields, phase) then 1 else 0
  {
    hide IsTimingKey, IsDigits, ToNat;
    if fields != [] {
      var n := |fields| - 1;
      var f := fields[n];
      TimingsCount(fields[..n], phase);
      assert HasKey(fields, phase) <==> HasKey(fields[..n], phase) || f.key == phase by {
        assert fields == fields[..n] + [f];
      }
      assert !HasKey(fields[..n], f.key);
      if IsTimingKey(f.key) {
        var ts := TimingsOf(fields).timings;
        assert ts[..|ts| - 1] == TimingsOf(fields[..n]).timings;
      }
    }
  }

  lemma {:induction false} LookupHasKey(fields: seq<Field>, key: string)
    ensures Lookup(fields, key).Some? <==> HasKey(fields, key)
  {
    if fields != [] {
      LookupHasKey(fields[1..], key);
      assert fields == [fields[0]] + fields[1..];
    }
  }

  lemma ParsedIsRegular(line: string)
    requires ParseRecord(line).Good?
    ensures Regular(ParseRecord(line).record)
  {
    hide FieldsOf, TimingsOf, Lookup, HasKey, Split, Of;
    var tokens := Split(StripEol(line), '\t');
    var fields := FieldsOf(tokens).value;
    FieldsDistinct(tokens);
    LookupHasKey(fields, TOTAL);
    TimingsCount(fields, TOTAL);
    assert IsTimingKey(TOTAL) by {
      assert TOTAL[5..] == "_us";
    }
    forall phase
      ensures |Of(ParseRecord(line).record.timings, phase)| <= 1
    {
      TimingsCount(fields, phase);
    }
  }

  lemma {:induction false} AllRegular(lines: seq<string>, limit: nat)
    requires ReadAll(lines, limit).Read?
    ensures forall r <- ReadAll(lines, limit).records :: Regular(r)
  {
    hide ParseRecord, Regular, IsBlank;
    if lines != [] {
      var n := |lines| - 1;
      AllRegular(lines[..n], limit);
      if !IsBlank(lines[n]) {
        ParsedIsRegular(lines[n]);
      }
    }
  }

  // ----- counts -----------------------------------------------------------------------

  /** One total per record; no phase has more values than the group has records. */
  lemma {:induction false} ValuesCount(records: seq<Record>, g: GroupKey, phase: string)
    requires forall r <- records :: Regular(r)
    ensures |Values(records, g, TOTAL)| == CountIn(records, KeyOf, {g})
    ensures |Values(records, g, phase)| <= CountIn(records, KeyOf, {g})
  {
    hide Of;
    if records != [] {
      var n := |records| - 1;
      assert records[n] in records && Regular(records[n]);
      ValuesCount(records[..n], g, phase);
    }
  }

  function SumRecords(operations: seq<Operation>): nat {
    if operations == [] then 0 else operations[0].records + SumRecords(operations[1..])
  }

  lemma {:induction false} SumOverGroups(records: seq<Record>, keys: seq<GroupKey>)
    requires Distinct(keys) && (forall k <- keys :: k in GroupsOf(records)) && forall r <- records :: Regular(r)
    ensures SumRecords(OperationList(keys, GroupsOf(records))) == CountIn(records, KeyOf, set k | k in keys)
  {
    hide GroupsOf, CountIn, Regular, Samples, PhaseList, StringLeq;
    if keys == [] {
      CountInNothing(records, KeyOf);
      assert (set k | k in keys) == {};
    } else {
      SumOverGroups(records, keys[1..]);
      GroupsHold(records, keys[0], TOTAL);
      ValuesCount(records, keys[0], TOTAL);
      var rest := set k | k in keys[1..];
      assert keys[0] !in rest;
      assert (set k | k in keys) == {keys[0]} + rest;
      CountInUnion(records, KeyOf, keys[0], rest);
    }
  }

  ghost predicate PhasesWithin(op: Operation) {
    forall p <- op.phases :: p.stats.Some? && 0 < p.stats.value.count <= op.records
  }

  lemma {:induction false} PhaseListWithin(keys: seq<string>, phases: map<string, seq<nat>>, bound: nat)
    requires forall k <- keys :: k in phases && phases[k] != [] && |phases[k]| <= bound
    ensures forall p <- PhaseList(keys, phases) :: p.stats.Some? && 0 < p.stats.value.count <= bound
  {
    hide Compute;
    if keys != [] {
      assert keys[0] in keys;
      StatisticsOrdered(phases[keys[0]]);
      PhaseListWithin(keys[1..], phases, bound);
    }
  }

  lemma OperationWithin(records: seq<Record>, g: GroupKey)
    requires (forall r <- records :: Regular(r)) && g in GroupsOf(records)
    ensures PhasesWithin(OperationOf(g, GroupsOf(records)))
  {
    hide GroupsOf, Regular, StringLeq, Values, PhaseList;
    var groups := GroupsOf(records);
    RegularHasTimings(records);
    GroupsHaveRecords(records, g);
    StringOrder();
    var keys := Listing(groups[g].Keys, StringLeq);
    GroupsHold(records, g, TOTAL);
    ValuesCount(records, g, TOTAL);
    forall k <- keys
      ensures k in groups[g] && groups[g][k] != [] && |groups[g][k]| <= |Samples(groups, g, TOTAL)|
    {
      GroupsHold(records, g, k);
      ValuesCount(records, g, k);
    }
    PhaseListWithin(keys, groups[g], |Samples(groups, g, TOTAL)|);
  }

  lemma RegularHasTimings(records: seq<Record>)
    requires forall r <- records :: Regular(r)
    ensures forall r <- records :: r.timings != []
  {
    forall r <- records
      ensures r.timings != []
    {
      assert Regular(r);
    }
  }

  lemma {:induction false} OperationsWithin(records: seq<Record>, keys: seq<GroupKey>)
    requires (forall r <- records :: Regular(r)) && forall k <- keys :: k in GroupsOf(records)
    ensures forall op <- OperationList(keys, GroupsOf(records)) :: PhasesWithin(op)
  {
    hide GroupsOf, Regular, PhasesWithin, OperationOf;
    if keys != [] {
      assert keys[0] in keys;
      OperationWithin(records, keys[0]);
      OperationsWithin(records, keys[1..]);
    }
  }

  /** In every report the group record counts add up to the total, and no phase exceeds its group. */
  lemma SummaryCounts(lines: seq<string>, limit: int)
    requires Summarized(lines, limit).Report?
    ensures var s := Summarized(lines, limit);
            s.count > 0 && SumRecords(s.operations) == s.count && forall op <- s.operations :: PhasesWithin(op)
  {
    hide GroupsOf, OperationList, GroupLeq, ReadAll, Regular, PhasesWithin, CountIn;
    var records := ReadAll(lines, limit).records;
    var groups := GroupsOf(records);
    GroupOrder();
    var keys := Listing(groups.Keys, GroupLeq);
    AllRegular(lines, limit);
    SumOverGroups(records, keys);
    OperationsWithin(records, keys);
    RegularHasTimings(records);
    forall r <- records
      ensures KeyOf(r) in (set k | k in keys)
    {
      GroupsHaveRecords(records, KeyOf(r));
      Counted(records, r);
    }
    CountInAll(records, KeyOf, set k | k in keys);
  }

  lemma {:induction false} Counted(records: seq<Record>, r: Record)
    requires r in records
    ensures CountIn(records, KeyOf, {KeyOf(r)}) > 0
  {
    var n := |records| - 1;
    if records[n] != r {
      assert r in records[..n];
      Counted(records[..n], r);
    }
  }
}
