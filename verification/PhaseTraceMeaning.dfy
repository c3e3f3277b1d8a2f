/** Which lines the phase reader accepts and what they mean, and what the report says about the records. */
module PhaseTraceMeaning {
  import opened Text
  import opened Ordering
  import opened Statistics
  import opened PhaseTrace
  import opened PhaseTraceCounts
  import PhaseTraceRoundTrip

  // ----- tokens ---------------------------------------------------------------------

  /** The line's end is cut off, and nothing else. */
  lemma {:induction false} StripEolIs(s: string) returns (e: string)
    ensures s == StripEol(s) + e && (forall c <- e :: c in {'\r', '\n'})
    ensures StripEol(s) == "" || StripEol(s)[|StripEol(s)| - 1] !in {'\r', '\n'}
  {
    e := "";
    if s != "" && s[|s| - 1] in {'\r', '\n'} {
      var n := |s| - 1;
      var x := StripEolIs(s[..n]);
      e := x + [s[n]];
      assert s == s[..n] + [s[n]];
    }
  }

  /** The token is a key, an equals sign and a value; the key holds no other equals sign. */
  ghost predicate TokenIs(token: string, f: Field) {
    token == f.key + "=" + f.value && '=' !in f.key && f.key != "" && f.value != ""
  }

  lemma ReadFieldIs(token: string)
    ensures ReadField(token).Some? ==> TokenIs(token, ReadField(token).value)
    ensures forall f :: TokenIs(token, f) ==> ReadField(token) == Some(f)
  {
    var k := IndexOf(token, '=');
    if ReadField(token).Some? {
      assert token == token[..k] + "=" + token[k + 1..];
    }
    forall f | TokenIs(token, f)
      ensures ReadField(token) == Some(f)
    {
      var n := |f.key|;
      assert token[n] == '=';
      assert token[..n] == f.key && token[n + 1..] == f.value;
      PhaseTraceRoundTrip.IndexOfIs(token, '=', n);
    }
  }

  /** The fields that the tokens of a line spell, each key once. */
  ghost predicate Spell(tokens: seq<string>, fields: seq<Field>) {
    && |fields| == |tokens|
    && (forall k :: 0 <= k < |tokens| ==> TokenIs(tokens[k], fields[k]))
    && (forall i, j :: 0 <= i < j < |fields| ==> fields[i].key != fields[j].key)
  }

  lemma {:induction false} FieldsSpell(tokens: seq<string>)
    ensures FieldsOf(tokens).Some? ==> Spell(tokens, FieldsOf(tokens).value)
  {
    hide ReadField, TokenIs;
    if tokens != [] && FieldsOf(tokens).Some? {
      FieldsSpell(tokens[..|tokens| - 1]);
      ReadFieldIs(tokens[|tokens| - 1]);
    }
  }

  lemma {:induction false} SpelledAreFields(tokens: seq<string>, fields: seq<Field>)
    requires Spell(tokens, fields)
    ensures FieldsOf(tokens) == Some(fields)
  {
    hide ReadField, TokenIs;
    if tokens != [] {
      var n := |tokens| - 1;
      SpelledAreFields(tokens[..n], fields[..n]);
      ReadFieldIs(tokens[n]);
      assert fields == fields[..n] + [fields[n]];
    }
  }

  /** In a line each key has at most one value, and looking it up finds it. */
  lemma {:induction false} LookupIs(fields: seq<Field>, key: string, value: string)
    requires forall i, j :: 0 <= i < j < |fields| ==> fields[i].key != fields[j].key
    ensures Lookup(fields, key) == Some(value) <==> Field(key, value) in fields
  {
    if fields != [] {
      LookupIs(fields[1..], key, value);
      assert fields == [fields[0]] + fields[1..];
      assert forall k :: 0 <= k < |fields[1..]| ==> fields[1..][k].key != fields[0].key;
    }
  }

  // ----- timings ----------------------------------------------------------------------

  lemma {:induction false} LeadingZero(s: string)
    requires forall k :: 0 <= k < |s| ==> '0' <= s[k] <= '9'
    ensures ToNat("0" + s) == ToNat(s)
  {
    var z := "0" + s;
    if s == "" {
      assert z[..0] == "";
    } else {
      assert z[..|z| - 1] == "0" + s[..|s| - 1];
      LeadingZero(s[..|s| - 1]);
    }
  }

  /** A value that may stand for a timing: one to twenty ASCII digits, and no more than 64 bits. */
  ghost predicate IsTiming(value: string) {
    && 1 <= |value| <= 20
    && (forall k :: 0 <= k < |value| ==> '0' <= value[k] <= '9')
    && ToNat(value) <= 18446744073709551615
  }

  ghost predicate TimesIt(key: string) {
    exists a :: key == a + "_us"
  }

  /** The timings among the fields, in order. */
  ghost function TimedFields(fields: seq<Field>): seq<Timing> {
    if fields == [] then []
    else
      var f := fields[|fields| - 1];
      TimedFields(fields[..|fields| - 1]) +
      if TimesIt(f.key) && IsTiming(f.value) then [Timing(f.key, ToNat(f.value))] else []
  }

  lemma {:induction false} TimingsAre(fields: seq<Field>)
    ensures TimingsOf(fields).GoodTimings? <==> forall f <- fields :: TimesIt(f.key) ==> IsTiming(f.value)
    ensures TimingsOf(fields).GoodTimings? ==> TimingsOf(fields).timings == TimedFields(fields)
  {
    hide ToNat, EndsWith;
    if fields != [] {
      var n := |fields| - 1;
      TimingsAre(fields[..n]);
      assert fields == fields[..n] + [fields[n]];
      EndsIff(fields[n].key, "_us");
    }
  }

  /** The complaint is about the first timing that is wrong: its form, or else its size. */
  lemma {:induction false} BadTimingIs(fields: seq<Field>, k: nat)
    requires k < |fields| && TimesIt(fields[k].key) && !IsTiming(fields[k].value)
    requires forall i :: 0 <= i < k && TimesIt(fields[i].key) ==> IsTiming(fields[i].value)
    ensures TimingsOf(fields) ==
            BadTiming(if 1 <= |fields[k].value| <= 20 && IsDigits(fields[k].value) then TimingOverflow
                      else InvalidTiming)
    decreases |fields|
  {
    hide ToNat, EndsWith;
    var n := |fields| - 1;
    if k < n {
      BadTimingIs(fields[..n], k);
    } else {
      TimingsAre(fields[..n]);
      EndsIff(fields[n].key, "_us");
      assert forall f <- fields[..n] :: TimesIt(f.key) ==> IsTiming(f.value);
    }
  }

  // ----- lines --------------------------------------------------------------------------

  ghost predicate HasFlow(fields: seq<Field>) {
    && (exists v :: Field("operation_id", v) in fields)
    && (Field("ok", "true") in fields || Field("ok", "false") in fields)
  }

  ghost predicate HasTotal(fields: seq<Field>) {
    exists v :: Field("total_us", v) in fields
  }

  ghost predicate TimingsFit(fields: seq<Field>) {
    forall f <- fields :: TimesIt(f.key) ==> IsTiming(f.value)
  }

  ghost predicate Spelled(tokens: seq<string>) {
    exists fields :: Spell(tokens, fields)
  }

  lemma SpelledIff(tokens: seq<string>)
    ensures Spelled(tokens) <==> FieldsOf(tokens).Some?
  {
    hide Spell, FieldsOf;
    FieldsSpell(tokens);
    if Spelled(tokens) {
      var fields :| Spell(tokens, fields);
      SpelledAreFields(tokens, fields);
    }
  }

  /** A line is malformed iff it spells no fields. */
  lemma MalformedIff(line: string)
    ensures ParseRecord(line) == Fail(MalformedField) <==> !Spelled(Split(StripEol(line), '\t'))
  {
    hide Spelled, Lookup, Split, StripEol, FieldsOf, TimingsOf;
    var tokens := Split(StripEol(line), '\t');
    SpelledIff(tokens);
    if FieldsOf(tokens).Some? {
      NoMalformedTiming(FieldsOf(tokens).value);
    }
  }

  lemma {:induction false} NoMalformedTiming(fields: seq<Field>)
    ensures TimingsOf(fields).BadTiming? ==> TimingsOf(fields).reason in {InvalidTiming, TimingOverflow}
  {
    hide ToNat, EndsWith;
    if fields != [] {
      NoMalformedTiming(fields[..|fields| - 1]);
    }
  }

  /** What a line that spells `fields` is read as: the checks in order, and the record they lead to. */
  lemma LineMeans(line: string, fields: seq<Field>)
    requires Spell(Split(StripEol(line), '\t'), fields)
    ensures ParseRecord(line) == Fail(MissingOutcome) <==> !HasFlow(fields)
    ensures ParseRecord(line) == Fail(MissingTotal) <==> HasFlow(fields) && !HasTotal(fields)
    ensures ParseRecord(line).Good? <==> HasFlow(fields) && HasTotal(fields) && TimingsFit(fields)
    ensures ParseRecord(line).Good? ==>
              var r := ParseRecord(line).record;
              && Field("operation_id", r.operation) in fields
              && Field("ok", r.outcome) in fields
              && r.timings == TimedFields(fields)
    ensures HasFlow(fields) && HasTotal(fields) && !TimingsFit(fields) ==>
              TimingsOf(fields).BadTiming? && ParseRecord(line) == Fail(TimingsOf(fields).reason)
  {
    hide FieldsOf, TimingsOf, TimedFields, Lookup, Split, StripEol, IsTiming, TimesIt;
    SpelledAreFields(Split(StripEol(line), '\t'), fields);
    TimingsAre(fields);
    NoMalformedTiming(fields);
    forall key, v
      ensures Lookup(fields, key) == Some(v) <==> Field(key, v) in fields
    {
      LookupIs(fields, key, v);
    }
    FlowIff(fields);
    TotalIff(fields);
  }

  lemma FlowIff(fields: seq<Field>)
    requires forall key, v :: Lookup(fields, key) == Some(v) <==> Field(key, v) in fields
    ensures var a, b := Lookup(fields, OPERATION), Lookup(fields, OUTCOME);
            HasFlow(fields) <==> a.Some? && b.Some? && b.value in {"true", "false"}
  {
    hide Lookup;
    var a, b := Lookup(fields, OPERATION), Lookup(fields, OUTCOME);
    if a.Some? {
      assert Field("operation_id", a.value) in fields;
    }
    if b.Some? {
      assert Field("ok", b.value) in fields;
    }
    if Field("ok", "true") in fields {
      assert Lookup(fields, OUTCOME) == Some("true");
    }
    if Field("ok", "false") in fields {
      assert Lookup(fields, OUTCOME) == Some("false");
    }
    if HasFlow(fields) {
      var v :| Field("operation_id", v) in fields;
      assert Lookup(fields, OPERATION) == Some(v);
    }
  }

  lemma TotalIff(fields: seq<Field>)
    requires forall key, v :: Lookup(fields, key) == Some(v) <==> Field(key, v) in fields
    ensures HasTotal(fields) <==> Lookup(fields, TOTAL).Some?
  {
    hide Lookup;
    if Lookup(fields, TOTAL).Some? {
      assert Field("total_us", Lookup(fields, TOTAL).value) in fields;
    }
    if HasTotal(fields) {
      var v :| Field("total_us", v) in fields;
      assert Lookup(fields, TOTAL) == Some(v);
    }
  }

  // ----- a file ---------------------------------------------------------------------------

  /** The complaint about a line after `count` records: its end, the limit, and then its contents. */
  ghost predicate Complains(line: string, count: nat, limit: nat, reason: Reason) {
    if !EndsWith(line, "\n") then reason == Unterminated
    else !IsBlank(line) && if count >= limit then reason == LimitExceeded else ParseRecord(line) == Fail(reason)
  }

  /** Reading stops at the first line with a complaint, and with that complaint. */
  lemma {:induction false} StopIs(lines: seq<string>, limit: nat, k: nat, reason: Reason)
    requires k < |lines| && ReadAll(lines[..k], limit).Read?
    requires Complains(lines[k], |ReadAll(lines[..k], limit).records|, limit, reason)
    ensures ReadAll(lines, limit) == Stop(reason, k + 1)
  {
    hide ParseRecord, IsBlank, EndsWith;
    assert lines[..k + 1][..k] == lines[..k];
    ReadingStops(lines, k + 1, limit);
  }

  // ----- groups -----------------------------------------------------------------------------

  /** The records with a given operation and outcome. */
  function RecordsWith(records: seq<Record>, operation: string, outcome: string): seq<Record> {
    if records == [] then []
    else
      var r := records[|records| - 1];
      RecordsWith(records[..|records| - 1], operation, outcome) +
      if r.operation == operation && r.outcome == outcome then [r] else []
  }

  function PhaseValues(records: seq<Record>, phase: string): seq<nat> {
    if records == [] then []
    else PhaseValues(records[..|records| - 1], phase) + Of(records[|records| - 1].timings, phase)
  }

  lemma PhaseValuesExtend(records: seq<Record>, r: Record, phase: string)
    ensures PhaseValues(records + [r], phase) == PhaseValues(records, phase) + Of(r.timings, phase)
  {
    assert (records + [r])[..|records|] == records;
  }

  lemma {:induction false} ValuesAreWith(records: seq<Record>, operation: string, outcome: string, phase: string)
    ensures Values(records, GroupKey(operation, outcome), phase) ==
            PhaseValues(RecordsWith(records, operation, outcome), phase)
  {
    hide Of;
    if records != [] {
      var n := |records| - 1;
      ValuesAreWith(records[..n], operation, outcome, phase);
      var before := RecordsWith(records[..n], operation, outcome);
      PhaseValuesExtend(before, records[n], phase);
      assert before + [] == before;
    }
  }

  lemma {:induction false} TotalsWith(records: seq<Record>)
    requires forall r <- records :: Regular(r)
    ensures |PhaseValues(records, TOTAL)| == |records|
  {
    if records != [] {
      TotalsWith(records[..|records| - 1]);
      assert records[|records| - 1] in records;
    }
  }

  lemma {:induction false} RecordsWithAre(records: seq<Record>, operation: string, outcome: string, r: Record)
    ensures r in RecordsWith(records, operation, outcome) <==>
            r in records && r.operation == operation && r.outcome == outcome
  {
    if records != [] {
      var n := |records| - 1;
      RecordsWithAre(records[..n], operation, outcome, r);
      assert records == records[..n] + [records[n]];
    }
  }

  /** What a group is: the records with its operation and outcome, and for each phase their values in file order. */
  lemma GroupMeans(records: seq<Record>, operation: string, outcome: string, phase: string)
    requires forall r <- records :: Regular(r)
    ensures var g, rs := GroupKey(operation, outcome), RecordsWith(records, operation, outcome);
            && Samples(GroupsOf(records), g, phase) == PhaseValues(rs, phase)
            && |Samples(GroupsOf(records), g, TOTAL)| == |rs|
            && (g in GroupsOf(records) <==> rs != [])
  {
    hide GroupsOf, Samples, Values, RecordsWith, PhaseValues, Regular;
    var g, rs := GroupKey(operation, outcome), RecordsWith(records, operation, outcome);
    GroupsHold(records, g, phase);
    GroupsHold(records, g, TOTAL);
    ValuesAreWith(records, operation, outcome, phase);
    ValuesAreWith(records, operation, outcome, TOTAL);
    forall r <- rs
      ensures Regular(r)
    {
      RecordsWithAre(records, operation, outcome, r);
    }
    TotalsWith(rs);
    RegularHasTimings(records);
    GroupsHaveRecords(records, g);
    ValuesCount(records, g, TOTAL);
  }

  // ----- the report ------------------------------------------------------------------------

  ghost predicate Before(a: string, b: string) {
    a != b && StringLeq(a, b)
  }

  /** Groups are ordered by operation and then by outcome. */
  lemma GroupLeqIs(a: GroupKey, b: GroupKey)
    ensures GroupLeq(a, b) <==>
            || a == b
            || Before(a.operation, b.operation)
            || (a.operation == b.operation && Before(a.outcome, b.outcome))
  {
    hide StringLeq;
    StringOrder();
  }

  lemma {:induction false} PhaseListIs(keys: seq<string>, phases: map<string, seq<nat>>)
    requires forall k <- keys :: k in phases
    ensures |PhaseList(keys, phases)| == |keys|
    ensures forall i :: 0 <= i < |keys| ==>
              PhaseList(keys, phases)[i].key == keys[i] && PhaseList(keys, phases)[i].stats == Compute(phases[keys[i]])
  {
    hide Compute;
    if keys != [] {
      PhaseListIs(keys[1..], phases);
    }
  }

  /** The entry is about the records with its operation and outcome. */
  ghost predicate Describes(o: Operation, records: seq<Record>, outcome: string) {
    var rs := RecordsWith(records, o.operation, outcome);
    rs != [] && o.records == |rs| && (o.ok <==> outcome == "true") && PhasesListed(o.phases, rs)
  }

  /** The phases of a group are those with values, and hold them. */
  ghost predicate PhasesHold(phases: map<string, seq<nat>>, rs: seq<Record>) {
    && (forall phase :: phase in phases <==> PhaseValues(rs, phase) != [])
    && forall phase <- phases :: phases[phase] == PhaseValues(rs, phase)
  }

  lemma GroupPhases(records: seq<Record>, g: GroupKey)
    requires (forall r <- records :: Regular(r)) && g in GroupsOf(records)
    ensures PhasesHold(GroupsOf(records)[g], RecordsWith(records, g.operation, g.outcome))
  {
    hide GroupsOf, RecordsWith, PhaseValues, Regular, Samples, NoEmptyPhase;
    var groups, rs := GroupsOf(records), RecordsWith(records, g.operation, g.outcome);
    RegularHasTimings(records);
    GroupsHaveRecords(records, g);
    assert g == GroupKey(g.operation, g.outcome);
    forall phase
      ensures phase in groups[g] <==> PhaseValues(rs, phase) != []
      ensures phase in groups[g] ==> groups[g][phase] == PhaseValues(rs, phase)
    {
      GroupMeans(records, g.operation, g.outcome, phase);
      PhaseHolds(groups, g, phase);
    }
  }

  /** Listing the phases of a group gives each phase with values once, in order, with their statistics. */
  ghost predicate PhasesListed(list: seq<Phase>, rs: seq<Record>) {
    && (forall p <- list :: PhaseValues(rs, p.key) != [] && p.stats == Compute(PhaseValues(rs, p.key)))
    && (forall phase :: PhaseValues(rs, phase) != [] ==> exists p <- list :: p.key == phase)
    && (forall i, j :: 0 <= i < j < |list| ==> Before(list[i].key, list[j].key))
  }

  lemma PhasesAreListed(keys: seq<string>, phases: map<string, seq<nat>>, rs: seq<Record>)
    requires Lists(keys, phases.Keys, StringLeq) && PhasesHold(phases, rs)
    ensures PhasesListed(PhaseList(keys, phases), rs)
  {
    hide PhaseValues, PhaseList, StringLeq, Compute;
    var list := PhaseList(keys, phases);
    PhaseListIs(keys, phases);
    forall p <- list
      ensures PhaseValues(rs, p.key) != [] && p.stats == Compute(PhaseValues(rs, p.key))
    {
      var i :| 0 <= i < |list| && list[i] == p;
      assert keys[i] in keys;
    }
    forall phase | PhaseValues(rs, phase) != []
      ensures exists p <- list :: p.key == phase
    {
      assert phase in keys;
      var i :| 0 <= i < |keys| && keys[i] == phase;
      assert list[i] in list;
    }
  }

  lemma OperationMeans(records: seq<Record>, g: GroupKey)
    requires (forall r <- records :: Regular(r)) && g in GroupsOf(records)
    ensures Describes(OperationOf(g, GroupsOf(records)), records, g.outcome)
    ensures OperationOf(g, GroupsOf(records)).operation == g.operation
  {
    hide GroupsOf, RecordsWith, PhaseValues, PhaseList, PhasesHold, PhasesListed, StringLeq, Regular, Samples;
    var groups := GroupsOf(records);
    StringOrder();
    GroupMeans(records, g.operation, g.outcome, TOTAL);
    assert g == GroupKey(g.operation, g.outcome);
    GroupPhases(records, g);
    PhasesAreListed(Listing(groups[g].Keys, StringLeq), groups[g], RecordsWith(records, g.operation, g.outcome));
  }

  lemma PhaseHolds(groups: Groups, g: GroupKey, phase: string)
    requires NoEmptyPhase(groups) && g in groups
    ensures phase in groups[g] <==> Samples(groups, g, phase) != []
    ensures phase in groups[g] ==> groups[g][phase] == Samples(groups, g, phase)
  {
  }

  lemma {:induction false} OperationListIs(keys: seq<GroupKey>, groups: Groups)
    requires forall k <- keys :: k in groups
    ensures |OperationList(keys, groups)| == |keys|
    ensures forall i :: 0 <= i < |keys| ==> OperationList(keys, groups)[i] == OperationOf(keys[i], groups)
  {
    hide OperationOf;
    if keys != [] {
      OperationListIs(keys[1..], groups);
    }
  }

  /**
  An accepted file: there is one entry for each operation and outcome that occurs, in order,
  and each entry describes the records with its operation and outcome.
   */
  lemma ReportMeans(lines: seq<string>, limit: int) returns (keys: seq<GroupKey>)
    requires Summarized(lines, limit).Report?
    ensures ReadAll(lines, limit).Read?
    ensures var s, records := Summarized(lines, limit), ReadAll(lines, limit).records;
            && s.count == |records| && |s.operations| == |keys|
            && (forall i :: 0 <= i < |keys| ==> s.operations[i].operation == keys[i].operation)
            && (forall i :: 0 <= i < |keys| ==> Describes(s.operations[i], records, keys[i].outcome))
            && (forall r <- records :: GroupKey(r.operation, r.outcome) in keys)
            && (forall i, j :: 0 <= i < j < |keys| ==> keys[i] != keys[j] && GroupLeq(keys[i], keys[j]))
  {
    hide ReadAll, GroupsOf, OperationOf, OperationList, GroupLeq, Describes, Regular;
    var records := ReadAll(lines, limit).records;
    var groups := GroupsOf(records);
    AllRegular(lines, limit);
    GroupOrder();
    keys := Listing(groups.Keys, GroupLeq);
    OperationListIs(keys, groups);
    forall i | 0 <= i < |keys|
      ensures OperationOf(keys[i], groups).operation == keys[i].operation
      ensures Describes(OperationOf(keys[i], groups), records, keys[i].outcome)
    {
      assert keys[i] in keys;
      OperationMeans(records, keys[i]);
    }
    forall r <- records
      ensures GroupKey(r.operation, r.outcome) in keys
    {
      GroupMeans(records, r.operation, r.outcome, TOTAL);
      RecordsWithAre(records, r.operation, r.outcome, r);
    }
  }
}
