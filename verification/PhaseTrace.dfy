/** `summarize`: tab-separated `key=value` records, grouped by operation and outcome. */
module PhaseTrace {
  import opened Text
  import opened Ordering
  import opened Statistics

  datatype Field = Field(key: string, value: string)
  datatype Timing = Timing(key: string, value: nat)
  datatype Record = Record(operation: string, outcome: string, timings: seq<Timing>)

  datatype Reason =
    | Unterminated | LimitExceeded | MalformedField | MissingOutcome | MissingTotal | InvalidTiming | TimingOverflow
    | NoRecords | BadLimit

  const MAX_TIMING := 0xFFFF_FFFF_FFFF_FFFF
  const MAX_DIGITS := 20
  const TOTAL := "total_us"
  const OPERATION := "operation_id"
  const OUTCOME := "ok"

  // ----- one line ---------------------------------------------------------------

  /** `s.rstrip("\r\n")`. */
  function StripEol(s: string): string {
    if s != "" && s[|s| - 1] in {'\r', '\n'} then StripEol(s[..|s| - 1]) else s
  }

  /** The index of the first `c`, or the length of `s`. */
  function IndexOf(s: string, c: char): (k: nat)
    ensures k <= |s| && c !in s[..k] && (k < |s| ==> s[k] == c)
  {
    if s == "" || s[0] == c then 0 else 1 + IndexOf(s[1..], c)
  }

  /** A token with a key, an equals sign and a value. */
  function ReadField(token: string): Option<Field> {
    var k := IndexOf(token, '=');
    if k == |token| || k == 0 || k + 1 == |token| then None else Some(Field(token[..k], token[k + 1..]))
  }

  predicate HasKey(fields: seq<Field>, key: string) {
    exists f <- fields :: f.key == key
  }

  function Lookup(fields: seq<Field>, key: string): Option<string> {
    if fields == [] then None
    else if fields[0].key == key then Some(fields[0].value)
    else Lookup(fields[1..], key)
  }

  /** The fields of a record; a malformed token or a repeated key makes it malformed. */
  function FieldsOf(tokens: seq<string>): Option<seq<Field>> {
    if tokens == [] then Some([])
    else
      var n := |tokens| - 1;
      var before := FieldsOf(tokens[..n]);
      var f := ReadField(tokens[n]);
      if before.None? || f.None? || HasKey(before.value, f.value.key) then None
      else Some(before.value + [f.value])
  }

  predicate IsDigits(s: string) {
    s != "" && forall k :: 0 <= k < |s| ==> '0' <= s[k] <= '9'
  }

  /** `int(s)` for ASCII digits. */
  function ToNat(s: string): nat
    requires forall k :: 0 <= k < |s| ==> '0' <= s[k] <= '9'
  {
    if s == "" then 0 else ToNat(s[..|s| - 1]) * 10 + (s[|s| - 1] as int - '0' as int)
  }

  datatype Timings = BadTiming(reason: Reason) | GoodTimings(timings: seq<Timing>)

  predicate IsTimingKey(key: string) {
    EndsWith(key, "_us")
  }

  /** The timings among the fields, in order, or the first complaint. */
  function TimingsOf(fields: seq<Field>): Timings {
    if fields == [] then GoodTimings([])
    else
      var n := |fields| - 1;
      var before := TimingsOf(fields[..n]);
      var f := fields[n];
      if before.BadTiming? || !IsTimingKey(f.key) then before
      else if !IsDigits(f.value) || |f.value| > MAX_DIGITS then BadTiming(InvalidTiming)
      else if ToNat(f.value) > MAX_TIMING then BadTiming(TimingOverflow)
      else GoodTimings(before.timings + [Timing(f.key, ToNat(f.value))])
  }

  datatype Parsed = Fail(reason: Reason) | Good(record: Record)

  function ParseRecord(line: string): Parsed {
    var fields := FieldsOf(Split(StripEol(line), '\t'));
    if fields.None? then Fail(MalformedField)
    else
      var operation, outcome := Lookup(fields.value, OPERATION), Lookup(fields.value, OUTCOME);
      if operation.None? || outcome.None? || outcome.value !in {"true", "false"} then Fail(MissingOutcome)
      else if Lookup(fields.value, TOTAL).None? then Fail(MissingTotal)
      else
        match TimingsOf(fields.value)
        case BadTiming(reason) => Fail(reason)
        case GoodTimings(timings) => Good(Record(operation.value, outcome.value, timings))
  }

  // ----- a file -------------------------------------------------------------------

  datatype Reading = Stop(reason: Reason, line: nat) | Read(records: seq<Record>)

  /** The records of a file, or the first complaint and its line number. */
  function ReadAll(lines: seq<string>, limit: nat): Reading {
    if lines == [] then Read([])
    else
      var n := |lines| - 1;
      var before := ReadAll(lines[..n], limit);
      if before.Stop? then before
      else if !EndsWith(lines[n], "\n") then Stop(Unterminated, n + 1)
      else if IsBlank(lines[n]) then before
      else if |before.records| + 1 > limit then Stop(LimitExceeded, n + 1)
      else
        match ParseRecord(lines[n])
        case Fail(reason) => Stop(reason, n + 1)
        case Good(record) => Read(before.records + [record])
  }

  datatype GroupKey = GroupKey(operation: string, outcome: string)
  type Groups = map<GroupKey, map<string, seq<nat>>>

  function KeyOf(r: Record): GroupKey {
    GroupKey(r.operation, r.outcome)
  }

  function Phases(groups: Groups, g: GroupKey): map<string, seq<nat>> {
    if g in groups then groups[g] else map[]
  }

  function Samples(groups: Groups, g: GroupKey, phase: string): seq<nat> {
    if phase in Phases(groups, g) then Phases(groups, g)[phase] else []
  }

  /** `groups[g][t.key].append(t.value)`. */
  function AddTiming(groups: Groups, g: GroupKey, t: Timing): Groups {
    groups[g := Phases(groups, g)[t.key := Samples(groups, g, t.key) + [t.value]]]
  }

  function AddTimings(groups: Groups, g: GroupKey, timings: seq<Timing>): Groups {
    if timings == [] then groups
    else AddTiming(AddTimings(groups, g, timings[..|timings| - 1]), g, timings[|timings| - 1])
  }

  function GroupsOf(records: seq<Record>): Groups {
    if records == [] then map[]
    else
      var r := records[|records| - 1];
      AddTimings(GroupsOf(records[..|records| - 1]), KeyOf(r), r.timings)
  }

  predicate GroupLeq(a: GroupKey, b: GroupKey) {
    if a.operation != b.operation then StringLeq(a.operation, b.operation) else StringLeq(a.outcome, b.outcome)
  }

  lemma GroupOrder()
    ensures TotalOrder(GroupLeq)
  {
    StringOrder();
  }

  datatype Phase = Phase(key: string, stats: Option<Stats>)
  datatype Operation = Operation(operation: string, ok: bool, records: nat, phases: seq<Phase>)
  datatype Summary = Refused(reason: Reason, line: nat) | Report(count: nat, operations: seq<Operation>)

  function PhaseList(keys: seq<string>, phases: map<string, seq<nat>>): seq<Phase>
    requires forall k <- keys :: k in phases
  {
    if keys == [] then [] else [Phase(keys[0], Compute(phases[keys[0]]))] + PhaseList(keys[1..], phases)
  }

  ghost function OperationOf(g: GroupKey, groups: Groups): Operation
    requires g in groups
  {
    StringOrder();
    Operation(g.operation, g.outcome == "true", |Samples(groups, g, TOTAL)|,
              PhaseList(Listing(groups[g].Keys, StringLeq), groups[g]))
  }

  ghost function OperationList(keys: seq<GroupKey>, groups: Groups): seq<Operation>
    requires forall k <- keys :: k in groups
  {
    if keys == [] then [] else [OperationOf(keys[0], groups)] + OperationList(keys[1..], groups)
  }

  ghost function Summarized(lines: seq<string>, limit: int): Summary {
    if limit < 1 then Refused(BadLimit, 0)
    else
      match ReadAll(lines, limit)
      case Stop(reason, line) => Refused(reason, line)
      case Read(records) =>
        if records == [] then Refused(NoRecords, 0)
        else
          GroupOrder();
          var groups := GroupsOf(records);
          Report(|records|, OperationList(Listing(groups.Keys, GroupLeq), groups))
  }

  // ----- the loops ------------------------------------------------------------------

  /** The loop that fills `fields`. */
  method ParseFields(line: string) returns (fields: Option<seq<Field>>)
    ensures fields == FieldsOf(Split(StripEol(line), '\t'))
  {
    hide ReadField, HasKey, Split;
    var tokens := Split(StripEol(line), '\t');
    var found: seq<Field> := [];
    for k := 0 to |tokens|
      invariant FieldsOf(tokens[..k]) == Some(found)
    {
      assert tokens[..k + 1][..k] == tokens[..k];
      var f := ReadField(tokens[k]);
      if f.None? || HasKey(found, f.value.key) {
        FieldsStayBad(tokens, k + 1);
        return None;
      }
      found := found + [f.value];
    }
    assert tokens[..|tokens|] == tokens;
    fields := Some(found);
  }

  lemma {:induction false} FieldsStayBad(tokens: seq<string>, k: nat)
    requires k <= |tokens| && FieldsOf(tokens[..k]).None?
    ensures FieldsOf(tokens).None?
    decreases |tokens|
  {
    if k == |tokens| {
      assert tokens[..k] == tokens;
    } else {
      var n := |tokens| - 1;
      assert tokens[..n][..k] == tokens[..k];
      FieldsStayBad(tokens[..n], k);
    }
  }

  /** The loop that fills `timings`. */
  method ParseTimings(fields: seq<Field>) returns (r: Timings)
    ensures r == TimingsOf(fields)
  {
    var found: seq<Timing> := [];
    for k := 0 to |fields|
      invariant TimingsOf(fields[..k]) == GoodTimings(found)
    {
      assert fields[..k + 1][..k] == fields[..k];
      var f := fields[k];
      if IsTimingKey(f.key) {
        if !IsDigits(f.value) || |f.value| > MAX_DIGITS {
          TimingsStayBad(fields, k + 1);
          return BadTiming(InvalidTiming);
        }
        var timing := ToNat(f.value);
        if timing > MAX_TIMING {
          TimingsStayBad(fields, k + 1);
          return BadTiming(TimingOverflow);
        }
        found := found + [Timing(f.key, timing)];
      }
    }
    assert fields[..|fields|] == fields;
    r := GoodTimings(found);
  }

  lemma {:induction false} TimingsStayBad(fields: seq<Field>, k: nat)
    requires k <= |fields| && TimingsOf(fields[..k]).BadTiming?
    ensures TimingsOf(fields) == TimingsOf(fields[..k])
    decreases |fields|
  {
    if k == |fields| {
      assert fields[..k] == fields;
    } else {
      var n := |fields| - 1;
      assert fields[..n][..k] == fields[..k];
      TimingsStayBad(fields[..n], k);
    }
  }

  method Parse(line: string) returns (r: Parsed)
    ensures r == ParseRecord(line)
  {
    hide FieldsOf, TimingsOf, Lookup;
    var fields := ParseFields(line);
    if fields.None? {
      return Fail(MalformedField);
    }
    var operation, outcome := Lookup(fields.value, OPERATION), Lookup(fields.value, OUTCOME);
    if operation.None? || outcome.None? || outcome.value !in {"true", "false"} {
      return Fail(MissingOutcome);
    }
    if Lookup(fields.value, TOTAL).None? {
      return Fail(MissingTotal);
    }
    var timings := ParseTimings(fields.value);
    r := match timings
         case BadTiming(reason) => Fail(reason)
         case GoodTimings(ts) => Good(Record(operation.value, outcome.value, ts));
  }

  lemma {:induction false} ReadingStops(lines: seq<string>, k: nat, limit: nat)
    requires k <= |lines| && ReadAll(lines[..k], limit).Stop?
    ensures ReadAll(lines, limit) == ReadAll(lines[..k], limit)
    decreases |lines|
  {
    hide ParseRecord;
    if k == |lines| {
      assert lines[..k] == lines;
    } else {
      var n := |lines| - 1;
      assert lines[..n][..k] == lines[..k];
      ReadingStops(lines[..n], k, limit);
    }
  }

  /** `summarize`. */
  method Summarize(lines: seq<string>, limit: int) returns (report: Summary)
    ensures report == Summarized(lines, limit)
  {
    hide ParseRecord, AddTimings, GroupLeq, IsBlank, OperationList;
    if limit < 1 {
      return Refused(BadLimit, 0);
    }
    var groups: Groups := map[];
    var count := 0;
    ghost var records: seq<Record> := [];
    for k := 0 to |lines|
      invariant ReadAll(lines[..k], limit) == Read(records)
      invariant groups == GroupsOf(records) && count == |records|
    {
      assert lines[..k + 1][..k] == lines[..k];
      if !EndsWith(lines[k], "\n") {
        ReadingStops(lines, k + 1, limit);
        return Refused(Unterminated, k + 1);
      }
      if !IsBlank(lines[k]) {
        count := count + 1;
        if count > limit {
          ReadingStops(lines, k + 1, limit);
          return Refused(LimitExceeded, k + 1);
        }
        var parsed := Parse(lines[k]);
        if parsed.Fail? {
          ReadingStops(lines, k + 1, limit);
          return Refused(parsed.reason, k + 1);
        }
        var r := parsed.record;
        groups := Append(groups, KeyOf(r), r.timings);
        ghost var earlier := records;
        records := records + [r];
        assert records[..|records| - 1] == earlier;
      }
    }
    assert lines[..|lines|] == lines;
    if count == 0 {
      return Refused(NoRecords, 0);
    }
    var operations := ListOperations(groups);
    report := Report(count, operations);
  }

  method Append(groups0: Groups, g: GroupKey, timings: seq<Timing>) returns (groups: Groups)
    ensures groups == AddTimings(groups0, g, timings)
  {
    hide AddTiming;
    groups := groups0;
    for k := 0 to |timings|
      invariant groups == AddTimings(groups0, g, timings[..k])
    {
      assert timings[..k + 1][..k] == timings[..k];
      groups := AddTiming(groups, g, timings[k]);
    }
    assert timings[..|timings|] == timings;
  }

  method ListPhases(phases: map<string, seq<nat>>) returns (r: seq<Phase>)
    ensures TotalOrder(StringLeq) && r == PhaseList(Listing(phases.Keys, StringLeq), phases)
  {
    hide StringLeq, PhaseList;
    StringOrder();
    var keys := SortSet(phases.Keys, StringLeq);
    ListingUnique(keys, Listing(phases.Keys, StringLeq), phases.Keys, StringLeq);
    r := ReadPhases(keys, phases);
  }

  method ReadPhases(keys: seq<string>, phases: map<string, seq<nat>>) returns (r: seq<Phase>)
    requires forall k <- keys :: k in phases
    ensures r == PhaseList(keys, phases)
  {
    hide Compute;
    r := [];
    assert keys[0..] == keys;
    for i := 0 to |keys|
      invariant r + PhaseList(keys[i..], phases) == PhaseList(keys, phases)
    {
      assert keys[i..][1..] == keys[i + 1..];
      r := r + [Phase(keys[i], Compute(phases[keys[i]]))];
    }
  }

  method ListOperations(groups: Groups) returns (r: seq<Operation>)
    ensures TotalOrder(GroupLeq) && r == OperationList(Listing(groups.Keys, GroupLeq), groups)
  {
    hide GroupLeq, OperationList;
    GroupOrder();
    var keys := SortSet(groups.Keys, GroupLeq);
    ListingUnique(keys, Listing(groups.Keys, GroupLeq), groups.Keys, GroupLeq);
    r := ReadOperations(keys, groups);
  }

  method ReadOperations(keys: seq<GroupKey>, groups: Groups) returns (r: seq<Operation>)
    requires forall k <- keys :: k in groups
    ensures r == OperationList(keys, groups)
  {
    hide StringLeq, PhaseList, Samples;
    r := [];
    assert keys[0..] == keys;
    for i := 0 to |keys|
      invariant r + OperationList(keys[i..], groups) == OperationList(keys, groups)
    {
      assert keys[i..][1..] == keys[i + 1..];
      var g := keys[i];
      var phases := ListPhases(groups[g]);
      r := r + [Operation(g.operation, g.outcome == "true", |Samples(groups, g, TOTAL)|, phases)];
    }
  }
}
