/**
`summarize_sync`: a strict reader of interleaved strace records.  A record of one
process is a whole call, the start of one, or the rest of one.  The regular
expression that recognises a call is a parameter, and durations are exact reals.
 */
module SyncTrace {
  import opened Text
  import opened Ordering

  datatype Call = Call(syscall: string, path: string, result: string, duration: real)

  type Recognizer = string -> Option<Call>

  /** A line that is unterminated, has no process and timestamp, or has an invalid timestamp is bad. */
  datatype Line = Bad | Record(pid: string, body: string)

  datatype Body = Unfinished(start: string, sync: bool) | Resumed(name: string, tail: string) | Complete(text: string)

  const UNFINISHED := " <unfinished ...>"
  const FSYNC := "fsync"
  const FDATASYNC := "fdatasync"

  function ResumedMark(name: string): string {
    "<... " + name + " resumed>"
  }

  /** The tests on a record's text, in the order the reader makes them. */
  function Classify(body: string): Body {
    if EndsWith(body, UNFINISHED) then
      Unfinished(body[..|body| - |UNFINISHED|],
                 StartsWith(body, FSYNC + "(") || StartsWith(body, FDATASYNC + "("))
    else if StartsWith(body, ResumedMark(FSYNC)) then
      Resumed(FSYNC, body[|ResumedMark(FSYNC)|..])
    else if StartsWith(body, ResumedMark(FDATASYNC)) then
      Resumed(FDATASYNC, body[|ResumedMark(FDATASYNC)|..])
    else
      Complete(body)
  }

  // ----- one process ------------------------------------------------------------

  /** What a record does to its process: the call left pending, and the call it completes. */
  datatype Effect = Effect(pending: Option<string>, call: Option<Call>)

  function LaneStep(pending: Option<string>, body: string, parse: Recognizer): Option<Effect> {
    match Classify(body)
    case Unfinished(start, sync) =>
      if pending.Some? || !sync then None else Some(Effect(Some(start), None))
    case Resumed(name, tail) =>
      if pending.None? || !StartsWith(pending.value, name + "(") then None
      else if parse(pending.value + tail).None? then None
      else Some(Effect(None, parse(pending.value + tail)))
    case Complete(text) =>
      if pending.Some? || parse(text).None? then None
      else Some(Effect(None, parse(text)))
  }

  datatype LaneResult = LaneResult(pending: Option<string>, calls: seq<Call>)

  function OptSeq<T>(x: Option<T>): seq<T> {
    if x.Some? then [x.value] else []
  }

  /** The records of one process, read on their own. */
  function LaneRun(bodies: seq<string>, pending: Option<string>, parse: Recognizer): Option<LaneResult> {
    if bodies == [] then Some(LaneResult(pending, []))
    else
      var e := LaneStep(pending, bodies[0], parse);
      if e.None? then None
      else
        var rest := LaneRun(bodies[1..], e.value.pending, parse);
        if rest.None? then None
        else Some(LaneResult(rest.value.pending, OptSeq(e.value.call) + rest.value.calls))
  }

  // ----- the interleaved trace ----------------------------------------------------

  datatype Tagged = Tagged(pid: string, call: Call)
  datatype RunResult = RunResult(pending: map<string, string>, calls: seq<Tagged>)

  function Get(pending: map<string, string>, pid: string): Option<string> {
    if pid in pending then Some(pending[pid]) else None
  }

  function Put(pending: map<string, string>, pid: string, p: Option<string>): map<string, string> {
    if p.Some? then pending[pid := p.value] else pending - {pid}
  }

  function Tag(pid: string, call: Option<Call>): seq<Tagged> {
    if call.Some? then [Tagged(pid, call.value)] else []
  }

  /** The control flow of the reader: the calls it completes, in the order it completes them. */
  function Run(lines: seq<Line>, pending: map<string, string>, parse: Recognizer): Option<RunResult> {
    if lines == [] then Some(RunResult(pending, []))
    else if lines[0].Bad? then None
    else
      var pid := lines[0].pid;
      var e := LaneStep(Get(pending, pid), lines[0].body, parse);
      if e.None? then None
      else
        var rest := Run(lines[1..], Put(pending, pid, e.value.pending), parse);
        if rest.None? then None
        else Some(RunResult(rest.value.pending, Tag(pid, e.value.call) + rest.value.calls))
  }

  // ----- the groups -----------------------------------------------------------------

  datatype Key = Key(syscall: string, path: string, result: string)
  datatype Group = Group(count: nat, sum: real, max: real)

  function KeyOf(c: Call): Key {
    Key(c.syscall, c.path, c.result)
  }

  function Max(a: real, b: real): real {
    if a < b then b else a
  }

  /** One call enters its group. */
  function AddCall(groups: map<Key, Group>, c: Call): map<Key, Group> {
    var g := if KeyOf(c) in groups then groups[KeyOf(c)] else Group(0, 0.0, 0.0);
    groups[KeyOf(c) := Group(g.count + 1, g.sum + c.duration, Max(g.max, c.duration))]
  }

  function GroupsOf(calls: seq<Tagged>): map<Key, Group> {
    if calls == [] then map[]
    else AddCall(GroupsOf(calls[..|calls| - 1]), calls[|calls| - 1].call)
  }

  function FailuresOf(calls: seq<Tagged>): nat {
    if calls == [] then 0
    else FailuresOf(calls[..|calls| - 1]) + if calls[|calls| - 1].call.result == "0" then 0 else 1
  }

  predicate KeyLeq(a: Key, b: Key) {
    if a.syscall != b.syscall then StringLeq(a.syscall, b.syscall)
    else if a.path != b.path then StringLeq(a.path, b.path)
    else StringLeq(a.result, b.result)
  }

  lemma KeyOrder()
    ensures TotalOrder(KeyLeq)
  {
    StringOrder();
  }

  datatype Entry = Entry(key: Key, ok: bool, group: Group)
  datatype Summary = Refused | Report(count: nat, failures: nat, groups: seq<Entry>)

  function Entries(keys: seq<Key>, groups: map<Key, Group>): seq<Entry>
    requires forall k <- keys :: k in groups
  {
    if keys == [] then [] else [Entry(keys[0], keys[0].result == "0", groups[keys[0]])] + Entries(keys[1..], groups)
  }

  /** What the reader reports: refused unless every call is finished and there is one. */
  ghost function Summarized(lines: seq<Line>, parse: Recognizer): Summary {
    KeyOrder();
    var r := Run(lines, map[], parse);
    if r.None? || r.value.pending != map[] || r.value.calls == [] then Refused
    else
      var groups := GroupsOf(r.value.calls);
      Report(|r.value.calls|, FailuresOf(r.value.calls), Entries(Listing(groups.Keys, KeyLeq), groups))
  }

  /** `summarize_sync`. */
  method Summarize(lines: seq<Line>, parse: Recognizer) returns (report: Summary)
    ensures report == Summarized(lines, parse)
  {
    hide LaneStep, AddCall, KeyLeq, Goes;
    var pending: map<string, string> := map[];
    var groups: map<Key, Group> := map[];
    var count, failures := 0, 0;
    ghost var calls: seq<Tagged> := [];
    GoesAtFirst(lines, parse);
    for k := 0 to |lines|
      invariant Goes(lines, k, pending, calls, parse)
      invariant groups == GroupsOf(calls) && count == |calls| && failures == FailuresOf(calls)
    {
      if lines[k].Bad? {
        GoesWrong(lines, k, pending, calls, parse);
        return Refused;
      }
      var pid, body := lines[k].pid, lines[k].body;
      ghost var earlier := calls;
      var e := ReadRecord(pending, pid, body, parse);
      if e.None? {
        GoesWrong(lines, k, pending, calls, parse);
        return Refused;
      }
      GoesOn(lines, k, pending, calls, parse);
      pending := Put(pending, pid, e.value.pending);
      calls := calls + Tag(pid, e.value.call);
      if e.value.call.Some? {
        var c := e.value.call.value;
        assert calls[..|calls| - 1] == earlier;
        groups := AddCall(groups, c);
        count := count + 1;
        failures := failures + if c.result == "0" then 0 else 1;
      } else {
        assert calls == earlier;
      }
    }
    GoesEnd(lines, pending, calls, parse);
    if pending != map[] || count == 0 {
      return Refused;
    }
    var entries := ListGroups(groups);
    report := Report(count, failures, entries);
  }

  /** `[groups[key] for key in sorted(groups)]`. */
  method ListGroups(groups: map<Key, Group>) returns (entries: seq<Entry>)
    ensures TotalOrder(KeyLeq) && entries == Entries(Listing(groups.Keys, KeyLeq), groups)
  {
    hide KeyLeq, Entries;
    KeyOrder();
    var keys := SortSet(groups.Keys, KeyLeq);
    ListingUnique(keys, Listing(groups.Keys, KeyLeq), groups.Keys, KeyLeq);
    entries := ReadGroups(keys, groups);
  }

  method ReadGroups(keys: seq<Key>, groups: map<Key, Group>) returns (entries: seq<Entry>)
    requires forall k <- keys :: k in groups
    ensures entries == Entries(keys, groups)
  {
    entries := [];
    assert keys[0..] == keys;
    for i := 0 to |keys|
      invariant entries + Entries(keys[i..], groups) == Entries(keys, groups)
    {
      assert keys[i..][1..] == keys[i + 1..];
      entries := entries + [Entry(keys[i], keys[i].result == "0", groups[keys[i]])];
    }
  }

  /** The branches of the loop body, on the dictionary of pending calls. */
  method ReadRecord(pending: map<string, string>, pid: string, body: string, parse: Recognizer)
    returns (e: Option<Effect>)
    ensures e == LaneStep(Get(pending, pid), body, parse)
  {
    var text := body;
    match Classify(body) {
      case Unfinished(start, sync) =>
        if pid in pending || !sync {
          return None;
        }
        return Some(Effect(Some(start), None));
      case Resumed(name, tail) =>
        if pid !in pending || !StartsWith(pending[pid], name + "(") {
          return None;
        }
        text := pending[pid] + tail;
      case Complete(_) =>
        if pid in pending {
          return None;
        }
    }
    var call := parse(text);
    e := if call.None? then None else Some(Effect(None, call));
  }

  // ----- the loop invariant: what has been read, and what is still to come ------------

  function Prepend(calls: seq<Tagged>, r: Option<RunResult>): Option<RunResult> {
    if r.None? then None else Some(RunResult(r.value.pending, calls + r.value.calls))
  }

  ghost predicate Goes(lines: seq<Line>, k: nat, pending: map<string, string>, calls: seq<Tagged>, parse: Recognizer) {
    k <= |lines| && Run(lines, map[], parse) == Prepend(calls, Run(lines[k..], pending, parse))
  }

  lemma GoesAtFirst(lines: seq<Line>, parse: Recognizer)
    ensures Goes(lines, 0, map[], [], parse)
  {
    var r := Run(lines, map[], parse);
    assert lines[0..] == lines;
    if r.Some? {
      assert [] + r.value.calls == r.value.calls;
    }
  }

  lemma GoesOn(lines: seq<Line>, k: nat, pending: map<string, string>, calls: seq<Tagged>, parse: Recognizer)
    requires Goes(lines, k, pending, calls, parse) && k < |lines| && lines[k].Record?
    requires LaneStep(Get(pending, lines[k].pid), lines[k].body, parse).Some?
    ensures var e := LaneStep(Get(pending, lines[k].pid), lines[k].body, parse).value;
            Goes(lines, k + 1, Put(pending, lines[k].pid, e.pending), calls + Tag(lines[k].pid, e.call), parse)
  {
    hide LaneStep;
    var e := LaneStep(Get(pending, lines[k].pid), lines[k].body, parse).value;
    assert lines[k..][1..] == lines[k + 1..];
    var rest := Run(lines[k + 1..], Put(pending, lines[k].pid, e.pending), parse);
    if rest.Some? {
      assert calls + (Tag(lines[k].pid, e.call) + rest.value.calls) ==
             (calls + Tag(lines[k].pid, e.call)) + rest.value.calls;
    }
  }

  lemma GoesWrong(lines: seq<Line>, k: nat, pending: map<string, string>, calls: seq<Tagged>, parse: Recognizer)
    requires Goes(lines, k, pending, calls, parse) && k < |lines|
    requires lines[k].Bad? || LaneStep(Get(pending, lines[k].pid), lines[k].body, parse).None?
    ensures Run(lines, map[], parse).None?
  {
    hide LaneStep;
  }

  lemma GoesEnd(lines: seq<Line>, pending: map<string, string>, calls: seq<Tagged>, parse: Recognizer)
    requires Goes(lines, |lines|, pending, calls, parse)
    ensures Run(lines, map[], parse) == Some(RunResult(pending, calls))
  {
    assert calls + [] == calls;
  }
}
