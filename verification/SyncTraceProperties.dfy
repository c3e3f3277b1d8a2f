/** The summary depends on each process's own records only, not on how they interleave. */
module SyncTraceProperties {
  import opened Text
  import opened Ordering
  import opened SyncTrace
  import opened Tally

  /** The records of one process, in order. */
  function Lane(lines: seq<Line>, pid: string): seq<string> {
    if lines == [] then []
    else (if lines[0].Record? && lines[0].pid == pid then [lines[0].body] else []) + Lane(lines[1..], pid)
  }

  ghost predicate HasBad(lines: seq<Line>) {
    exists l <- lines :: l.Bad?
  }

  function CallsOf(calls: seq<Tagged>, pid: string): seq<Call> {
    if calls == [] then []
    else (if calls[0].pid == pid then [calls[0].call] else []) + CallsOf(calls[1..], pid)
  }

  // ----- a run is its lanes ---------------------------------------------------------

  /** The call that the first line completes, seen from one process. */
  lemma CallsOfTag(t: string, call: Option<Call>, rest: seq<Tagged>, pid: string)
    ensures t == pid ==> CallsOf(Tag(t, call) + rest, pid) == OptSeq(call) + CallsOf(rest, pid)
    ensures t != pid ==> CallsOf(Tag(t, call) + rest, pid) == CallsOf(rest, pid)
  {
    if call.Some? {
      assert (Tag(t, call) + rest)[1..] == rest;
    } else {
      assert Tag(t, call) + rest == rest;
    }
  }

  /** An accepted run leaves every process as that process's records alone would. */
  lemma {:induction false} RunGivesLane(lines: seq<Line>, pending: map<string, string>, parse: Recognizer, pid: string)
    requires Run(lines, pending, parse).Some?
    ensures var r := Run(lines, pending, parse).value;
            LaneRun(Lane(lines, pid), Get(pending, pid), parse) ==
            Some(LaneResult(Get(r.pending, pid), CallsOf(r.calls, pid)))
  {
    hide LaneStep;
    if lines != [] {
      var p := lines[0].pid;
      var e := LaneStep(Get(pending, p), lines[0].body, parse).value;
      var pending' := Put(pending, p, e.pending);
      RunGivesLane(lines[1..], pending', parse, pid);
      CallsOfTag(p, e.call, Run(lines[1..], pending', parse).value.calls, pid);
      assert Get(pending', pid) == if p == pid then e.pending else Get(pending, pid);
      if p == pid {
        assert Lane(lines, pid)[1..] == Lane(lines[1..], pid);
      } else {
        assert Lane(lines, pid) == Lane(lines[1..], pid);
      }
    }
  }

  ghost predicate LanesRun(lines: seq<Line>, pending: map<string, string>, parse: Recognizer) {
    forall pid :: LaneRun(Lane(lines, pid), Get(pending, pid), parse).Some?
  }

  /** If no line is bad and every process's records are accepted, so is the run. */
  lemma {:induction false} LanesGiveRun(lines: seq<Line>, pending: map<string, string>, parse: Recognizer)
    requires !HasBad(lines) && LanesRun(lines, pending, parse)
    ensures Run(lines, pending, parse).Some?
  {
    hide LaneStep;
    if lines != [] {
      assert lines[0] in lines;
      var p := lines[0].pid;
      assert Lane(lines, p)[1..] == Lane(lines[1..], p);
      assert LaneRun(Lane(lines, p), Get(pending, p), parse).Some?;
      var e := LaneStep(Get(pending, p), lines[0].body, parse).value;
      var pending' := Put(pending, p, e.pending);
      forall pid
        ensures LaneRun(Lane(lines[1..], pid), Get(pending', pid), parse).Some?
      {
        if pid != p {
          assert Lane(lines, pid) == Lane(lines[1..], pid);
          assert LaneRun(Lane(lines, pid), Get(pending, pid), parse).Some?;
        }
      }
      LanesGiveRun(lines[1..], pending', parse);
    }
  }

  lemma {:induction false} RunHasNoBad(lines: seq<Line>, pending: map<string, string>, parse: Recognizer)
    requires Run(lines, pending, parse).Some?
    ensures !HasBad(lines)
  {
    hide LaneStep;
    if lines != [] {
      var p := lines[0].pid;
      var e := LaneStep(Get(pending, p), lines[0].body, parse).value;
      RunHasNoBad(lines[1..], Put(pending, p, e.pending), parse);
      assert lines == [lines[0]] + lines[1..];
    }
  }

  // ----- groups do not depend on order --------------------------------------------------

  lemma AddCallCommutes(g: map<Key, Group>, a: Call, b: Call)
    ensures AddCall(AddCall(g, a), b) == AddCall(AddCall(g, b), a)
  {
  }

  lemma {:induction false} CallMovesToEnd(p: seq<Tagged>, t: Tagged, q: seq<Tagged>)
    ensures GroupsOf(p + [t] + q) == AddCall(GroupsOf(p + q), t.call)
    decreases |q|
  {
    hide AddCall;
    var s := p + [t] + q;
    if q == [] {
      assert s[..|s| - 1] == p && p + q == p;
    } else {
      var n := |q| - 1;
      assert s[..|s| - 1] == p + [t] + q[..n];
      assert (p + q)[..|p + q| - 1] == p + q[..n];
      CallMovesToEnd(p, t, q[..n]);
      AddCallCommutes(GroupsOf(p + q[..n]), t.call, q[n].call);
    }
  }

  lemma {:induction false} GroupsOfPermutation(a: seq<Tagged>, b: seq<Tagged>)
    requires multiset(a) == multiset(b)
    ensures GroupsOf(a) == GroupsOf(b)
  {
    hide AddCall;
    if a == [] {
      assert |multiset(b)| == 0;
    } else {
      var n := |a| - 1;
      var i := TakeOut(a, b);
      assert b == b[..i] + [a[n]] + b[i + 1..];
      CallMovesToEnd(b[..i], a[n], b[i + 1..]);
      GroupsOfPermutation(a[..n], b[..i] + b[i + 1..]);
    }
  }

  lemma {:induction false} TaggedMultiset(calls: seq<Tagged>, t: Tagged)
    ensures multiset(calls)[t] == multiset(CallsOf(calls, t.pid))[t.call]
  {
    if calls != [] {
      TaggedMultiset(calls[1..], t);
      assert calls == [calls[0]] + calls[1..];
    }
  }

  // ----- totals ------------------------------------------------------------------------

  function CallKey(t: Tagged): Key {
    KeyOf(t.call)
  }

  function SumCounts(entries: seq<Entry>): nat {
    if entries == [] then 0 else entries[0].group.count + SumCounts(entries[1..])
  }

  function SumFailed(entries: seq<Entry>): nat {
    if entries == [] then 0 else (if entries[0].ok then 0 else entries[0].group.count) + SumFailed(entries[1..])
  }

  /** The groups are keyed by the calls' keys, and a group counts its calls. */
  lemma {:induction false} GroupCounts(calls: seq<Tagged>, k: Key)
    ensures k in GroupsOf(calls) <==> CountIn(calls, CallKey, {k}) > 0
    ensures k in GroupsOf(calls) ==> GroupsOf(calls)[k].count == CountIn(calls, CallKey, {k})
  {
    if calls != [] {
      GroupCounts(calls[..|calls| - 1], k);
    }
  }

  /** The durations of the calls of one group, added up. */
  function DurationSum(calls: seq<Tagged>, k: Key): real {
    if calls == [] then 0.0
    else
      var t := calls[|calls| - 1];
      DurationSum(calls[..|calls| - 1], k) + if CallKey(t) == k then t.call.duration else 0.0
  }

  /** `m` is the longest duration of the group's calls, or zero if none is longer. */
  ghost predicate IsLongest(calls: seq<Tagged>, k: Key, m: real) {
    && m >= 0.0
    && (forall t <- calls :: CallKey(t) == k ==> t.call.duration <= m)
    && (m == 0.0 || exists t <- calls :: CallKey(t) == k && t.call.duration == m)
  }

  lemma LongestExtends(calls: seq<Tagged>, t: Tagged, k: Key, m: real)
    requires IsLongest(calls, k, m)
    ensures IsLongest(calls + [t], k, if CallKey(t) == k then Max(m, t.call.duration) else m)
  {
    assert forall x <- calls + [t] :: x in calls || x == t;
    assert t in calls + [t];
    assert forall x <- calls :: x in calls + [t];
  }

  /** A group adds up its calls' durations and keeps the longest of them. */
  lemma {:induction false} GroupDurations(calls: seq<Tagged>, k: Key)
    requires k in GroupsOf(calls)
    ensures GroupsOf(calls)[k].sum == DurationSum(calls, k)
    ensures IsLongest(calls, k, GroupsOf(calls)[k].max)
  {
    hide IsLongest;
    var n := |calls| - 1;
    var front := calls[..n];
    assert calls == front + [calls[n]];
    if k in GroupsOf(front) {
      GroupDurations(front, k);
      LongestExtends(front, calls[n], k, GroupsOf(front)[k].max);
    } else {
      NotGrouped(front, k);
      LongestExtends(front, calls[n], k, 0.0);
    }
  }

  lemma {:induction false} NotGrouped(calls: seq<Tagged>, k: Key)
    requires k !in GroupsOf(calls)
    ensures DurationSum(calls, k) == 0.0 && IsLongest(calls, k, 0.0)
    ensures forall t <- calls :: CallKey(t) != k
  {
    if calls != [] {
      var n := |calls| - 1;
      NotGrouped(calls[..n], k);
      assert calls == calls[..n] + [calls[n]];
    }
  }

  lemma {:induction false} SumOverKeys(calls: seq<Tagged>, keys: seq<Key>)
    requires Distinct(keys) && forall k <- keys :: k in GroupsOf(calls)
    ensures SumCounts(Entries(keys, GroupsOf(calls))) == CountIn(calls, CallKey, set k | k in keys)
  {
    hide GroupsOf, CountIn;
    if keys == [] {
      CountInNothing(calls, CallKey);
      assert (set k | k in keys) == {};
    } else {
      SumOverKeys(calls, keys[1..]);
      GroupCounts(calls, keys[0]);
      var rest := set k | k in keys[1..];
      assert keys[0] !in rest;
      assert (set k | k in keys) == {keys[0]} + rest;
      CountInUnion(calls, CallKey, keys[0], rest);
    }
  }

  lemma {:induction false} SumOverFailedKeys(calls: seq<Tagged>, keys: seq<Key>)
    requires Distinct(keys) && forall k <- keys :: k in GroupsOf(calls)
    ensures SumFailed(Entries(keys, GroupsOf(calls))) == CountIn(calls, CallKey, set k | k in keys && k.result != "0")
  {
    hide GroupsOf, CountIn;
    if keys == [] {
      CountInNothing(calls, CallKey);
      assert (set k | k in keys && k.result != "0") == {};
    } else {
      SumOverFailedKeys(calls, keys[1..]);
      GroupCounts(calls, keys[0]);
      var rest := set k | k in keys[1..] && k.result != "0";
      assert keys[0] !in rest;
      if keys[0].result != "0" {
        assert (set k | k in keys && k.result != "0") == {keys[0]} + rest;
        CountInUnion(calls, CallKey, keys[0], rest);
      } else {
        assert (set k | k in keys && k.result != "0") == rest;
      }
    }
  }

  lemma {:induction false} FailuresCounted(calls: seq<Tagged>, bad: set<Key>)
    requires forall t <- calls :: t.call.result != "0" <==> CallKey(t) in bad
    ensures CountIn(calls, CallKey, bad) == FailuresOf(calls)
  {
    if calls != [] {
      var n := |calls| - 1;
      assert calls[n] in calls;
      FailuresCounted(calls[..n], bad);
    }
  }

  lemma {:induction false} CallsAreGrouped(calls: seq<Tagged>)
    ensures forall t <- calls :: CallKey(t) in GroupsOf(calls)
  {
    if calls != [] {
      var n := |calls| - 1;
      CallsAreGrouped(calls[..n]);
      assert calls == calls[..n] + [calls[n]];
    }
  }

  lemma TotalsFromGroups(calls: seq<Tagged>)
    ensures TotalOrder(KeyLeq)
    ensures var entries := Entries(Listing(GroupsOf(calls).Keys, KeyLeq), GroupsOf(calls));
            SumCounts(entries) == |calls| && SumFailed(entries) == FailuresOf(calls)
  {
    hide KeyLeq, GroupsOf, Entries, CountIn;
    KeyOrder();
    var keys := Listing(GroupsOf(calls).Keys, KeyLeq);
    SumOverKeys(calls, keys);
    SumOverFailedKeys(calls, keys);
    CallsAreGrouped(calls);
    CountInAll(calls, CallKey, set k | k in keys);
    FailuresCounted(calls, set k | k in keys && k.result != "0");
  }

  /** On acceptance, the totals are the sums over the reported groups and no call is left pending. */
  lemma ReportTotals(lines: seq<Line>, parse: Recognizer)
    requires Summarized(lines, parse).Report?
    ensures var s := Summarized(lines, parse);
            s.count == SumCounts(s.groups) && s.failures == SumFailed(s.groups) && s.count > 0
    ensures Run(lines, map[], parse).Some? && Run(lines, map[], parse).value.pending == map[]
  {
    hide KeyLeq, GroupsOf, Entries;
    TotalsFromGroups(Run(lines, map[], parse).value.calls);
  }

  // ----- interleaving --------------------------------------------------------------------

  /** Traces whose processes do the same, each on its own, have the same summary. */
  lemma SameLaneRuns(a: seq<Line>, b: seq<Line>, parse: Recognizer)
    requires HasBad(a) == HasBad(b)
    requires forall pid :: LaneRun(Lane(a, pid), None, parse) == LaneRun(Lane(b, pid), None, parse)
    ensures Summarized(a, parse) == Summarized(b, parse)
  {
    hide KeyLeq, GroupsOf, Entries, Run, LaneRun, Lane, HasBad;
    if Run(a, map[], parse).Some? {
      RunCarriesOver(a, b, parse);
      SameCalls(a, b, parse);
      var x, y := Run(a, map[], parse).value, Run(b, map[], parse).value;
      GroupsOfPermutation(x.calls, y.calls);
      assert |x.calls| == |multiset(x.calls)| && |y.calls| == |multiset(y.calls)|;
      TotalsFromGroups(x.calls);
      TotalsFromGroups(y.calls);
    } else if Run(b, map[], parse).Some? {
      RunCarriesOver(b, a, parse);
    }
  }

  lemma RunCarriesOver(a: seq<Line>, b: seq<Line>, parse: Recognizer)
    requires HasBad(a) == HasBad(b)
    requires forall pid :: LaneRun(Lane(a, pid), None, parse) == LaneRun(Lane(b, pid), None, parse)
    requires Run(a, map[], parse).Some?
    ensures Run(b, map[], parse).Some?
  {
    hide Run, LaneRun, Lane, HasBad;
    RunHasNoBad(a, map[], parse);
    forall pid
      ensures LaneRun(Lane(b, pid), Get(map[], pid), parse).Some?
    {
      RunGivesLane(a, map[], parse, pid);
      assert LaneRun(Lane(a, pid), None, parse) == LaneRun(Lane(b, pid), None, parse);
    }
    LanesGiveRun(b, map[], parse);
  }

  lemma SameCalls(a: seq<Line>, b: seq<Line>, parse: Recognizer)
    requires forall pid :: LaneRun(Lane(a, pid), None, parse) == LaneRun(Lane(b, pid), None, parse)
    requires Run(a, map[], parse).Some? && Run(b, map[], parse).Some?
    ensures var x, y := Run(a, map[], parse).value, Run(b, map[], parse).value;
            x.pending == y.pending && multiset(x.calls) == multiset(y.calls)
  {
    hide Run, LaneRun, Lane;
    var x, y := Run(a, map[], parse).value, Run(b, map[], parse).value;
    forall pid
      ensures Get(x.pending, pid) == Get(y.pending, pid) && CallsOf(x.calls, pid) == CallsOf(y.calls, pid)
    {
      RunGivesLane(a, map[], parse, pid);
      RunGivesLane(b, map[], parse, pid);
      assert LaneRun(Lane(a, pid), None, parse) == LaneRun(Lane(b, pid), None, parse);
    }
    forall t
      ensures multiset(x.calls)[t] == multiset(y.calls)[t]
    {
      TaggedMultiset(x.calls, t);
      TaggedMultiset(y.calls, t);
    }
    assert forall pid :: pid in x.pending <==> Get(x.pending, pid).Some?;
    assert forall pid :: pid in y.pending <==> Get(y.pending, pid).Some?;
    assert x.pending == y.pending;
  }

  /** Any two interleavings of the same per-process records have the same summary. */
  lemma InterleavingInvariant(a: seq<Line>, b: seq<Line>, parse: Recognizer)
    requires HasBad(a) <==> HasBad(b)
    requires forall pid :: Lane(a, pid) == Lane(b, pid)
    ensures Summarized(a, parse) == Summarized(b, parse)
  {
    SameLaneRuns(a, b, parse);
  }
}
