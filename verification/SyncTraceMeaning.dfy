/** The sync report in terms of the texts of the records and the fields of the calls. */
module SyncTraceMeaning {
  import opened Text
  import opened Ordering
  import opened SyncTrace
  import opened SyncTraceProperties
  import opened SyncTraceGrammar

  // ----- records --------------------------------------------------------------------

  /** The three forms of a record, by what its text is made of. */
  lemma ClassifyIs(body: string)
    ensures Classify(body).Unfinished? <==> exists x :: body == x + " <unfinished ...>"
    ensures Classify(body).Unfinished? ==>
              && body == Classify(body).start + " <unfinished ...>"
              && (Classify(body).sync <==> (exists x :: body == "fsync(" + x) || (exists x :: body == "fdatasync(" + x))
    ensures Classify(body).Resumed? <==>
              && (forall x :: body != x + " <unfinished ...>")
              && ((exists x :: body == "<... fsync resumed>" + x) ||
                  (exists x :: body == "<... fdatasync resumed>" + x))
    ensures Classify(body).Resumed? ==>
              && Classify(body).name in {"fsync", "fdatasync"}
              && body == "<... " + Classify(body).name + " resumed>" + Classify(body).tail
    ensures Classify(body).Complete? ==> Classify(body).text == body
  {
    EndsIff(body, " <unfinished ...>");
    StartsIff(body, "fsync(");
    StartsIff(body, "fdatasync(");
    Marks();
    StartsIff(body, "<... fsync resumed>");
    StartsIff(body, "<... fdatasync resumed>");
    hide ResumedMark, EndsWith, StartsWith;
    Pieces(body);
  }

  lemma Marks()
    ensures FSYNC + "(" == "fsync(" && FDATASYNC + "(" == "fdatasync(" && UNFINISHED == " <unfinished ...>"
    ensures ResumedMark(FSYNC) == "<... fsync resumed>" && ResumedMark(FDATASYNC) == "<... fdatasync resumed>"
    ensures forall name :: ResumedMark(name) == "<... " + name + " resumed>"
  {
  }

  lemma Pieces(body: string)
    ensures EndsWith(body, UNFINISHED) ==> body == body[..|body| - |UNFINISHED|] + UNFINISHED
    ensures StartsWith(body, ResumedMark(FSYNC)) ==> body == ResumedMark(FSYNC) + body[|ResumedMark(FSYNC)|..]
    ensures StartsWith(body, ResumedMark(FDATASYNC)) ==>
              body == ResumedMark(FDATASYNC) + body[|ResumedMark(FDATASYNC)|..]
  {
    hide ResumedMark;
  }

  /** The calls of a process whose records are whole calls and adjacent pairs. */
  function LaneCalls(bodies: seq<string>, parse: Recognizer): seq<Call>
    requires LaneOk(bodies, parse)
  {
    if bodies == [] then []
    else if Classify(bodies[0]).Complete? then [parse(bodies[0]).value] + LaneCalls(bodies[1..], parse)
    else
      [parse(Classify(bodies[0]).start + Classify(bodies[1]).tail).value] + LaneCalls(bodies[2..], parse)
  }

  /** Every whole call and every pair gives exactly one call, in order. */
  lemma {:induction false} LaneCallsRead(b: seq<string>, parse: Recognizer)
    requires LaneOk(b, parse)
    ensures LaneRun(b, None, parse) == Some(LaneResult(None, LaneCalls(b, parse)))
    decreases |b|
  {
    hide Classify;
    if b != [] {
      CompleteIsText(b[0]);
      if Classify(b[0]).Complete? {
        LaneCallsRead(b[1..], parse);
      } else {
        assert b[1..][0] == b[1] && b[1..][1..] == b[2..];
        LaneCallsRead(b[2..], parse);
        var rest := LaneRun(b[2..], None, parse).value.calls;
        assert [] + ([parse(Classify(b[0]).start + Classify(b[1]).tail).value] + rest) ==
               [parse(Classify(b[0]).start + Classify(b[1]).tail).value] + rest;
      }
    }
  }

  // ----- groups ------------------------------------------------------------------------

  /** The calls with a given name, path and result. */
  function CallsWith(calls: seq<Tagged>, syscall: string, path: string, result: string): seq<Call> {
    if calls == [] then []
    else
      var c := calls[|calls| - 1].call;
      CallsWith(calls[..|calls| - 1], syscall, path, result) +
      if c.syscall == syscall && c.path == path && c.result == result then [c] else []
  }

  function Total(calls: seq<Call>): real {
    if calls == [] then 0.0 else Total(calls[..|calls| - 1]) + calls[|calls| - 1].duration
  }

  ghost predicate IsGreatest(calls: seq<Call>, m: real) {
    && m >= 0.0
    && (forall c <- calls :: c.duration <= m)
    && (m == 0.0 || exists c <- calls :: c.duration == m)
  }

  lemma GreatestExtends(calls: seq<Call>, m: real, c: Call)
    requires IsGreatest(calls, m)
    ensures IsGreatest(calls + [c], if m < c.duration then c.duration else m)
  {
    var all := calls + [c];
    assert all[|calls|] == c;
    assert forall x :: x in all <==> x in calls || x == c;
  }

  lemma TotalExtends(calls: seq<Call>, c: Call)
    ensures Total(calls + [c]) == Total(calls) + c.duration
  {
    assert (calls + [c])[..|calls|] == calls;
  }

  /** What a group is: the calls with its name, path and result, their number, total and greatest duration. */
  lemma {:induction false} GroupMeans(calls: seq<Tagged>, syscall: string, path: string, result: string)
    ensures var k, cs := Key(syscall, path, result), CallsWith(calls, syscall, path, result);
            && (k in GroupsOf(calls) <==> cs != [])
            && (k in GroupsOf(calls) ==>
                  && GroupsOf(calls)[k].count == |cs|
                  && GroupsOf(calls)[k].sum == Total(cs)
                  && IsGreatest(cs, GroupsOf(calls)[k].max))
            && (cs == [] ==> IsGreatest(cs, 0.0))
  {
    hide IsGreatest, Total;
    NoCalls();
    if calls != [] {
      var n := |calls| - 1;
      GroupMeans(calls[..n], syscall, path, result);
      var cs, c := CallsWith(calls[..n], syscall, path, result), calls[n].call;
      TotalExtends(cs, c);
      assert cs + [] == cs;
      assert GroupsOf(calls) == AddCall(GroupsOf(calls[..n]), c);
      var k := Key(syscall, path, result);
      GreatestExtends(cs, if cs == [] then 0.0 else GroupsOf(calls[..n])[k].max, c);
    }
  }

  lemma NoCalls()
    ensures Total([]) == 0.0 && IsGreatest([], 0.0)
  {
  }

  lemma {:induction false} CallsWithAre(calls: seq<Tagged>, syscall: string, path: string, result: string, c: Call)
    ensures c in CallsWith(calls, syscall, path, result) <==>
            c.syscall == syscall && c.path == path && c.result == result && exists t <- calls :: t.call == c
  {
    if calls != [] {
      var n := |calls| - 1;
      CallsWithAre(calls[..n], syscall, path, result, c);
      assert calls == calls[..n] + [calls[n]];
    }
  }

  // ----- the report ---------------------------------------------------------------------

  ghost predicate Before(a: string, b: string) {
    a != b && StringLeq(a, b)
  }

  /** Keys are ordered by name, then by path, then by result. */
  lemma KeyLeqIs(a: Key, b: Key)
    ensures KeyLeq(a, b) <==>
            || a == b
            || Before(a.syscall, b.syscall)
            || (a.syscall == b.syscall && Before(a.path, b.path))
            || (a.syscall == b.syscall && a.path == b.path && Before(a.result, b.result))
  {
    hide StringLeq;
    StringOrder();
  }

  function Failed(calls: seq<Tagged>): seq<Call> {
    if calls == [] then []
    else Failed(calls[..|calls| - 1]) + if calls[|calls| - 1].call.result != "0" then [calls[|calls| - 1].call] else []
  }

  lemma {:induction false} FailuresAre(calls: seq<Tagged>)
    ensures FailuresOf(calls) == |Failed(calls)|
  {
    if calls != [] {
      FailuresAre(calls[..|calls| - 1]);
    }
  }

  lemma {:induction false} EntriesAre(keys: seq<Key>, groups: map<Key, Group>)
    requires forall k <- keys :: k in groups
    ensures |Entries(keys, groups)| == |keys|
    ensures forall i :: 0 <= i < |keys| ==>
              var e := Entries(keys, groups)[i];
              e.key == keys[i] && (e.ok <==> keys[i].result == "0") && e.group == groups[keys[i]]
  {
    if keys != [] {
      EntriesAre(keys[1..], groups);
    }
  }

  /** An entry of the report describes exactly the calls with its name, path and result. */
  ghost predicate Describes(e: Entry, calls: seq<Tagged>) {
    var cs := CallsWith(calls, e.key.syscall, e.key.path, e.key.result);
    && cs != []
    && (e.ok <==> e.key.result == "0")
    && e.group.count == |cs|
    && e.group.sum == Total(cs)
    && IsGreatest(cs, e.group.max)
  }

  /**
  An accepted trace, from its records to its report: the calls of each process are those
  of its records; the counts are theirs; each name, path and result that occurs has one
  entry, in order, and each entry describes its calls.
   */
  lemma ReportMeans(lines: seq<Line>, parse: Recognizer) returns (calls: seq<Tagged>)
    requires Summarized(lines, parse).Report?
    ensures forall pid :: LaneOk(Lane(lines, pid), parse) && CallsOf(calls, pid) == LaneCalls(Lane(lines, pid), parse)
    ensures var s := Summarized(lines, parse);
            && s.count == |calls| && s.failures == |Failed(calls)|
            && (forall e <- s.groups :: Describes(e, calls))
            && (forall t <- calls :: exists e <- s.groups ::
                  e.key == Key(t.call.syscall, t.call.path, t.call.result))
            && (forall i, j :: 0 <= i < j < |s.groups| ==>
                  s.groups[i].key != s.groups[j].key && KeyLeq(s.groups[i].key, s.groups[j].key))
  {
    hide Run, LaneRun, LaneOk, Lane, GroupsOf, Entries, KeyLeq, Describes, FailuresOf;
    AcceptedIff(lines, parse);
    calls := Run(lines, map[], parse).value.calls;
    forall pid
      ensures LaneOk(Lane(lines, pid), parse) && CallsOf(calls, pid) == LaneCalls(Lane(lines, pid), parse)
    {
      LaneCallsRead(Lane(lines, pid), parse);
      RunGivesLane(lines, map[], parse, pid);
    }
    KeyOrder();
    FailuresAre(calls);
    var keys := Listing(GroupsOf(calls).Keys, KeyLeq);
    EntriesAre(keys, GroupsOf(calls));
    EntriesDescribe(calls, keys);
    EntriesCover(calls, keys);
  }

  lemma EntriesDescribe(calls: seq<Tagged>, keys: seq<Key>)
    requires forall k <- keys :: k in GroupsOf(calls)
    ensures forall e <- Entries(keys, GroupsOf(calls)) :: Describes(e, calls)
  {
    hide GroupsOf, Entries, IsGreatest, Total;
    EntriesAre(keys, GroupsOf(calls));
    var es := Entries(keys, GroupsOf(calls));
    forall e <- es
      ensures Describes(e, calls)
    {
      var i :| 0 <= i < |es| && es[i] == e;
      assert keys[i] in keys;
      GroupMeans(calls, keys[i].syscall, keys[i].path, keys[i].result);
    }
  }

  lemma EntriesCover(calls: seq<Tagged>, keys: seq<Key>)
    requires (forall k <- keys :: k in GroupsOf(calls)) && forall k <- GroupsOf(calls) :: k in keys
    ensures forall t <- calls :: exists e <- Entries(keys, GroupsOf(calls)) ::
              e.key == Key(t.call.syscall, t.call.path, t.call.result)
  {
    hide GroupsOf, Entries;
    EntriesAre(keys, GroupsOf(calls));
    var es := Entries(keys, GroupsOf(calls));
    forall t <- calls
      ensures exists e <- es :: e.key == Key(t.call.syscall, t.call.path, t.call.result)
    {
      var c := t.call;
      GroupMeans(calls, c.syscall, c.path, c.result);
      CallsWithAre(calls, c.syscall, c.path, c.result, c);
      var k := Key(c.syscall, c.path, c.result);
      assert k in keys;
      var i :| 0 <= i < |keys| && keys[i] == k;
      assert es[i].key == k;
      assert es[i] in es;
    }
  }
}
