/** Which traces the reader accepts, and what splitting a call in two does to a trace. */
module SyncTraceGrammar {
  import opened Text
  import opened SyncTrace
  import opened SyncTraceProperties

  /** A call split over two records: the second resumes the first, and together they are a call. */
  predicate Pair(u: string, r: string, parse: Recognizer) {
    var a, b := Classify(u), Classify(r);
    && a.Unfinished? && a.sync
    && b.Resumed? && StartsWith(a.start, b.name + "(")
    && parse(a.start + b.tail).Some?
  }

  /** A process's records are whole calls and adjacent pairs. */
  predicate LaneOk(bodies: seq<string>, parse: Recognizer) {
    if bodies == [] then true
    else if Classify(bodies[0]).Complete? then
      parse(bodies[0]).Some? && LaneOk(bodies[1..], parse)
    else
      |bodies| >= 2 && Pair(bodies[0], bodies[1], parse) && LaneOk(bodies[2..], parse)
  }

  lemma {:induction false} LaneOkRuns(b: seq<string>, parse: Recognizer)
    ensures var r := LaneRun(b, None, parse);
            LaneOk(b, parse) <==> r.Some? && r.value.pending.None?
    ensures LaneOk(b, parse) && b != [] ==> LaneRun(b, None, parse).value.calls != []
    decreases |b|
  {
    if b != [] {
      var c := Classify(b[0]);
      if c.Complete? {
        CompleteIsText(b[0]);
        LaneOkRuns(b[1..], parse);
      } else if |b| >= 2 {
        assert b[1..][0] == b[1] && b[1..][1..] == b[2..];
        LaneOkRuns(b[2..], parse);
      } else {
        assert b[1..] == [];
      }
    }
  }

  lemma CompleteIsText(body: string)
    ensures Classify(body).Complete? ==> Classify(body).text == body
  {
  }

  ghost predicate WellFormed(lines: seq<Line>, parse: Recognizer) {
    lines != [] && !HasBad(lines) && forall pid :: LaneOk(Lane(lines, pid), parse)
  }

  /** A trace is accepted iff it is not empty, no line is bad, and every process's records pair up. */
  lemma AcceptedIff(lines: seq<Line>, parse: Recognizer)
    ensures Summarized(lines, parse).Report? <==> WellFormed(lines, parse)
  {
    if Summarized(lines, parse).Report? {
      AcceptedIsOk(lines, parse);
    }
    if WellFormed(lines, parse) {
      OkIsAccepted(lines, parse);
    }
  }

  lemma AcceptedIsOk(lines: seq<Line>, parse: Recognizer)
    requires Summarized(lines, parse).Report?
    ensures WellFormed(lines, parse)
  {
    hide LaneStep, LaneRun, LaneOk, GroupsOf, Entries;
    RunHasNoBad(lines, map[], parse);
    forall pid
      ensures LaneOk(Lane(lines, pid), parse)
    {
      RunGivesLane(lines, map[], parse, pid);
      LaneOkRuns(Lane(lines, pid), parse);
    }
  }

  lemma OkIsAccepted(lines: seq<Line>, parse: Recognizer)
    requires WellFormed(lines, parse)
    ensures Summarized(lines, parse).Report?
  {
    hide LaneStep, LaneRun, LaneOk, GroupsOf, Entries, Run;
    forall pid
      ensures LaneRun(Lane(lines, pid), Get(map[], pid), parse).Some?
      ensures LaneRun(Lane(lines, pid), None, parse).value.pending.None?
    {
      LaneOkRuns(Lane(lines, pid), parse);
    }
    LanesGiveRun(lines, map[], parse);
    var r := Run(lines, map[], parse).value;
    forall pid
      ensures Get(r.pending, pid).None?
    {
      RunGivesLane(lines, map[], parse, pid);
    }
    assert forall pid :: pid in r.pending ==> Get(r.pending, pid).Some?;
    assert r.pending == map[];
    assert lines[0] in lines;
    var p := lines[0].pid;
    LaneOkRuns(Lane(lines, p), parse);
    RunGivesLane(lines, map[], parse, p);
    assert CallsOf(r.calls, p) != [];
  }

  // ----- the same, record by record ----------------------------------------------------

  /** A record is in order where it stands. */
  predicate RecordOk(b: seq<string>, k: nat, parse: Recognizer)
    requires k < |b|
  {
    match Classify(b[k])
    case Complete(text) => parse(text).Some?
    case Unfinished(_, _) => k + 1 < |b| && Pair(b[k], b[k + 1], parse)
    case Resumed(_, _) => k > 0 && Classify(b[k - 1]).Unfinished?
  }

  /** Only neighbours matter: every unfinished call is resumed by the very next record of its process. */
  lemma {:induction false} LaneOkLocally(b: seq<string>, parse: Recognizer)
    ensures LaneOk(b, parse) <==> forall k :: 0 <= k < |b| ==> RecordOk(b, k, parse)
    decreases |b|
  {
    hide Classify;
    if b != [] {
      CompleteIsText(b[0]);
      var n := if Classify(b[0]).Complete? then 1 else 2;
      if n <= |b| {
        LaneOkLocally(b[n..], parse);
        if forall k :: 0 <= k < |b| ==> RecordOk(b, k, parse) {
          assert RecordOk(b, 0, parse);
          forall k | 0 <= k < |b[n..]|
            ensures RecordOk(b[n..], k, parse)
          {
            assert RecordOk(b, n + k, parse);
          }
        }
        if LaneOk(b, parse) {
          forall k | 0 <= k < |b|
            ensures RecordOk(b, k, parse)
          {
            if k >= n {
              assert RecordOk(b[n..], k - n, parse);
            }
          }
        }
      } else {
        assert !RecordOk(b, 0, parse);
      }
    }
  }

  /** A lane may be cut before any record that does not resume a call. */
  lemma {:induction false} LaneOkAppend(a: seq<string>, b: seq<string>, parse: Recognizer)
    requires b != [] ==> !Classify(b[0]).Resumed?
    ensures LaneOk(a + b, parse) <==> LaneOk(a, parse) && LaneOk(b, parse)
    decreases |a|
  {
    hide Classify;
    if a == [] {
      assert a + b == b;
    } else if Classify(a[0]).Complete? {
      assert (a + b)[0] == a[0] && (a + b)[1..] == a[1..] + b;
      LaneOkAppend(a[1..], b, parse);
    } else if |a| >= 2 {
      assert (a + b)[0] == a[0] && (a + b)[1] == a[1] && (a + b)[2..] == a[2..] + b;
      LaneOkAppend(a[2..], b, parse);
    } else {
      assert (a + b)[0] == a[0];
      assert b != [] ==> (a + b)[1] == b[0];
    }
  }

  lemma PairFirst(u: string, r: string, q: seq<string>, parse: Recognizer)
    requires !Classify(u).Complete?
    ensures LaneOk([u, r] + q, parse) <==> Pair(u, r, parse) && LaneOk(q, parse)
  {
    hide Classify, Pair;
    var b := [u, r] + q;
    assert b[0] == u && b[1] == r && b[2..] == q;
  }

  lemma ResumedFirst(r: string, q: seq<string>, parse: Recognizer)
    requires Classify(r).Resumed?
    ensures !LaneOk([r] + q, parse)
  {
    hide Classify;
    assert ([r] + q)[0] == r;
  }

  /** A resumed record must end a pair with the record just before it. */
  lemma PairAmid(m: seq<string>, v: string, r: string, q: seq<string>, parse: Recognizer)
    requires Classify(r).Resumed?
    ensures LaneOk(m + [v, r] + q, parse) <==> LaneOk(m, parse) && Pair(v, r, parse) && LaneOk(q, parse)
  {
    hide Classify, LaneOk;
    assert m + [v, r] + q == m + ([v, r] + q);
    if Classify(v).Unfinished? {
      LaneOkAppend(m, [v, r] + q, parse);
      PairFirst(v, r, q, parse);
    } else {
      var b := m + ([v, r] + q);
      LaneOkLocally(b, parse);
      assert b[|m|] == v && b[|m| + 1] == r;
      assert !RecordOk(b, |m| + 1, parse);
    }
  }

  /** The records between two halves are such that both halves still belong to calls. */
  predicate Bridges(u: string, m: seq<string>, r: string, parse: Recognizer) {
    var n := |m| - 1;
    n >= 1 && Pair(u, m[0], parse) && LaneOk(m[1..n], parse) && Pair(m[n], r, parse)
  }

  /**
  Two halves separated by records of the same process are accepted iff those records
  resume the first half, are in order, and start the call that the second half resumes.
   */
  lemma SeparatedPair(p: seq<string>, u: string, m: seq<string>, r: string, q: seq<string>, parse: Recognizer)
    requires Classify(u).Unfinished? && Classify(r).Resumed? && m != []
    ensures LaneOk(p + [u] + m + [r] + q, parse) <==> LaneOk(p, parse) && Bridges(u, m, r, parse) && LaneOk(q, parse)
  {
    hide Classify, LaneOk, Pair;
    var n := |m| - 1;
    assert p + [u] + m + [r] + q == p + ([u] + m + [r] + q);
    LaneOkAppend(p, [u] + m + [r] + q, parse);
    assert [u] + m + [r] + q == [u, m[0]] + (m[1..] + [r] + q);
    PairFirst(u, m[0], m[1..] + [r] + q, parse);
    if n == 0 {
      assert m[1..] + [r] + q == [r] + q;
      ResumedFirst(r, q, parse);
    } else {
      assert m[1..] + [r] + q == m[1..n] + [m[n], r] + q;
      PairAmid(m[1..n], m[n], r, q, parse);
    }
  }

  /** So a single record of the process between the two halves always makes the trace refused. */
  lemma InterruptedRefused(lines: seq<Line>, pid: string, p: seq<string>, u: string, x: string, r: string,
                           q: seq<string>, parse: Recognizer)
    requires Classify(u).Unfinished? && Classify(r).Resumed?
    requires Lane(lines, pid) == p + [u, x, r] + q
    ensures Summarized(lines, parse) == Refused
  {
    hide Summarized, LaneOk, Lane, Classify, Pair;
    AcceptedIff(lines, parse);
    assert p + [u, x, r] + q == p + [u] + [x] + [r] + q;
    SeparatedPair(p, u, [x], r, q, parse);
  }

  // ----- splitting a call ----------------------------------------------------------------

  lemma ResumedIsClassified(name: string, start: string, tail: string)
    requires name in {FSYNC, FDATASYNC}
    requires Classify(start + tail).Complete?
    ensures Classify(ResumedMark(name) + tail) == Resumed(name, tail)
  {
    var r := ResumedMark(name) + tail;
    ResumedIsFinished(name, start, tail);
    MarkReads(name, tail);
    hide ResumedMark, EndsWith, StartsWith;
  }

  lemma ResumedIsFinished(name: string, start: string, tail: string)
    requires name in {FSYNC, FDATASYNC} && !EndsWith(start + tail, UNFINISHED)
    ensures !EndsWith(ResumedMark(name) + tail, UNFINISHED)
  {
    if |tail| >= |UNFINISHED| {
      hide ResumedMark;
      SameEnd(ResumedMark(name), tail, UNFINISHED);
      SameEnd(start, tail, UNFINISHED);
    } else {
      hide EndsWith, ResumedMark;
      MarkEnd(name, tail);
    }
  }

  lemma SameEnd(s: string, tail: string, pat: string)
    requires |pat| <= |tail|
    ensures EndsWith(s + tail, pat) <==> EndsWith(tail, pat)
  {
    assert (s + tail)[|s + tail| - |pat|..] == tail[|tail| - |pat|..];
  }

  lemma MarkReads(name: string, tail: string)
    requires name in {FSYNC, FDATASYNC}
    ensures var r := ResumedMark(name) + tail;
            && StartsWith(r, ResumedMark(name)) && r[|ResumedMark(name)|..] == tail
            && (name == FDATASYNC ==> !StartsWith(r, ResumedMark(FSYNC)))
  {
    var r := ResumedMark(name) + tail;
    assert r[|ResumedMark(name)|..] == tail;
    if name == FDATASYNC {
      assert r[6] == 'd' && ResumedMark(FSYNC)[6] == 's';
    }
  }

  /** The mark ends in `d>`, which no proper part of the unfinished suffix does. */
  lemma MarkEnd(name: string, tail: string)
    requires name in {FSYNC, FDATASYNC} && |tail| < |UNFINISHED|
    ensures !EndsWith(ResumedMark(name) + tail, UNFINISHED)
  {
    var r := ResumedMark(name) + tail;
    var e := |ResumedMark(name)|;
    assert r[e - 1] == '>' && r[e - 2] == 'd';
    EndsAt(r, UNFINISHED, 16 - |tail|);
    EndsAt(r, UNFINISHED, 15);
  }

  lemma EndsAt(s: string, pat: string, k: nat)
    requires k < |pat|
    ensures EndsWith(s, pat) ==> s[|s| - |pat| + k] == pat[k]
  {
  }

  lemma StartIsClassified(name: string, start: string)
    requires name in {FSYNC, FDATASYNC} && StartsWith(start, name + "(")
    ensures Classify(start + UNFINISHED) == Unfinished(start, true)
  {
    var u := start + UNFINISHED;
    assert u[|u| - |UNFINISHED|..] == UNFINISHED;
    assert u[..|u| - |UNFINISHED|] == start;
    assert u[..|name + "("|] == start[..|name + "("|];
  }

  lemma {:induction false} LaneRunFrom(p: seq<string>, a: seq<string>, b: seq<string>, pending: Option<string>,
                                       parse: Recognizer)
    requires forall x :: LaneRun(a, x, parse) == LaneRun(b, x, parse)
    ensures LaneRun(p + a, pending, parse) == LaneRun(p + b, pending, parse)
  {
    hide LaneStep;
    if p == [] {
      assert p + a == a && p + b == b;
    } else {
      assert (p + a)[1..] == p[1..] + a && (p + b)[1..] == p[1..] + b;
      var e := LaneStep(pending, p[0], parse);
      if e.Some? {
        LaneRunFrom(p[1..], a, b, e.value.pending, parse);
      }
    }
  }

  lemma HalvesStep(name: string, start: string, tail: string, parse: Recognizer)
    requires name in {FSYNC, FDATASYNC} && StartsWith(start, name + "(")
    requires Classify(start + tail).Complete?
    ensures LaneStep(None, start + UNFINISHED, parse) == Some(Effect(Some(start), None))
    ensures LaneStep(Some(start), ResumedMark(name) + tail, parse) == LaneStep(None, start + tail, parse)
    ensures forall p :: LaneStep(Some(p), start + UNFINISHED, parse) == LaneStep(Some(p), start + tail, parse) == None
  {
    StartIsClassified(name, start);
    ResumedIsClassified(name, start, tail);
    CompleteIsText(start + tail);
    hide Classify, StartsWith, ResumedMark;
  }

  lemma LaneRunStep(body: string, q: seq<string>, pending: Option<string>, parse: Recognizer)
    ensures var e := LaneStep(pending, body, parse);
            LaneRun([body] + q, pending, parse) ==
            if e.None? then None else Prefixed(OptSeq(e.value.call), LaneRun(q, e.value.pending, parse))
  {
    hide LaneStep;
    assert ([body] + q)[1..] == q;
  }

  function Prefixed(calls: seq<Call>, r: Option<LaneResult>): Option<LaneResult> {
    if r.None? then None else Some(r.value.(calls := calls + r.value.calls))
  }

  lemma PrefixedNothing(r: Option<LaneResult>)
    ensures Prefixed([], r) == r
  {
    if r.Some? {
      assert [] + r.value.calls == r.value.calls;
    }
  }

  /** The two halves do to a process exactly what the whole call does, accepted or not. */
  lemma SplitInLane(name: string, start: string, tail: string, q: seq<string>, pending: Option<string>,
                    parse: Recognizer)
    requires name in {FSYNC, FDATASYNC} && StartsWith(start, name + "(")
    requires Classify(start + tail).Complete?
    ensures LaneRun([start + tail] + q, pending, parse) ==
            LaneRun([start + UNFINISHED, ResumedMark(name) + tail] + q, pending, parse)
  {
    hide Classify, LaneStep, LaneRun, Prefixed, StartsWith;
    var u, r := start + UNFINISHED, ResumedMark(name) + tail;
    HalvesStep(name, start, tail, parse);
    LaneRunStep(start + tail, q, pending, parse);
    assert [u, r] + q == [u] + ([r] + q);
    LaneRunStep(u, [r] + q, pending, parse);
    if pending.None? {
      LaneRunStep(r, q, Some(start), parse);
      PrefixedNothing(LaneRun([r] + q, Some(start), parse));
    }
  }

  lemma {:induction false} LaneAppend(a: seq<Line>, b: seq<Line>, pid: string)
    ensures Lane(a + b, pid) == Lane(a, pid) + Lane(b, pid)
  {
    if a == [] {
      assert a + b == b;
    } else {
      assert (a + b)[1..] == a[1..] + b;
      LaneAppend(a[1..], b, pid);
    }
  }

  lemma LaneOne(l: Line, pid: string)
    ensures Lane([l], pid) == if l.Record? && l.pid == pid then [l.body] else []
  {
    assert Lane([l][1..], pid) == [];
  }

  lemma LaneOfSplit(pre: seq<Line>, u: Line, mid: seq<Line>, r: seq<Line>, post: seq<Line>, pid: string)
    ensures Lane(pre + [u] + mid + r + post, pid) ==
            Lane(pre, pid) + Lane([u], pid) + Lane(mid, pid) + Lane(r, pid) + Lane(post, pid)
  {
    LaneAppend(pre + [u] + mid + r, post, pid);
    LaneAppend(pre + [u] + mid, r, pid);
    LaneAppend(pre + [u], mid, pid);
    LaneAppend(pre, [u], pid);
  }

  /**
  Splitting any whole call of any trace into an unfinished and a resumed record,
  with any records of other processes in between, leaves the outcome as it was.
   */
  lemma SplitCall(pre: seq<Line>, mid: seq<Line>, post: seq<Line>, pid: string, name: string, start: string,
                  tail: string, parse: Recognizer)
    requires name in {FSYNC, FDATASYNC} && StartsWith(start, name + "(")
    requires Classify(start + tail).Complete?
    requires Lane(mid, pid) == []
    ensures var u, r := Record(pid, start + UNFINISHED), Record(pid, ResumedMark(name) + tail);
            Summarized(pre + [u] + mid + [r] + post, parse) ==
            Summarized(pre + [Record(pid, start + tail)] + mid + [] + post, parse)
  {
    hide Summarized, Classify, LaneRun, Lane;
    var u, r, w := Record(pid, start + UNFINISHED), Record(pid, ResumedMark(name) + tail), Record(pid, start + tail);
    var a := pre + [u] + mid + [r] + post;
    var b := pre + [w] + mid + [] + post;
    assert HasBad(a) == HasBad(b) by {
      assert HasBad(a) <==> HasBad(pre) || HasBad(mid) || HasBad(post);
      assert HasBad(b) <==> HasBad(pre) || HasBad(mid) || HasBad(post);
    }
    forall x
      ensures LaneRun(Lane(a, x), None, parse) == LaneRun(Lane(b, x), None, parse)
    {
      LaneOfSplit(pre, u, mid, [r], post, x);
      LaneOfSplit(pre, w, mid, [], post, x);
      LaneOne(u, x);
      LaneOne(r, x);
      LaneOne(w, x);
      LaneNone(x);
      if x == pid {
        var q := Lane(post, pid);
        forall p
          ensures LaneRun([start + UNFINISHED, ResumedMark(name) + tail] + q, p, parse) ==
                  LaneRun([start + tail] + q, p, parse)
        {
          SplitInLane(name, start, tail, q, p, parse);
        }
        var split := [start + UNFINISHED, ResumedMark(name) + tail] + q;
        LaneRunFrom(Lane(pre, pid), split, [start + tail] + q, None, parse);
        assert Lane(a, x) == Lane(pre, pid) + split;
        assert Lane(b, x) == Lane(pre, pid) + ([start + tail] + q);
      }
    }
    SameLaneRuns(a, b, parse);
  }

  lemma LaneNone(pid: string)
    ensures Lane([], pid) == []
  {
  }

  // ----- splitting a call around records of its own process -----------------------------------

  lemma AcceptedParts(pre: seq<Line>, w: Line, post: seq<Line>, parse: Recognizer)
    requires Summarized(pre + [w] + post, parse).Report?
    requires w.Record? && Classify(w.body).Complete?
    ensures !HasBad(pre) && !HasBad(post)
    ensures LaneOk(Lane(pre, w.pid), parse) && LaneOk(Lane(post, w.pid), parse)
  {
    hide Summarized, Classify, LaneOk, Lane;
    var a := pre + [w] + post;
    AcceptedIff(a, parse);
    assert HasBad(a) <==> HasBad(pre) || HasBad(post);
    LaneAppend(pre + [w], post, w.pid);
    LaneAppend(pre, [w], w.pid);
    LaneOne(w, w.pid);
    var q := Lane(post, w.pid);
    assert Lane(a, w.pid) == Lane(pre, w.pid) + ([w.body] + q);
    LaneOkAppend(Lane(pre, w.pid), [w.body] + q, parse);
    CompleteFirst(w.body, q, parse);
  }

  lemma CompleteFirst(w: string, q: seq<string>, parse: Recognizer)
    requires Classify(w).Complete?
    ensures LaneOk([w] + q, parse) ==> LaneOk(q, parse)
  {
    hide Classify;
    assert ([w] + q)[0] == w && ([w] + q)[1..] == q;
  }

  ghost predicate OthersOk(pre: seq<Line>, mid: seq<Line>, post: seq<Line>, pid: string, parse: Recognizer) {
    forall x :: x != pid ==> LaneOk(Lane(pre, x) + Lane(mid, x) + Lane(post, x), parse)
  }

  /**
  Splitting a whole call of an accepted trace around records of its own process: the
  result is accepted iff what is put in between has no bad line, leaves the other
  processes in order, and resumes the first half and starts the call the second resumes.
   */
  lemma SeparatedSplit(pre: seq<Line>, mid: seq<Line>, post: seq<Line>, pid: string, name: string, start: string,
                       tail: string, parse: Recognizer)
    requires name in {FSYNC, FDATASYNC} && StartsWith(start, name + "(")
    requires Classify(start + tail).Complete?
    requires Summarized(pre + [Record(pid, start + tail)] + post, parse).Report?
    requires Lane(mid, pid) != []
    ensures var u, r := start + UNFINISHED, ResumedMark(name) + tail;
            Summarized(pre + [Record(pid, u)] + mid + [Record(pid, r)] + post, parse).Report? <==>
            !HasBad(mid) && OthersOk(pre, mid, post, pid, parse) && Bridges(u, Lane(mid, pid), r, parse)
  {
    hide Summarized, Classify, LaneOk, Lane, Bridges;
    var u, r := start + UNFINISHED, ResumedMark(name) + tail;
    var a := pre + [Record(pid, u)] + mid + [Record(pid, r)] + post;
    StartIsClassified(name, start);
    ResumedIsClassified(name, start, tail);
    AcceptedParts(pre, Record(pid, start + tail), post, parse);
    AcceptedIff(a, parse);
    assert HasBad(a) <==> HasBad(pre) || HasBad(mid) || HasBad(post);
    forall x
      ensures Lane(a, x) == if x == pid then Lane(pre, x) + [u] + Lane(mid, x) + [r] + Lane(post, x)
                            else Lane(pre, x) + Lane(mid, x) + Lane(post, x)
    {
      LaneOfSplit(pre, Record(pid, u), mid, [Record(pid, r)], post, x);
      LaneOne(Record(pid, u), x);
      LaneOne(Record(pid, r), x);
      assert Lane(pre, x) + [] == Lane(pre, x);
      assert Lane(pre, x) + Lane(mid, x) + [] == Lane(pre, x) + Lane(mid, x);
    }
    SeparatedPair(Lane(pre, pid), u, Lane(mid, pid), r, Lane(post, pid), parse);
    if WellFormed(a, parse) {
      assert LaneOk(Lane(a, pid), parse);
      forall x | x != pid
        ensures LaneOk(Lane(pre, x) + Lane(mid, x) + Lane(post, x), parse)
      {
        assert LaneOk(Lane(a, x), parse);
      }
    }
    if OthersOk(pre, mid, post, pid, parse) && Bridges(u, Lane(mid, pid), r, parse) {
      forall x
        ensures LaneOk(Lane(a, x), parse)
      {
      }
    }
  }

  lemma HalvesPair(name: string, start: string, tail: string, parse: Recognizer)
    requires name in {FSYNC, FDATASYNC} && StartsWith(start, name + "(")
    requires Classify(start + tail).Complete? && parse(start + tail).Some?
    ensures Pair(start + UNFINISHED, ResumedMark(name) + tail, parse)
  {
    StartIsClassified(name, start);
    ResumedIsClassified(name, start, tail);
    hide Classify;
  }

  /**
  So not every record in between refuses: any call that is accepted whole is also accepted
  with its own two halves, resumed part first, between its two halves.
   */
  lemma SeparatedAccepted(pid: string, name: string, start: string, tail: string, parse: Recognizer)
    requires name in {FSYNC, FDATASYNC} && StartsWith(start, name + "(")
    requires Classify(start + tail).Complete? && parse(start + tail).Some?
    ensures var u, r := Record(pid, start + UNFINISHED), Record(pid, ResumedMark(name) + tail);
            && Summarized([Record(pid, start + tail)], parse).Report?
            && Summarized([u] + [r, u] + [r], parse).Report?
  {
    hide Summarized, Classify, Pair;
    var u, r, w := Record(pid, start + UNFINISHED), Record(pid, ResumedMark(name) + tail), Record(pid, start + tail);
    var a := [u] + [r, u] + [r];
    HalvesPair(name, start, tail, parse);
    StartIsClassified(name, start);
    CompleteIsText(w.body);
    forall x
      ensures LaneOk(Lane([w], x), parse) && LaneOk(Lane(a, x), parse)
    {
      LaneOne(w, x);
      assert LaneOk([w.body], parse);
      LaneOfFour(u, r, x);
      PairFirst(u.body, r.body, [], parse);
      PairFirst(u.body, r.body, [u.body, r.body], parse);
      assert [u.body, r.body] + [] == [u.body, r.body];
      assert [u.body, r.body] + [u.body, r.body] == [u.body, r.body, u.body, r.body];
    }
    AcceptedIff([w], parse);
    AcceptedIff(a, parse);
  }

  lemma LaneOfFour(u: Line, r: Line, pid: string)
    requires u.Record? && r.Record? && u.pid == r.pid
    ensures Lane([u] + [r, u] + [r], pid) == if pid == u.pid then [u.body, r.body, u.body, r.body] else []
  {
    hide Lane;
    assert [u] + [r, u] + [r] == [u] + [r] + [u] + [r];
    LaneAppend([u] + [r] + [u], [r], pid);
    LaneAppend([u] + [r], [u], pid);
    LaneAppend([u], [r], pid);
    LaneOne(u, pid);
    LaneOne(r, pid);
  }
}
