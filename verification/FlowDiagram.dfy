/**
The flow and state diagrams of the SVG generator: what `parse_flow` accumulates
from its recognised statements.
 */
module FlowDiagram {
  import opened Text
  import opened Ordering
  import opened Relaxation

  datatype Shape = Rect | Round | Stadium | Diamond | Circle | Subroutine | StartEnd

  datatype Node = Node(shape: Shape, text: string)

  /** One mention of a node; `text` is absent when the mention carries no label. */
  datatype Mention = Mention(id: string, shape: Shape, text: Option<string>)

  datatype Statement =
    | EdgeLine(groups: seq<seq<Mention>>, captions: seq<string>)
    | StateLine(id: string, text: string)
    | NodeLine(mention: Mention)

  const START := "__START__"

  // ----- registration ---------------------------------------------------------

  /** The ids of a log of mentions, each where it first appears. */
  function Firsts(log: seq<Mention>): seq<string> {
    if log == [] then []
    else
      var before := Firsts(log[..|log| - 1]);
      var id := log[|log| - 1].id;
      if id in before then before else before + [id]
  }

  /** The last label given to `id`; a node without one is labelled with its id. */
  function LastText(log: seq<Mention>, id: string): string {
    if log == [] then id
    else
      var m := log[|log| - 1];
      if m.id == id && m.text.Some? then m.text.value else LastText(log[..|log| - 1], id)
  }

  /** The last shape other than a rectangle given to `id`. */
  function LastShape(log: seq<Mention>, id: string): Shape {
    if log == [] then Rect
    else
      var m := log[|log| - 1];
      if m.id == id && m.shape != Rect then m.shape else LastShape(log[..|log| - 1], id)
  }

  /** How the parser registers a mention on an edge line or as a bare node. */
  function AsRegistered(m: Mention, statelike: bool, bare: bool): Mention {
    if statelike && m.id == START then Mention(m.id, StartEnd, Some(""))
    else if statelike && bare then Mention(m.id, Round, m.text)
    else m
  }

  function Registrations(st: Statement, statelike: bool): seq<Mention> {
    match st
    case EdgeLine(groups, _) => GroupRegistrations(groups, statelike)
    case StateLine(id, text) =>
      [if id == START then Mention(id, StartEnd, Some("")) else Mention(id, Round, Some(text))]
    case NodeLine(m) => [AsRegistered(m, statelike, true)]
  }

  function GroupRegistrations(groups: seq<seq<Mention>>, statelike: bool): seq<Mention> {
    if groups == [] then []
    else
      GroupRegistrations(groups[..|groups| - 1], statelike) + EachRegistered(groups[|groups| - 1], statelike)
  }

  function EachRegistered(group: seq<Mention>, statelike: bool): seq<Mention> {
    if group == [] then []
    else
      EachRegistered(group[..|group| - 1], statelike) + [AsRegistered(group[|group| - 1], statelike, false)]
  }

  /** The edges of an edge line: every member of a group to every member of the next one. */
  function EdgesOf(groups: seq<seq<Mention>>, captions: seq<string>, upTo: nat): seq<Edge>
    requires upTo < |groups| || upTo == 0
  {
    if upTo == 0 then []
    else
      EdgesOf(groups, captions, upTo - 1) +
      Pairs(groups[upTo - 1], groups[upTo], CaptionAt(captions, upTo - 1), |groups[upTo - 1]|)
  }

  function CaptionAt(captions: seq<string>, i: nat): string {
    if i < |captions| then captions[i] else ""
  }

  function Pairs(a: seq<Mention>, b: seq<Mention>, caption: string, upTo: nat): seq<Edge>
    requires upTo <= |a|
  {
    if upTo == 0 then [] else Pairs(a, b, caption, upTo - 1) + Fan(a[upTo - 1], b, caption, |b|)
  }

  function Fan(a: Mention, b: seq<Mention>, caption: string, upTo: nat): seq<Edge>
    requires upTo <= |b|
  {
    if upTo == 0 then [] else Fan(a, b, caption, upTo - 1) + [Edge(a.id, b[upTo - 1].id, caption)]
  }

  function StatementEdges(st: Statement): seq<Edge> {
    if st.EdgeLine? && st.groups != [] then EdgesOf(st.groups, st.captions, |st.groups| - 1) else []
  }

  function AllRegistrations(statements: seq<Statement>, statelike: bool): seq<Mention> {
    if statements == [] then []
    else
      var n := |statements| - 1;
      AllRegistrations(statements[..n], statelike) + Registrations(statements[n], statelike)
  }

  function AllEdges(statements: seq<Statement>): seq<Edge> {
    if statements == [] then []
    else
      var n := |statements| - 1;
      AllEdges(statements[..n]) + StatementEdges(statements[n])
  }

  /** State diagrams draw every plain rectangle with rounded corners. */
  function FinalNode(id: string, node: Node, statelike: bool): Node {
    if statelike && id != START && node.shape == Rect then node.(shape := Round) else node
  }

  /** Every mention on an edge line is registered under its id, the start node in its own shape without a label. */
  lemma {:induction false} MentionRegistered(groups: seq<seq<Mention>>, statelike: bool, i: nat, m: Mention)
    returns (r: Mention)
    requires i < |groups| && m in groups[i]
    ensures r in GroupRegistrations(groups, statelike) && r.id == m.id
    ensures if statelike && m.id == START then r.shape == StartEnd && r.text == Some("") else r == m
  {
    var n := |groups| - 1;
    if i == n {
      r := MentionInGroup(groups[n], statelike, m);
    } else {
      r := MentionRegistered(groups[..n], statelike, i, m);
    }
  }

  lemma {:induction false} MentionInGroup(group: seq<Mention>, statelike: bool, m: Mention) returns (r: Mention)
    requires m in group
    ensures r in EachRegistered(group, statelike) && r == AsRegistered(m, statelike, false)
  {
    var n := |group| - 1;
    r := AsRegistered(m, statelike, false);
    if m != group[n] {
      r := MentionInGroup(group[..n], statelike, m);
    }
  }

  /** `nodes` and `order` are what the registrations of `log` amount to. */
  ghost predicate Follows(nodes: map<string, Node>, order: seq<string>, log: seq<Mention>) {
    && order == Firsts(log)
    && Distinct(order)
    && (forall n :: n in nodes <==> n in order)
    && (forall n <- nodes :: nodes[n] == Node(LastShape(log, n), LastText(log, n)))
  }

  lemma RegisterFollows(nodes: map<string, Node>, order: seq<string>, log: seq<Mention>, m: Mention)
    requires Follows(nodes, order, log)
    ensures m.id !in nodes ==>
              Follows(nodes[m.id := Node(m.shape, if m.text.Some? then m.text.value else m.id)],
                      order + [m.id], log + [m])
    ensures m.id in nodes ==>
              Follows(nodes[m.id := Node(if m.shape != Rect then m.shape else nodes[m.id].shape,
                                         if m.text.Some? then m.text.value else nodes[m.id].text)],
                      order, log + [m])
  {
    assert (log + [m])[..|log|] == log;
    if m.id !in nodes {
      NeverMentioned(log, m.id);
    }
  }

  class Diagram {
    var nodes: map<string, Node>
    var order: seq<string>
    var edges: seq<Edge>
    /** Every registration made so far. */
    ghost var log: seq<Mention>

    ghost predicate Valid()
      reads this
    {
      && Follows(nodes, order, log)
      && forall e <- edges :: e.source in nodes && e.target in nodes
    }

    constructor ()
      ensures Valid() && log == [] && edges == []
    {
      nodes, order, edges, log := map[], [], [], [];
    }

    /** `reg`. */
    method Register(m: Mention)
      requires Valid()
      modifies this
      ensures Valid() && log == old(log) + [m] && edges == old(edges)
    {
      hide Follows;
      RegisterFollows(nodes, order, log, m);
      if m.id !in nodes {
        nodes := nodes[m.id := Node(m.shape, if m.text.Some? then m.text.value else m.id)];
        order := order + [m.id];
      } else {
        if m.text.Some? {
          nodes := nodes[m.id := nodes[m.id].(text := m.text.value)];
        }
        if m.shape != Rect {
          nodes := nodes[m.id := nodes[m.id].(shape := m.shape)];
        }
        assert nodes == old(nodes)[m.id := nodes[m.id]];
      }
      log := log + [m];
    }

    /** The registration loops of an edge line. */
    method RegisterGroups(groups: seq<seq<Mention>>, statelike: bool)
      requires Valid()
      modifies this
      ensures Valid() && edges == old(edges)
      ensures log == old(log) + GroupRegistrations(groups, statelike)
    {
      hide Diagram.Valid;
      for i := 0 to |groups|
        invariant Valid() && edges == old(edges)
        invariant log == old(log) + GroupRegistrations(groups[..i], statelike)
      {
        RegisterGroup(groups[i], statelike);
        assert groups[..i + 1][..i] == groups[..i];
      }
      assert groups[..|groups|] == groups;
    }

    method RegisterGroup(group: seq<Mention>, statelike: bool)
      requires Valid()
      modifies this
      ensures Valid() && edges == old(edges)
      ensures log == old(log) + EachRegistered(group, statelike)
    {
      hide Diagram.Valid;
      for j := 0 to |group|
        invariant Valid() && edges == old(edges)
        invariant log == old(log) + EachRegistered(group[..j], statelike)
      {
        Register(AsRegistered(group[j], statelike, false));
        assert group[..j + 1][..j] == group[..j];
      }
      assert group[..|group|] == group;
    }

    /** The edge loops of an edge line. */
    method AddEdges(groups: seq<seq<Mention>>, captions: seq<string>)
      requires Valid()
      requires forall i :: 0 <= i < |groups| ==> Known(groups[i])
      modifies this`edges
      ensures Valid()
      ensures edges == old(edges) + EdgesOf(groups, captions, if groups == [] then 0 else |groups| - 1)
    {
      hide Diagram.Valid, Diagram.Known, Pairs, CaptionAt;
      var i := 0;
      while i + 1 < |groups|
        invariant if groups == [] then i == 0 else i < |groups|
        invariant Valid() && forall k :: 0 <= k < |groups| ==> Known(groups[k])
        invariant edges == old(edges) + EdgesOf(groups, captions, i)
      {
        AddPairs(groups[i], groups[i + 1], CaptionAt(captions, i));
        i := i + 1;
      }
    }

    method AddPairs(a: seq<Mention>, b: seq<Mention>, caption: string)
      requires Valid() && Known(a) && Known(b)
      modifies this`edges
      ensures Valid()
      ensures edges == old(edges) + Pairs(a, b, caption, |a|)
    {
      hide Diagram.Valid;
      for j := 0 to |a|
        invariant Valid()
        invariant edges == old(edges) + Pairs(a, b, caption, j)
      {
        AddFan(a[j], b, caption);
      }
    }

    method AddFan(a: Mention, b: seq<Mention>, caption: string)
      requires Valid() && a.id in nodes && Known(b)
      modifies this`edges
      ensures Valid()
      ensures edges == old(edges) + Fan(a, b, caption, |b|)
    {
      hide Diagram.Valid;
      for k := 0 to |b|
        invariant Valid()
        invariant edges == old(edges) + Fan(a, b, caption, k)
      {
        AddEdge(Edge(a.id, b[k].id, caption));
      }
    }

    method AddEdge(e: Edge)
      requires Valid() && e.source in nodes && e.target in nodes
      modifies this`edges
      ensures Valid() && edges == old(edges) + [e]
    {
      edges := edges + [e];
    }

    /** One recognised statement. */
    method Accept(st: Statement, statelike: bool)
      requires Valid()
      modifies this
      ensures Valid()
      ensures log == old(log) + Registrations(st, statelike)
      ensures edges == old(edges) + StatementEdges(st)
    {
      hide Diagram.Valid;
      match st
      case EdgeLine(groups, captions) =>
        RegisterGroups(groups, statelike);
        assert forall i :: 0 <= i < |groups| ==> Known(groups[i]) by {
          GroupsKnown(groups, statelike);
        }
        AddEdges(groups, captions);
      case StateLine(id, text) =>
        Register(if id == START then Mention(id, StartEnd, Some("")) else Mention(id, Round, Some(text)));
      case NodeLine(m) =>
        Register(AsRegistered(m, statelike, true));
    }

    lemma GroupsKnown(groups: seq<seq<Mention>>, statelike: bool)
      requires Valid()
      requires exists before :: log == before + GroupRegistrations(groups, statelike)
      ensures forall i :: 0 <= i < |groups| ==> Known(groups[i])
    {
      var before :| log == before + GroupRegistrations(groups, statelike);
      FirstsCover(log);
      forall i | 0 <= i < |groups|
        ensures Known(groups[i])
      {
        forall m <- groups[i]
          ensures m.id in nodes
        {
          var r := MentionRegistered(groups, statelike, i, m);
          assert r in log;
        }
      }
    }

    /** The loop over the statements, and the final pass that rounds the corners of states. */
    method Parse(statements: seq<Statement>, statelike: bool) returns (final: map<string, Node>)
      requires Valid() && log == [] && edges == []
      modifies this
      ensures Valid()
      ensures log == AllRegistrations(statements, statelike) && edges == AllEdges(statements)
      ensures final.Keys == nodes.Keys
      ensures forall n <- final :: final[n].text == nodes[n].text
      ensures forall n <- final :: final[n].shape ==
                if statelike && n != "__START__" && nodes[n].shape == Rect then Round else nodes[n].shape
    {
      hide Diagram.Valid, Registrations, StatementEdges;
      for k := 0 to |statements|
        invariant Valid()
        invariant log == AllRegistrations(statements[..k], statelike)
        invariant edges == AllEdges(statements[..k])
      {
        assert statements[..k + 1][..k] == statements[..k];
        Accept(statements[k], statelike);
      }
      assert statements[..|statements|] == statements;
      final := map n | n in nodes :: FinalNode(n, nodes[n], statelike);
    }

    ghost predicate Known(group: seq<Mention>)
      reads this`nodes
    {
      forall m <- group :: m.id in nodes
    }
  }

  lemma {:induction false} NeverMentioned(log: seq<Mention>, id: string)
    requires id !in Firsts(log)
    ensures LastShape(log, id) == Rect && LastText(log, id) == id
  {
    if log != [] {
      assert log[|log| - 1].id in Firsts(log);
      NeverMentioned(log[..|log| - 1], id);
    }
  }

  lemma {:induction false} FirstsCover(log: seq<Mention>)
    ensures forall m <- log :: m.id in Firsts(log)
  {
    if log != [] {
      FirstsCover(log[..|log| - 1]);
      assert log == log[..|log| - 1] + [log[|log| - 1]];
    }
  }

  // ----- which edges a statement gives ------------------------------------------------

  /** The edge from member `j` of group `i` to member `k` of the next group, with its caption if there is one. */
  ghost predicate IsEdge(groups: seq<seq<Mention>>, captions: seq<string>, i: nat, j: nat, k: nat, e: Edge) {
    && i + 1 < |groups| && j < |groups[i]| && k < |groups[i + 1]|
    && e.source == groups[i][j].id
    && e.target == groups[i + 1][k].id
    && e.caption == if i < |captions| then captions[i] else ""
  }

  lemma {:induction false} FanAt(a: Mention, b: seq<Mention>, caption: string, upTo: nat)
    requires upTo <= |b|
    ensures |Fan(a, b, caption, upTo)| == upTo
    ensures forall k :: 0 <= k < upTo ==> Fan(a, b, caption, upTo)[k] == Edge(a.id, b[k].id, caption)
  {
    if upTo > 0 {
      FanAt(a, b, caption, upTo - 1);
    }
  }

  lemma {:induction false} PairsAre(a: seq<Mention>, b: seq<Mention>, caption: string, upTo: nat, e: Edge)
    requires upTo <= |a|
    ensures e in Pairs(a, b, caption, upTo) <==>
            exists j, k :: 0 <= j < upTo && 0 <= k < |b| && e == Edge(a[j].id, b[k].id, caption)
  {
    hide Fan;
    if upTo > 0 {
      PairsAre(a, b, caption, upTo - 1, e);
      FanAt(a[upTo - 1], b, caption, |b|);
      var fan := Fan(a[upTo - 1], b, caption, |b|);
      if e in fan {
        var k :| 0 <= k < |b| && fan[k] == e;
        assert e == Edge(a[upTo - 1].id, b[k].id, caption);
      }
      if exists j, k :: 0 <= j < upTo && 0 <= k < |b| && e == Edge(a[j].id, b[k].id, caption) {
        var j, k :| 0 <= j < upTo && 0 <= k < |b| && e == Edge(a[j].id, b[k].id, caption);
        if j == upTo - 1 {
          assert fan[k] == e;
        }
      }
    }
  }

  /** The pairs come member by member of the first group, and for each in the order of the second. */
  lemma {:induction false} PairAtIndex(a: seq<Mention>, b: seq<Mention>, caption: string, upTo: nat, j: nat, k: nat)
    requires upTo <= |a| && j < upTo && k < |b|
    ensures |Pairs(a, b, caption, upTo)| == upTo * |b|
    ensures 0 <= j * |b| + k < upTo * |b|
    ensures Pairs(a, b, caption, upTo)[j * |b| + k] == Edge(a[j].id, b[k].id, caption)
  {
    hide Fan;
    FanAt(a[upTo - 1], b, caption, |b|);
    IndexInside(j, k, upTo, |b|);
    if j < upTo - 1 {
      PairAtIndex(a, b, caption, upTo - 1, j, k);
    } else {
      PairsLength(a, b, caption, upTo - 1);
    }
    PairsLength(a, b, caption, upTo);
  }

  lemma {:induction false} PairsLength(a: seq<Mention>, b: seq<Mention>, caption: string, upTo: nat)
    requires upTo <= |a|
    ensures |Pairs(a, b, caption, upTo)| == upTo * |b|
  {
    hide Fan;
    if upTo > 0 {
      PairsLength(a, b, caption, upTo - 1);
      FanAt(a[upTo - 1], b, caption, |b|);
    }
  }

  lemma IndexInside(j: nat, k: nat, n: nat, m: nat)
    requires j < n && k < m
    ensures 0 <= j * m + k < n * m
    ensures j < n - 1 ==> j * m + k < (n - 1) * m
  {
    assert (j + 1) * m <= n * m;
    assert j < n - 1 ==> (j + 1) * m <= (n - 1) * m;
  }

  lemma {:induction false} EdgesOfAre(groups: seq<seq<Mention>>, captions: seq<string>, upTo: nat, e: Edge)
    requires upTo < |groups| || upTo == 0
    ensures e in EdgesOf(groups, captions, upTo) <==>
            exists i: nat, j: nat, k: nat :: i < upTo && IsEdge(groups, captions, i, j, k, e)
  {
    hide Pairs;
    if upTo > 0 {
      var n := upTo - 1;
      var a, b, caption := groups[n], groups[upTo], CaptionAt(captions, n);
      EdgesOfAre(groups, captions, n, e);
      PairsAre(a, b, caption, |a|, e);
      if e in Pairs(a, b, caption, |a|) {
        var j, k :| 0 <= j < |a| && 0 <= k < |b| && e == Edge(a[j].id, b[k].id, caption);
        assert IsEdge(groups, captions, n, j, k, e);
      }
      if exists i: nat, j: nat, k: nat :: i < upTo && IsEdge(groups, captions, i, j, k, e) {
        var i: nat, j: nat, k: nat :| i < upTo && IsEdge(groups, captions, i, j, k, e);
        if i == n {
          assert e == Edge(a[j].id, b[k].id, caption);
        }
      }
    }
  }

  /** A statement's edges lead from each member of a group to each member of the next, and there are no others. */
  lemma StatementEdgesAre(groups: seq<seq<Mention>>, captions: seq<string>, e: Edge)
    ensures e in StatementEdges(EdgeLine(groups, captions)) <==>
            exists i: nat, j: nat, k: nat :: IsEdge(groups, captions, i, j, k, e)
  {
    hide EdgesOf;
    if groups != [] {
      EdgesOfAre(groups, captions, |groups| - 1, e);
    }
  }

  lemma {:induction false} AllEdgesAre(statements: seq<Statement>, e: Edge)
    ensures e in AllEdges(statements) <==> exists st <- statements :: e in StatementEdges(st)
    ensures forall st <- statements :: !st.EdgeLine? ==> StatementEdges(st) == []
  {
    hide EdgesOf;
    if statements != [] {
      var n := |statements| - 1;
      AllEdgesAre(statements[..n], e);
      assert statements == statements[..n] + [statements[n]];
    }
  }

  // ----- what registering amounts to -----------------------------------------------------

  /** A node carries the label of its last labelled mention. */
  lemma {:induction false} LastTextIs(log: seq<Mention>, id: string, k: nat)
    requires k < |log| && log[k].id == id && log[k].text.Some?
    requires forall j :: k < j < |log| && log[j].id == id ==> log[j].text.None?
    ensures LastText(log, id) == log[k].text.value
  {
    if k < |log| - 1 {
      LastTextIs(log[..|log| - 1], id, k);
    }
  }

  lemma {:induction false} NeverLabelled(log: seq<Mention>, id: string)
    requires forall m <- log :: m.id == id ==> m.text.None?
    ensures LastText(log, id) == id
  {
    if log != [] {
      NeverLabelled(log[..|log| - 1], id);
    }
  }

  /** A node has the shape of its last mention that is not a rectangle. */
  lemma {:induction false} LastShapeIs(log: seq<Mention>, id: string, k: nat)
    requires k < |log| && log[k].id == id && log[k].shape != Rect
    requires forall j :: k < j < |log| && log[j].id == id ==> log[j].shape == Rect
    ensures LastShape(log, id) == log[k].shape
  {
    if k < |log| - 1 {
      LastShapeIs(log[..|log| - 1], id, k);
    }
  }

  lemma {:induction false} NeverShaped(log: seq<Mention>, id: string)
    requires forall m <- log :: m.id == id ==> m.shape == Rect
    ensures LastShape(log, id) == Rect
  {
    if log != [] {
      NeverShaped(log[..|log| - 1], id);
    }
  }

  /** The order lists ids as they are first mentioned: what was mentioned earlier stands in front. */
  lemma {:induction false} FirstsGrow(log: seq<Mention>, i: nat)
    requires i <= |log|
    ensures Firsts(log[..i]) <= Firsts(log)
    ensures forall id <- Firsts(log) :: exists m <- log :: m.id == id
    decreases |log|
  {
    if log != [] {
      var front := log[..|log| - 1];
      if i < |log| {
        FirstsGrow(front, i);
        assert front[..i] == log[..i];
      } else {
        FirstsGrow(front, |front|);
        assert log[..i] == log;
      }
    }
  }

  /** On an edge line only the start node of a state diagram is changed. */
  function OnEdgeLine(x: Mention, statelike: bool): Mention {
    if !statelike || x.id != "__START__" then x else Mention("__START__", StartEnd, Some(""))
  }

  /** How a statement registers its nodes, for each kind of statement. */
  lemma RegistrationsAre(st: Statement, statelike: bool, m: Mention)
    ensures m in Registrations(st, statelike) <==>
            match st
            case EdgeLine(groups, _) => exists g <- groups, x <- g :: m == OnEdgeLine(x, statelike)
            case StateLine(id, text) =>
              m.id == id && (if id == "__START__" then m.shape == StartEnd && m.text == Some("")
                             else m.shape == Round && m.text == Some(text))
            case NodeLine(x) =>
              m.id == x.id && (if !statelike then m == x
                               else if x.id == "__START__" then m.shape == StartEnd && m.text == Some("")
                               else m.shape == Round && m.text == x.text)
  {
    if st.EdgeLine? {
      GroupRegistrationsAre(st.groups, statelike, m);
    }
  }

  lemma {:induction false} EachAt(group: seq<Mention>, statelike: bool)
    ensures |EachRegistered(group, statelike)| == |group|
    ensures forall k :: 0 <= k < |group| ==> EachRegistered(group, statelike)[k] == OnEdgeLine(group[k], statelike)
  {
    if group != [] {
      EachAt(group[..|group| - 1], statelike);
    }
  }

  lemma {:induction false} GroupRegistrationsAre(groups: seq<seq<Mention>>, statelike: bool, m: Mention)
    ensures m in GroupRegistrations(groups, statelike) <==> exists g <- groups, x <- g :: m == OnEdgeLine(x, statelike)
  {
    hide EachRegistered;
    if groups != [] {
      var n := |groups| - 1;
      GroupRegistrationsAre(groups[..n], statelike, m);
      EachAt(groups[n], statelike);
      assert groups == groups[..n] + [groups[n]];
      var each := EachRegistered(groups[n], statelike);
      if m in each {
        var k :| 0 <= k < |each| && each[k] == m;
        assert groups[n][k] in groups[n] && groups[n] in groups;
      }
      if exists x <- groups[n] :: m == OnEdgeLine(x, statelike) {
        var x :| x in groups[n] && m == OnEdgeLine(x, statelike);
        var k :| 0 <= k < |groups[n]| && groups[n][k] == x;
        assert each[k] == m;
      }
    }
  }

  /** Statements add to what the ones before them gave, and change none of it. */
  lemma {:induction false} StatementsAdd(statements: seq<Statement>, statelike: bool, i: nat)
    requires i <= |statements|
    ensures AllRegistrations(statements[..i], statelike) <= AllRegistrations(statements, statelike)
    ensures AllEdges(statements[..i]) <= AllEdges(statements)
    decreases |statements|
  {
    hide Registrations, StatementEdges;
    if i == |statements| {
      assert statements[..i] == statements;
    } else {
      var front := statements[..|statements| - 1];
      assert front[..i] == statements[..i];
      StatementsAdd(front, statelike, i);
    }
  }

  /** Within a statement the edges between earlier groups come first. */
  lemma {:induction false} GroupsAdd(groups: seq<seq<Mention>>, captions: seq<string>, i: nat, upTo: nat)
    requires i <= upTo && (upTo < |groups| || upTo == 0)
    ensures EdgesOf(groups, captions, i) <= EdgesOf(groups, captions, upTo)
    decreases upTo
  {
    hide Pairs;
    if i < upTo {
      GroupsAdd(groups, captions, i, upTo - 1);
    }
  }
}
