/**
The first half of `layered_layout`: longest-path depths by repeated in-place
relaxation under a budget of one round more than there are nodes.
 */
module Relaxation {

  datatype Edge = Edge(source: string, target: string, caption: string)

  /** Does some edge between registered nodes lead from `a` to `b`? */
  ghost predicate Linked(a: string, b: string, nodes: set<string>, edges: seq<Edge>) {
    a in nodes && b in nodes && exists e <- edges :: e.source == a && e.target == b
  }

  ghost predicate Walk(p: seq<string>, nodes: set<string>, edges: seq<Edge>) {
    && (forall i :: 0 <= i < |p| ==> p[i] in nodes)
    && (forall i, j :: 0 <= i && j == i + 1 < |p| ==> Linked(p[i], p[j], nodes, edges))
  }

  ghost predicate WalkTo(p: seq<string>, v: string, nodes: set<string>, edges: seq<Edge>) {
    p != [] && p[|p| - 1] == v && Walk(p, nodes, edges)
  }

  ghost predicate Repeats(p: seq<string>) {
    exists i, j :: 0 <= i < j < |p| && p[i] == p[j]
  }

  ghost predicate Acyclic(nodes: set<string>, edges: seq<Edge>) {
    forall p :: Walk(p, nodes, edges) ==> !Repeats(p)
  }

  /** Some walk into `v` runs through a cycle. */
  ghost predicate FedByCycle(v: string, nodes: set<string>, edges: seq<Edge>) {
    exists p :: WalkTo(p, v, nodes, edges) && Repeats(p)
  }

  /** `d` edges is the length of the longest walk into `v`. */
  ghost predicate IsLongest(d: nat, v: string, nodes: set<string>, edges: seq<Edge>) {
    && (exists p :: WalkTo(p, v, nodes, edges) && |p| == d + 1)
    && (forall p :: WalkTo(p, v, nodes, edges) ==> |p| <= d + 1)
  }

  // ----- what the rounds keep -----------------------------------------------

  /** Every depth is the length of some walk into its node. */
  ghost predicate Witnessed(depth: map<string, nat>, nodes: set<string>, edges: seq<Edge>) {
    && depth.Keys == nodes
    && forall v <- nodes :: exists p :: WalkTo(p, v, nodes, edges) && |p| == depth[v] + 1
  }

  /** Walks of at most `r` edges are accounted for. */
  ghost predicate Covers(depth: map<string, nat>, r: nat, nodes: set<string>, edges: seq<Edge>) {
    && depth.Keys == nodes
    && forall p, v :: WalkTo(p, v, nodes, edges) && |p| <= r + 1 ==> depth[v] + 1 >= |p|
  }

  /** No edge between registered nodes is left to relax. */
  ghost predicate Settled(depth: map<string, nat>, nodes: set<string>, edges: seq<Edge>) {
    && depth.Keys == nodes
    && forall a, b :: Linked(a, b, nodes, edges) ==> depth[b] >= depth[a] + 1
  }

  lemma WalkPrefix(p: seq<string>, k: nat, nodes: set<string>, edges: seq<Edge>)
    requires Walk(p, nodes, edges) && 0 < k <= |p|
    ensures WalkTo(p[..k], p[k - 1], nodes, edges)
  {
  }

  lemma WalkSuffix(p: seq<string>, k: nat, v: string, nodes: set<string>, edges: seq<Edge>)
    requires WalkTo(p, v, nodes, edges) && k < |p|
    ensures WalkTo(p[k..], v, nodes, edges)
  {
  }

  lemma WalkExtend(p: seq<string>, a: string, b: string, nodes: set<string>, edges: seq<Edge>)
    requires WalkTo(p, a, nodes, edges) && Linked(a, b, nodes, edges)
    ensures WalkTo(p + [b], b, nodes, edges)
  {
  }

  /** One edge relaxed in place. */
  function RelaxEdge(depth: map<string, nat>, e: Edge): map<string, nat> {
    if e.source in depth && e.target in depth && depth[e.target] < depth[e.source] + 1
    then depth[e.target := depth[e.source] + 1] else depth
  }

  /** The edges relaxed one after another, each on what the ones before it left. */
  function Pass(depth: map<string, nat>, edges: seq<Edge>): map<string, nat> {
    if edges == [] then depth else RelaxEdge(Pass(depth, edges[..|edges| - 1]), edges[|edges| - 1])
  }

  lemma PassOfNone(depth: map<string, nat>, edges: seq<Edge>)
    ensures Pass(depth, edges[..0]) == depth
  {
  }

  lemma PassGrows(depth: map<string, nat>, edges: seq<Edge>, k: nat)
    requires k < |edges|
    ensures Pass(depth, edges[..k + 1]) == RelaxEdge(Pass(depth, edges[..k]), edges[k])
  {
    assert edges[..k + 1][..k] == edges[..k];
  }

  /** A pass keeps the nodes and lowers no depth, however it is split. */
  lemma {:induction false} PassRaises(depth: map<string, nat>, edges: seq<Edge>, i: nat)
    requires i <= |edges|
    ensures Pass(depth, edges[..i]).Keys == Pass(depth, edges).Keys == depth.Keys
    ensures forall v <- depth :: depth[v] <= Pass(depth, edges[..i])[v] <= Pass(depth, edges)[v]
    decreases |edges|
  {
    if i == |edges| {
      assert edges[..i] == edges;
      if i > 0 {
        PassRaises(depth, edges[..i - 1], 0);
      }
    } else {
      var front := edges[..|edges| - 1];
      assert front[..i] == edges[..i];
      PassRaises(depth, front, i);
    }
  }

  /** Within one pass depths carry over: an edge that starts where an earlier one ended counts both. */
  lemma PassCarries(depth: map<string, nat>, edges: seq<Edge>, i: nat, j: nat)
    requires i < j < |edges| && edges[i].target == edges[j].source
    requires edges[i].source in depth && edges[i].target in depth && edges[j].target in depth
    ensures edges[j].target in Pass(depth, edges)
    ensures Pass(depth, edges)[edges[j].target] >= depth[edges[i].source] + 2
  {
    hide Pass;
    PassRaises(depth, edges, i);
    PassGrows(depth, edges, i);
    assert edges[..j][..i + 1] == edges[..i + 1];
    PassRaises(depth, edges[..j], i + 1);
    PassGrows(depth, edges, j);
    PassRaises(depth, edges, j + 1);
  }

  function Zeros(nodes: set<string>): map<string, nat> {
    map v | v in nodes :: 0
  }

  function Passes(depth: map<string, nat>, edges: seq<Edge>, k: nat): map<string, nat> {
    if k == 0 then depth else Pass(Passes(depth, edges, k - 1), edges)
  }

  /** Round `k + 1` changes something. */
  ghost predicate Moves(nodes: set<string>, edges: seq<Edge>, k: nat) {
    Passes(Zeros(nodes), edges, k + 1) != Passes(Zeros(nodes), edges, k)
  }

  ghost predicate Moving(nodes: set<string>, edges: seq<Edge>, rounds: nat) {
    forall k: nat :: k < rounds ==> Moves(nodes, edges, k)
  }

  /** Rounds go on as long as they change something, up to one more than there are nodes. */
  ghost predicate Budgeted(nodes: set<string>, edges: seq<Edge>, settled: bool, rounds: nat) {
    if settled then
      0 < rounds <= |nodes| + 1 && Moving(nodes, edges, rounds - 1) && !Moves(nodes, edges, rounds - 1)
    else
      rounds == |nodes| + 1 && Moving(nodes, edges, rounds)
  }

  /** No depth is lowered, and every edge's target is beyond its source's earlier depth. */
  ghost predicate Raised(depth0: map<string, nat>, depth: map<string, nat>, nodes: set<string>, edges: seq<Edge>) {
    && depth0.Keys == depth.Keys == nodes
    && (forall v <- nodes :: depth0[v] <= depth[v])
    && forall a, b :: Linked(a, b, nodes, edges) ==> depth[b] >= depth0[a] + 1
  }

  /** The inner loop: one pass over the edges. */
  method RelaxRound(nodes: set<string>, edges: seq<Edge>, depth0: map<string, nat>, ghost bound: nat)
    returns (depth: map<string, nat>, changed: bool)
    requires Witnessed(depth0, nodes, edges)
    requires depth0.Keys == nodes && AtMost(depth0, nodes, bound)
    ensures Witnessed(depth, nodes, edges) && depth.Keys == nodes && AtMost(depth, nodes, bound + |edges|)
    ensures Raised(depth0, depth, nodes, edges)
    ensures changed <==> depth != depth0
    ensures depth == Pass(depth0, edges)
  {
    hide Witnessed, Linked, Pass;
    PassOfNone(depth0, edges);
    depth, changed := depth0, false;
    for k := 0 to |edges|
      invariant Witnessed(depth, nodes, edges) && depth.Keys == nodes
      invariant forall v <- nodes :: depth0[v] <= depth[v] <= bound + k
      invariant PassedEdges(depth0, depth, nodes, edges[..k])
      invariant depth == Pass(depth0, edges[..k])
      invariant changed <==> depth != depth0
    {
      var a, b := edges[k].source, edges[k].target;
      assert edges[..k + 1] == edges[..k] + [edges[k]];
      PassGrows(depth0, edges, k);
      if a in depth && b in depth && depth[b] < depth[a] + 1 {
        EdgeLinks(k, nodes, edges);
        RelaxWitness(depth, a, b, nodes, edges);
        assert depth0[b] < depth[a] + 1;
        depth, changed := depth[b := depth[a] + 1], true;
      }
    }
    assert edges[..|edges|] == edges;
    PassCovers(depth0, depth, nodes, edges);
  }

  /** The edges passed so far are relaxed with respect to the depths the round began with. */
  ghost predicate PassedEdges(depth0: map<string, nat>, depth: map<string, nat>, nodes: set<string>, passed: seq<Edge>)
    requires depth0.Keys == depth.Keys == nodes
  {
    forall e <- passed :: e.source in nodes && e.target in nodes ==> depth[e.target] >= depth0[e.source] + 1
  }

  lemma EdgeLinks(k: nat, nodes: set<string>, edges: seq<Edge>)
    requires k < |edges| && edges[k].source in nodes && edges[k].target in nodes
    ensures Linked(edges[k].source, edges[k].target, nodes, edges)
  {
  }

  lemma PassCovers(depth0: map<string, nat>, depth: map<string, nat>, nodes: set<string>, edges: seq<Edge>)
    requires depth0.Keys == depth.Keys == nodes && PassedEdges(depth0, depth, nodes, edges)
    ensures forall a, b :: Linked(a, b, nodes, edges) ==> depth[b] >= depth0[a] + 1
  {
  }

  lemma RelaxWitness(depth: map<string, nat>, a: string, b: string, nodes: set<string>, edges: seq<Edge>)
    requires Witnessed(depth, nodes, edges) && Linked(a, b, nodes, edges)
    ensures Witnessed(depth[b := depth[a] + 1], nodes, edges)
  {
    var depth' := depth[b := depth[a] + 1];
    forall v <- nodes
      ensures exists p :: WalkTo(p, v, nodes, edges) && |p| == depth'[v] + 1
    {
      if v == b {
        var p :| WalkTo(p, a, nodes, edges) && |p| == depth[a] + 1;
        WalkExtend(p, a, b, nodes, edges);
        assert |p + [b]| == depth'[v] + 1;
      }
    }
  }

  /** One round accounts for walks that are one edge longer. */
  lemma RoundCovers(depth0: map<string, nat>, depth: map<string, nat>, r: nat, nodes: set<string>, edges: seq<Edge>)
    requires depth.Keys == nodes && Covers(depth0, r, nodes, edges) && Raised(depth0, depth, nodes, edges)
    ensures Covers(depth, r + 1, nodes, edges)
  {
    forall p, v | WalkTo(p, v, nodes, edges) && |p| <= r + 2
      ensures depth[v] + 1 >= |p|
    {
      if |p| >= 2 {
        var n := |p| - 1;
        WalkPrefix(p, n, nodes, edges);
        assert depth0[p[n - 1]] + 1 >= |p[..n]|;
        assert Linked(p[n - 1], p[n], nodes, edges);
      }
    }
  }

  // ----- cycles ---------------------------------------------------------------

  /** A list of nodes longer than the number of nodes visits one of them twice. */
  lemma {:induction false} Pigeonhole(p: seq<string>, nodes: set<string>)
    requires (forall i :: 0 <= i < |p| ==> p[i] in nodes) && |p| > |nodes|
    ensures Repeats(p)
    decreases |p|
  {
    var last := p[|p| - 1];
    var front := p[..|p| - 1];
    if last in front {
      var i :| 0 <= i < |front| && front[i] == last;
      assert p[i] == p[|p| - 1];
    } else {
      Pigeonhole(front, nodes - {last});
      var i, j :| 0 <= i < j < |front| && front[i] == front[j];
      assert p[i] == p[j];
    }
  }

  /** Along a walk, settled depths climb by at least one per edge. */
  lemma {:induction false} SettledClimbs(p: seq<string>, i: nat, j: nat, depth: map<string, nat>,
                                         nodes: set<string>, edges: seq<Edge>)
    requires Settled(depth, nodes, edges) && Walk(p, nodes, edges) && i <= j < |p|
    ensures depth[p[j]] >= depth[p[i]] + (j - i)
    decreases j
  {
    if i < j {
      SettledClimbs(p, i, j - 1, depth, nodes, edges);
      assert Linked(p[j - 1], p[j], nodes, edges);
    }
  }

  lemma SettledAcyclic(depth: map<string, nat>, nodes: set<string>, edges: seq<Edge>)
    requires Settled(depth, nodes, edges)
    ensures Acyclic(nodes, edges)
  {
    forall p | Walk(p, nodes, edges)
      ensures !Repeats(p)
    {
      forall i, j | 0 <= i < j < |p|
        ensures p[i] != p[j]
      {
        SettledClimbs(p, i, j, depth, nodes, edges);
      }
    }
  }

  /** A depth as large as the number of nodes can only come from a cycle. */
  lemma DeepIsFed(depth: map<string, nat>, v: string, nodes: set<string>, edges: seq<Edge>)
    requires Witnessed(depth, nodes, edges) && v in nodes && depth[v] >= |nodes|
    ensures FedByCycle(v, nodes, edges)
  {
    var p :| WalkTo(p, v, nodes, edges) && |p| == depth[v] + 1;
    Pigeonhole(p, nodes);
  }

  /** Going round the cycle again makes walks into `v` as long as one likes. */
  lemma {:induction false} Pump(p: seq<string>, i: nat, j: nat, v: string, len: nat,
                                nodes: set<string>, edges: seq<Edge>) returns (q: seq<string>)
    requires WalkTo(p, v, nodes, edges) && i < j < |p| && p[i] == p[j]
    ensures WalkTo(q, v, nodes, edges) && |q| >= len
    decreases len - |p|
  {
    if |p| >= len {
      q := p;
    } else {
      var longer := p[..j] + p[i..];
      forall a, b | 0 <= a && b == a + 1 < |longer|
        ensures Linked(longer[a], longer[b], nodes, edges)
      {
        if b < j {
          assert Linked(p[a], p[b], nodes, edges);
        } else if b == j {
          assert longer[b] == p[i] == p[j] && Linked(p[a], p[j], nodes, edges);
        } else {
          assert longer[a] == p[a - j + i] && longer[b] == p[b - j + i];
        }
      }
      assert longer[i] == p[i] && longer[j] == p[i];
      q := Pump(longer, i, j, v, len, nodes, edges);
    }
  }

  lemma FedIsDeep(depth: map<string, nat>, v: string, nodes: set<string>, edges: seq<Edge>)
    requires Covers(depth, |nodes| + 1, nodes, edges)
    requires FedByCycle(v, nodes, edges)
    ensures v in nodes && depth[v] >= |nodes|
  {
    var p :| WalkTo(p, v, nodes, edges) && Repeats(p);
    var i, j :| 0 <= i < j < |p| && p[i] == p[j];
    var q := Pump(p, i, j, v, |nodes| + 1, nodes, edges);
    var k := |q| - (|nodes| + 1);
    WalkSuffix(q, k, v, nodes, edges);
    assert depth[v] + 1 >= |q[k..]|;
  }

  /** A node that no cycle feeds has its longest walk within the budget. */
  lemma UnfedIsLongest(depth: map<string, nat>, v: string, nodes: set<string>, edges: seq<Edge>)
    requires Witnessed(depth, nodes, edges) && v in nodes && !FedByCycle(v, nodes, edges)
    requires Covers(depth, |nodes|, nodes, edges) || Settled(depth, nodes, edges)
    ensures IsLongest(depth[v], v, nodes, edges)
  {
    forall p | WalkTo(p, v, nodes, edges)
      ensures |p| <= depth[v] + 1
    {
      if Settled(depth, nodes, edges) {
        SettledClimbs(p, 0, |p| - 1, depth, nodes, edges);
      } else if |p| > |nodes| {
        Pigeonhole(p, nodes);
      }
    }
  }

  /** If even the last round changed something, there is a cycle. */
  lemma BudgetSpent(depth0: map<string, nat>, depth: map<string, nat>, nodes: set<string>, edges: seq<Edge>)
    requires Covers(depth0, |nodes|, nodes, edges) && Witnessed(depth, nodes, edges)
    requires depth != depth0 && Raised(depth0, depth, nodes, edges)
    ensures !Acyclic(nodes, edges)
  {
    var v :| v in nodes && depth0[v] != depth[v];
    var p :| WalkTo(p, v, nodes, edges) && |p| == depth[v] + 1;
    assert |p| > |nodes|;
    Pigeonhole(p, nodes);
  }

  /**
  The relaxation, on any graph.  It stops early exactly on acyclic graphs; a node
  that no cycle feeds gets its longest-path depth, any other one a depth of at
  least the number of nodes; and no depth exceeds the number of edge visits.
   */
  method Relax(nodes: set<string>, edges: seq<Edge>) returns (depth: map<string, nat>, settled: bool, rounds: nat)
    ensures depth.Keys == nodes && rounds <= |nodes| + 1
    ensures settled <==> Acyclic(nodes, edges)
    ensures forall v <- nodes :: if FedByCycle(v, nodes, edges) then depth[v] >= |nodes|
                                 else depth[v] < |nodes| && IsLongest(depth[v], v, nodes, edges)
    ensures forall v <- nodes :: depth[v] <= rounds * |edges|
    ensures settled ==> Settled(depth, nodes, edges)
    ensures depth == Passes(Zeros(nodes), edges, rounds)
    ensures Budgeted(nodes, edges, settled, rounds)
  {
    hide Witnessed, Covers, Acyclic, Settled, FedByCycle, IsLongest, Linked, Pass, Passes,
         Moves, Budgeted, Moving, Zeros, AtMost, Bound, Raised;
    depth := Zeros(nodes);
    settled, rounds := false, 0;
    FirstBound(|edges|);
    StartCovers(depth, nodes, edges);
    StartsMoving(nodes, edges);
    while rounds < |nodes| + 1
      invariant rounds <= |nodes| + 1 && depth.Keys == nodes
      invariant Witnessed(depth, nodes, edges) && Covers(depth, rounds, nodes, edges)
      invariant AtMost(depth, nodes, Bound(rounds, |edges|))
      invariant rounds == |nodes| + 1 ==> !Acyclic(nodes, edges)
      invariant depth == Passes(Zeros(nodes), edges, rounds) && Moving(nodes, edges, rounds)
    {
      var next, changed := RelaxRound(nodes, edges, depth, Bound(rounds, |edges|));
      RoundCovers(depth, next, rounds, nodes, edges);
      if rounds == |nodes| && changed {
        BudgetSpent(depth, next, nodes, edges);
      }
      NextRound(nodes, edges, rounds, depth, next);
      NextBound(rounds, |edges|);
      depth, rounds := next, rounds + 1;
      if !changed {
        settled := true;
        FixpointSettled(depth, nodes, edges);
        SettledAcyclic(depth, nodes, edges);
        break;
      }
    }
    DepthsExact(depth, settled, nodes, edges);
    RoundsBudgeted(nodes, edges, settled, rounds);
    BoundHolds(depth, nodes, rounds, |edges|);
  }

  ghost predicate AtMost(depth: map<string, nat>, nodes: set<string>, bound: nat) {
    nodes <= depth.Keys && forall v <- nodes :: depth[v] <= bound
  }

  /** The number of edge visits in so many rounds. */
  ghost function Bound(rounds: nat, visits: nat): nat {
    rounds * visits
  }

  lemma FirstBound(visits: nat)
    ensures Bound(0, visits) == 0
  {
  }

  lemma NextBound(rounds: nat, visits: nat)
    ensures Bound(rounds + 1, visits) == Bound(rounds, visits) + visits
  {
  }

  lemma BoundHolds(depth: map<string, nat>, nodes: set<string>, rounds: nat, visits: nat)
    requires AtMost(depth, nodes, Bound(rounds, visits))
    ensures nodes <= depth.Keys && forall v <- nodes :: depth[v] <= rounds * visits
  {
  }

  lemma StartsMoving(nodes: set<string>, edges: seq<Edge>)
    ensures Moving(nodes, edges, 0) && Passes(Zeros(nodes), edges, 0) == Zeros(nodes)
    ensures Zeros(nodes).Keys == nodes && AtMost(Zeros(nodes), nodes, 0)
  {
  }

  lemma NextRound(nodes: set<string>, edges: seq<Edge>, rounds: nat, depth: map<string, nat>, next: map<string, nat>)
    requires Moving(nodes, edges, rounds)
    requires depth == Passes(Zeros(nodes), edges, rounds) && next == Pass(depth, edges)
    ensures next == Passes(Zeros(nodes), edges, rounds + 1)
    ensures if next == depth then !Moves(nodes, edges, rounds) else Moving(nodes, edges, rounds + 1)
  {
    hide Pass;
  }

  lemma RoundsBudgeted(nodes: set<string>, edges: seq<Edge>, settled: bool, rounds: nat)
    requires rounds <= |nodes| + 1
    requires if settled then rounds > 0 && Moving(nodes, edges, rounds - 1) && !Moves(nodes, edges, rounds - 1)
             else Moving(nodes, edges, rounds) && rounds == |nodes| + 1
    ensures Budgeted(nodes, edges, settled, rounds)
  {
  }

  lemma FixpointSettled(depth: map<string, nat>, nodes: set<string>, edges: seq<Edge>)
    requires depth.Keys == nodes && Raised(depth, depth, nodes, edges)
    ensures Settled(depth, nodes, edges)
  {
  }

  lemma StartCovers(depth: map<string, nat>, nodes: set<string>, edges: seq<Edge>)
    requires depth == Zeros(nodes)
    ensures Witnessed(depth, nodes, edges) && Covers(depth, 0, nodes, edges)
  {
    forall v <- nodes
      ensures exists p :: WalkTo(p, v, nodes, edges) && |p| == depth[v] + 1
    {
      assert WalkTo([v], v, nodes, edges);
    }
  }

  lemma DepthsExact(depth: map<string, nat>, settled: bool, nodes: set<string>, edges: seq<Edge>)
    requires Witnessed(depth, nodes, edges)
    requires if settled then Settled(depth, nodes, edges) && Acyclic(nodes, edges)
             else Covers(depth, |nodes| + 1, nodes, edges)
    ensures forall v <- nodes :: if FedByCycle(v, nodes, edges) then depth[v] >= |nodes|
                                 else depth[v] < |nodes| && IsLongest(depth[v], v, nodes, edges)
  {
    forall v <- nodes
      ensures if FedByCycle(v, nodes, edges) then depth[v] >= |nodes|
              else depth[v] < |nodes| && IsLongest(depth[v], v, nodes, edges)
    {
      if FedByCycle(v, nodes, edges) {
        if !settled {
          FedIsDeep(depth, v, nodes, edges);
        }
      } else {
        UnfedIsLongest(depth, v, nodes, edges);
        if depth[v] >= |nodes| {
          DeepIsFed(depth, v, nodes, edges);
        }
      }
    }
  }
}
