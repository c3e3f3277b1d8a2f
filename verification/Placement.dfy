/**
The second half of `layered_layout`: nodes are grouped into layers by depth and
boxes are placed layer after layer.  Columns and rows are placed by the same
rule with the axes exchanged, so the rule is stated once, along and across.
Coordinates are exact reals.
 */
module Placement {
  import opened Ordering

  const MARGIN := 24

  /** What one run of the placement loop works on. */
  datatype Plan = Plan(
    order: seq<string>, depth: map<string, nat>,
    along: map<string, nat>, across: map<string, nat>,
    gap: nat, crossGap: nat)
  {
    ghost predicate Valid() {
      && Distinct(order)
      && forall n <- order :: n in depth && n in along && n in across
    }

    /** The members of layer `d`, in registration order. */
    function Layer(d: nat): seq<string>
      requires Valid()
    {
      LayerOf(order, depth, d)
    }

    function Thickness(d: nat): nat
      requires Valid()
    {
      LayerMembers(order, depth, d);
      Widest(Layer(d), along)
    }

    /** Where layer `d` starts. */
    function Start(d: nat): nat
      requires Valid()
    {
      if d == 0 then MARGIN else Start(d - 1) + Thickness(d - 1) + gap
    }

    /** Where the `i`-th member of a layer starts, across it. */
    function Cursor(layer: seq<string>, i: nat): nat
      requires i <= |layer| && forall n <- layer :: n in across
    {
      if i == 0 then MARGIN else Cursor(layer, i - 1) + across[layer[i - 1]] + crossGap
    }

    /** The near corner of the `i`-th member of layer `d`, which is centred along its layer. */
    function Spot(d: nat, i: nat): (real, real)
      requires Valid() && i < |Layer(d)|
    {
      LayerMembers(order, depth, d);
      var n := Layer(d)[i];
      (Start(d) as real + (Thickness(d) - along[n]) as real / 2.0, Cursor(Layer(d), i) as real)
    }

    /** The first `upTo` layers, and nothing else, are placed. */
    ghost predicate Placed(spots: map<string, (real, real)>, upTo: nat)
      requires Valid()
    {
      && (forall n :: n in spots <==> n in order && depth[n] < upTo)
      && (forall d: nat, i: nat :: d < upTo && i < |Layer(d)| ==>
            Layer(d)[i] in spots && spots[Layer(d)[i]] == Spot(d, i))
    }
  }

  function LayerOf(order: seq<string>, depth: map<string, nat>, d: nat): seq<string>
    requires forall n <- order :: n in depth
  {
    if order == [] then []
    else
      var last := order[|order| - 1];
      LayerOf(order[..|order| - 1], depth, d) + if depth[last] == d then [last] else []
  }

  lemma {:induction false} LayerMembers(order: seq<string>, depth: map<string, nat>, d: nat)
    requires forall n <- order :: n in depth
    ensures forall n :: n in LayerOf(order, depth, d) <==> n in order && depth[n] == d
  {
    if order != [] {
      var front, last := order[..|order| - 1], order[|order| - 1];
      LayerMembers(front, depth, d);
      assert order == front + [last];
    }
  }

  lemma {:induction false} LayerDistinct(order: seq<string>, depth: map<string, nat>, d: nat)
    requires Distinct(order) && forall n <- order :: n in depth
    ensures Distinct(LayerOf(order, depth, d))
  {
    if order != [] {
      var front, last := order[..|order| - 1], order[|order| - 1];
      LayerDistinct(front, depth, d);
      LayerMembers(front, depth, d);
      assert last !in front;
      assert last !in LayerOf(front, depth, d);
    }
  }

  /** `max(extents, default=0)`. */
  function Widest(layer: seq<string>, extent: map<string, nat>): (m: nat)
    requires forall n <- layer :: n in extent
    ensures forall n <- layer :: extent[n] <= m
    ensures layer != [] ==> exists n <- layer :: extent[n] == m
  {
    if layer == [] then 0
    else
      var m := Widest(layer[..|layer| - 1], extent);
      var last := layer[|layer| - 1];
      assert layer == layer[..|layer| - 1] + [last];
      if extent[last] >= m || |layer| == 1 then extent[last]
      else
        assert layer[..|layer| - 1] != [];
        m
  }

  /** `layers.get(d, [])`. */
  function Get(layers: map<nat, seq<string>>, d: nat): seq<string> {
    if d in layers then layers[d] else []
  }

  lemma LayerExtends(order: seq<string>, depth: map<string, nat>, k: nat, d: nat)
    requires k < |order| && forall n <- order :: n in depth
    ensures LayerOf(order[..k + 1], depth, d) ==
            LayerOf(order[..k], depth, d) + if depth[order[k]] == d then [order[k]] else []
  {
    assert order[..k + 1][..k] == order[..k];
  }

  /** The loop that fills `layers`. */
  method BuildLayers(order: seq<string>, depth: map<string, nat>) returns (layers: map<nat, seq<string>>)
    requires forall n <- order :: n in depth
    ensures forall d: nat :: Get(layers, d) == LayerOf(order, depth, d)
  {
    layers := map[];
    for k := 0 to |order|
      invariant forall d: nat :: Get(layers, d) == LayerOf(order[..k], depth, d)
    {
      var n := order[k];
      ghost var before := layers;
      layers := layers[depth[n] := Get(layers, depth[n]) + [n]];
      forall d: nat
        ensures Get(layers, d) == LayerOf(order[..k + 1], depth, d)
      {
        LayerExtends(order, depth, k, d);
        assert Get(before, d) == LayerOf(order[..k], depth, d);
      }
    }
    assert order[..|order|] == order;
  }

  /** `max(layers) if layers else 0`. */
  method DeepestLayer(order: seq<string>, depth: map<string, nat>) returns (maxDepth: nat)
    requires forall n <- order :: n in depth
    ensures forall n <- order :: depth[n] <= maxDepth
    ensures if order == [] then maxDepth == 0 else exists n <- order :: depth[n] == maxDepth
  {
    maxDepth := 0;
    for k := 0 to |order|
      invariant forall i :: 0 <= i < k ==> depth[order[i]] <= maxDepth
      invariant if k == 0 then maxDepth == 0 else exists i :: 0 <= i < k && depth[order[i]] == maxDepth
    {
      if depth[order[k]] >= maxDepth {
        maxDepth := depth[order[k]];
      }
    }
  }

  /** The placement loop, along one axis. */
  method PlaceLayers(p: Plan, layers: map<nat, seq<string>>, maxDepth: nat)
    returns (spots: map<string, (real, real)>)
    requires p.Valid()
    requires forall d: nat :: Get(layers, d) == p.Layer(d)
    requires forall n <- p.order :: p.depth[n] <= maxDepth
    ensures p.Placed(spots, maxDepth + 1)
  {
    hide LayerOf, Widest, Plan.Layer, Plan.Placed, Plan.Start, Plan.Thickness;
    NothingPlaced(p);
    spots := map[];
    var start := MARGIN;
    for d := 0 to maxDepth + 1
      invariant start == p.Start(d)
      invariant p.Placed(spots, d)
    {
      var layer := Get(layers, d);
      LayerKnown(p, d);
      var thickness := Widest(layer, p.along);
      spots := PlaceLayer(p, spots, d, layer, start, thickness);
      start := start + thickness + p.gap;
    }
  }

  lemma NothingPlaced(p: Plan)
    requires p.Valid()
    ensures p.Placed(map[], 0) && p.Start(0) == MARGIN
  {
    hide LayerOf, Plan.Thickness;
  }

  lemma LayerKnown(p: Plan, d: nat)
    requires p.Valid()
    ensures forall n <- p.Layer(d) :: n in p.along
    ensures p.Thickness(d) == Widest(p.Layer(d), p.along)
    ensures p.Start(d + 1) == p.Start(d) + p.Thickness(d) + p.gap
  {
    hide LayerOf, Widest;
    LayerMembers(p.order, p.depth, d);
  }

  /** The inner loop: the members of layer `d`, one after another. */
  method PlaceLayer(p: Plan, spots0: map<string, (real, real)>, d: nat, layer: seq<string>, start: nat, thickness: nat)
    returns (spots: map<string, (real, real)>)
    requires p.Valid() && p.Placed(spots0, d)
    requires layer == p.Layer(d) && start == p.Start(d) && thickness == p.Thickness(d)
    ensures p.Placed(spots, d + 1)
  {
    hide LayerOf, Plan.Placed, Plan.Start, Plan.Thickness, Plan.Spot;
    LayerFresh(p, spots0, d);
    spots := spots0;
    var cursor := MARGIN;
    for i := 0 to |layer|
      invariant cursor == p.Cursor(layer, i)
      invariant spots.Keys <= spots0.Keys + (set n | n in layer)
      invariant forall n :: n in spots0 ==> n in spots && spots[n] == spots0[n]
      invariant forall k: nat :: k < i ==> layer[k] in spots && spots[layer[k]] == p.Spot(d, k)
    {
      var n := layer[i];
      assert forall k :: 0 <= k < i ==> layer[k] != n;
      spots := spots[n := (start as real + (thickness - p.along[n]) as real / 2.0, cursor as real)];
      SpotValue(p, d, i);
      cursor := cursor + p.across[n] + p.crossGap;
    }
    LayerPlaced(p, spots0, spots, d);
  }

  lemma SpotValue(p: Plan, d: nat, i: nat)
    requires p.Valid() && i < |p.Layer(d)| && p.Layer(d)[i] in p.along
    requires forall n <- p.Layer(d) :: n in p.across
    ensures p.Spot(d, i) ==
            (p.Start(d) as real + (p.Thickness(d) - p.along[p.Layer(d)[i]]) as real / 2.0,
             p.Cursor(p.Layer(d), i) as real)
  {
    hide LayerOf, Plan.Start, Plan.Thickness, Plan.Cursor;
  }

  lemma LayerFresh(p: Plan, spots: map<string, (real, real)>, d: nat)
    requires p.Valid() && p.Placed(spots, d)
    ensures Distinct(p.Layer(d))
    ensures forall n <- p.Layer(d) :: n !in spots && n in p.along && n in p.across && p.along[n] <= p.Thickness(d)
  {
    LayerMembers(p.order, p.depth, d);
    LayerDistinct(p.order, p.depth, d);
  }

  lemma LayerPlaced(p: Plan, spots0: map<string, (real, real)>, spots: map<string, (real, real)>, d: nat)
    requires p.Valid() && p.Placed(spots0, d)
    requires forall n :: n in spots <==> n in spots0 || n in p.Layer(d)
    requires forall n :: n in spots0 ==> n in spots && spots[n] == spots0[n]
    requires forall k: nat :: k < |p.Layer(d)| ==> p.Layer(d)[k] in spots && spots[p.Layer(d)[k]] == p.Spot(d, k)
    ensures p.Placed(spots, d + 1)
  {
    hide LayerOf, Plan.Start, Plan.Cursor, Plan.Thickness, Plan.Spot;
    LayerMembers(p.order, p.depth, d);
    forall e: nat, i: nat | e < d + 1 && i < |p.Layer(e)|
      ensures p.Layer(e)[i] in spots && spots[p.Layer(e)[i]] == p.Spot(e, i)
    {
      if e < d {
        assert p.Layer(e)[i] in spots0;
      }
    }
  }

  // ----- geometry -------------------------------------------------------------

  /** Layers do not overlap: each starts at least `gap` after the previous one ends. */
  lemma {:induction false} LayersApart(p: Plan, d: nat, e: nat)
    requires p.Valid() && d < e
    ensures p.Start(d) + p.Thickness(d) + p.gap <= p.Start(e)
    decreases e
  {
    hide LayerOf, Plan.Layer, Plan.Start, Plan.Thickness, Plan.Valid;
    LayerKnown(p, e - 1);
    if d + 1 < e {
      LayersApart(p, d, e - 1);
    }
  }

  lemma {:induction false} StartAtLeastMargin(p: Plan, d: nat)
    requires p.Valid()
    ensures p.Start(d) >= MARGIN
  {
    hide LayerOf, Plan.Layer, Plan.Thickness, Plan.Valid;
    if d > 0 {
      StartAtLeastMargin(p, d - 1);
    }
  }

  lemma {:induction false} MembersApart(p: Plan, layer: seq<string>, i: nat, j: nat)
    requires i < j < |layer| && forall n <- layer :: n in p.across
    ensures p.Cursor(layer, i) + p.across[layer[i]] + p.crossGap <= p.Cursor(layer, j)
    decreases j
  {
    if i + 1 < j {
      MembersApart(p, layer, i, j - 1);
    }
  }

  lemma {:induction false} CursorAtLeastMargin(p: Plan, layer: seq<string>, i: nat)
    requires i <= |layer| && forall n <- layer :: n in p.across
    ensures p.Cursor(layer, i) >= MARGIN
  {
    if i > 0 {
      CursorAtLeastMargin(p, layer, i - 1);
    }
  }

  /** The index of a node in its layer. */
  lemma Located(p: Plan, n: string) returns (i: nat)
    requires p.Valid() && n in p.order
    ensures i < |p.Layer(p.depth[n])| && p.Layer(p.depth[n])[i] == n
  {
    LayerMembers(p.order, p.depth, p.depth[n]);
    i :| 0 <= i < |p.Layer(p.depth[n])| && p.Layer(p.depth[n])[i] == n;
  }

  /** `b` lies wholly beyond `a` along the axis by at least `g`. */
  ghost predicate Beyond(a: real, extent: nat, b: real, g: nat) {
    a + extent as real + g as real <= b
  }

  ghost predicate IsInt(r: real, k: int) {
    r == k as real
  }

  ghost predicate Whole(r: real) {
    exists k :: IsInt(r, k)
  }

  lemma WholeSum(r: real, n: nat)
    requires Whole(r)
    ensures Whole(r + n as real)
  {
    var k :| IsInt(r, k);
    assert IsInt(r + n as real, k + n);
  }

  /** A node's extent stays within its layer and behind the margin. */
  lemma SpotBounds(p: Plan, spots: map<string, (real, real)>, upTo: nat, n: string)
    requires p.Valid() && p.Placed(spots, upTo) && n in p.order && p.depth[n] < upTo
    ensures n in spots
    ensures MARGIN as real <= p.Start(p.depth[n]) as real <= spots[n].0
    ensures spots[n].0 + p.along[n] as real <= (p.Start(p.depth[n]) + p.Thickness(p.depth[n])) as real
    ensures MARGIN as real <= spots[n].1
    ensures Whole(spots[n].1)
  {
    var d := p.depth[n];
    var i := Located(p, n);
    assert spots[p.Layer(d)[i]] == p.Spot(d, i);
    LayerMembers(p.order, p.depth, d);
    StartAtLeastMargin(p, d);
    CursorAtLeastMargin(p, p.Layer(d), i);
    assert n in p.Layer(d);
    assert IsInt(spots[n].1, p.Cursor(p.Layer(d), i));
  }

  /** A deeper node lies wholly beyond a shallower one. */
  lemma DeeperIsBeyond(p: Plan, spots: map<string, (real, real)>, upTo: nat, m: string, n: string)
    requires p.Valid() && p.Placed(spots, upTo) && m in p.order && n in p.order
    requires p.depth[m] < p.depth[n] < upTo
    ensures m in spots && n in spots && Beyond(spots[m].0, p.along[m], spots[n].0, p.gap)
  {
    SpotBounds(p, spots, upTo, m);
    SpotBounds(p, spots, upTo, n);
    LayersApart(p, p.depth[m], p.depth[n]);
  }

  /** Any two nodes are a whole gap apart along one of the axes. */
  ghost predicate Apart(p: Plan, spots: map<string, (real, real)>, m: string, n: string)
    requires m in spots && n in spots && {m, n} <= p.along.Keys * p.across.Keys
  {
    || Beyond(spots[m].0, p.along[m], spots[n].0, p.gap)
    || Beyond(spots[n].0, p.along[n], spots[m].0, p.gap)
    || Beyond(spots[m].1, p.across[m], spots[n].1, p.crossGap)
    || Beyond(spots[n].1, p.across[n], spots[m].1, p.crossGap)
  }

  lemma SiblingsApart(p: Plan, spots: map<string, (real, real)>, upTo: nat, m: string, n: string)
    requires p.Valid() && p.Placed(spots, upTo)
    requires m in p.order && n in p.order && m != n && p.depth[m] == p.depth[n] < upTo
    ensures m in spots && n in spots && Apart(p, spots, m, n)
  {
    hide LayerOf, Plan.Start, Plan.Thickness, Plan.Spot;
    var d := p.depth[m];
    var i := Located(p, m);
    var j := Located(p, n);
    LayerMembers(p.order, p.depth, d);
    SpotValue(p, d, i);
    SpotValue(p, d, j);
    assert spots[p.Layer(d)[i]] == p.Spot(d, i) && spots[p.Layer(d)[j]] == p.Spot(d, j);
    if i < j {
      MembersApart(p, p.Layer(d), i, j);
    } else {
      MembersApart(p, p.Layer(d), j, i);
    }
  }

  lemma AllApart(p: Plan, spots: map<string, (real, real)>, upTo: nat, m: string, n: string)
    requires p.Valid() && p.Placed(spots, upTo)
    requires m in p.order && n in p.order && m != n && p.depth[m] < upTo && p.depth[n] < upTo
    ensures m in spots && n in spots && Apart(p, spots, m, n)
  {
    hide LayerOf, Plan.Placed;
    if p.depth[m] < p.depth[n] {
      DeeperIsBeyond(p, spots, upTo, m, n);
    } else if p.depth[n] < p.depth[m] {
      DeeperIsBeyond(p, spots, upTo, n, m);
    } else {
      SiblingsApart(p, spots, upTo, m, n);
    }
  }

  /** Among the far edges along the axis, the farthest is a whole number. */
  lemma FarthestIsWhole(p: Plan, spots: map<string, (real, real)>, upTo: nat, n: string)
    requires p.Valid() && p.Placed(spots, upTo)
    requires n in p.order && forall m <- p.order :: p.depth[m] < upTo && m in spots
    requires forall m <- p.order :: spots[m].0 + p.along[m] as real <= spots[n].0 + p.along[n] as real
    ensures Whole(spots[n].0 + p.along[n] as real)
  {
    var d := p.depth[n];
    LayerMembers(p.order, p.depth, d);
    assert n in p.Layer(d);
    var m :| m in p.Layer(d) && p.along[m] == p.Thickness(d);
    var i := Located(p, m);
    assert spots[m] == p.Spot(d, i);
    SpotBounds(p, spots, upTo, n);
    assert IsInt(spots[n].0 + p.along[n] as real, p.Start(d) + p.Thickness(d));
  }

  // ----- where exactly a node is put -----------------------------------------------

  lemma {:induction false} LayerPrefix(order: seq<string>, depth: map<string, nat>, d: nat, i: nat)
    requires i <= |order| && forall n <- order :: n in depth
    ensures LayerOf(order[..i], depth, d) <= LayerOf(order, depth, d)
    decreases |order|
  {
    if i == |order| {
      assert order[..i] == order;
    } else {
      var front := order[..|order| - 1];
      assert front[..i] == order[..i];
      LayerPrefix(front, depth, d, i);
    }
  }

  /** In its layer a node has as many before it as were registered before it with its depth. */
  lemma LayerIndex(order: seq<string>, depth: map<string, nat>, i: nat)
    requires i < |order| && forall n <- order :: n in depth
    ensures var d := depth[order[i]];
            var k := |LayerOf(order[..i], depth, d)|;
            && k < |LayerOf(order, depth, d)| && LayerOf(order, depth, d)[k] == order[i]
            && LayerOf(order[..i], depth, d) == LayerOf(order, depth, d)[..k]
  {
    var d := depth[order[i]];
    LayerPrefix(order, depth, d, i);
    LayerPrefix(order, depth, d, i + 1);
    LayerExtends(order, depth, i, d);
  }

  /** The room taken across a layer by those of depth `d` among the first `i` nodes registered. */
  function RoomBefore(p: Plan, i: nat, d: nat): nat
    requires i <= |p.order| && forall n <- p.order :: n in p.depth && n in p.across
  {
    if i == 0 then 0
    else RoomBefore(p, i - 1, d) + if p.depth[p.order[i - 1]] == d then p.across[p.order[i - 1]] + p.crossGap else 0
  }

  lemma {:induction false} CursorIsRoom(p: Plan, i: nat, d: nat)
    requires i <= |p.order| && forall n <- p.order :: n in p.depth && n in p.across
    ensures (forall n <- LayerOf(p.order[..i], p.depth, d) :: n in p.across)
    ensures p.Cursor(LayerOf(p.order[..i], p.depth, d), |LayerOf(p.order[..i], p.depth, d)|) == 24 + RoomBefore(p, i, d)
  {
    hide LayerOf, Plan.Valid;
    LayerMembers(p.order[..i], p.depth, d);
    if i > 0 {
      CursorIsRoom(p, i - 1, d);
      LayerExtends(p.order, p.depth, i - 1, d);
      var before, now := LayerOf(p.order[..i - 1], p.depth, d), LayerOf(p.order[..i], p.depth, d);
      CursorOfPrefix(p, before, now, |before|);
    }
  }

  lemma {:induction false} CursorOfPrefix(p: Plan, a: seq<string>, b: seq<string>, i: nat)
    requires i <= |a| && a <= b && (forall n <- a :: n in p.across) && forall n <- b :: n in p.across
    ensures p.Cursor(a, i) == p.Cursor(b, i)
  {
    if i > 0 {
      CursorOfPrefix(p, a, b, i - 1);
    }
  }

  /** `w` is the greatest extent of the nodes of depth `d`, or 0 when there are none. */
  ghost predicate IsThickness(p: Plan, d: nat, w: nat) {
    && (forall n <- p.order :: n in p.depth && n in p.along && (p.depth[n] == d ==> p.along[n] <= w))
    && (w == 0 || exists n <- p.order :: n in p.depth && n in p.along && p.depth[n] == d && p.along[n] == w)
  }

  /** The bands: the first starts at the margin, and each starts one gap after the thickest node before it ends. */
  lemma BandIs(p: Plan, d: nat)
    requires p.Valid()
    ensures p.Start(0) == 24 && p.Start(d + 1) == p.Start(d) + p.Thickness(d) + p.gap
    ensures IsThickness(p, d, p.Thickness(d))
  {
    hide LayerOf;
    LayerKnown(p, d);
    LayerMembers(p.order, p.depth, d);
    var layer := p.Layer(d);
    if layer != [] {
      var n :| n in layer && p.along[n] == p.Thickness(d);
      assert n in p.order;
    }
  }

  /** Along its axis a node is centred in its band; across, it follows those registered before it with its depth. */
  lemma SpotIs(p: Plan, spots: map<string, (real, real)>, upTo: nat, i: nat)
    requires p.Valid() && p.Placed(spots, upTo) && i < |p.order| && p.depth[p.order[i]] < upTo
    ensures var n := p.order[i];
            var d := p.depth[n];
            && n in spots
            && spots[n].0 - p.Start(d) as real ==
               (p.Start(d) + p.Thickness(d)) as real - (spots[n].0 + p.along[n] as real)
            && spots[n].1 == (24 + RoomBefore(p, i, d)) as real
  {
    var n := p.order[i];
    var d := p.depth[n];
    var k := |LayerOf(p.order[..i], p.depth, d)|;
    LayerIndex(p.order, p.depth, i);
    assert p.Layer(d)[k] == n;
    assert spots[p.Layer(d)[k]] == p.Spot(d, k);
    CursorIsRoom(p, i, d);
    LayerMembers(p.order, p.depth, d);
    CursorOfPrefix(p, LayerOf(p.order[..i], p.depth, d), p.Layer(d), k);
    SpotValue(p, d, k);
  }
}
