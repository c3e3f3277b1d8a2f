/** `layered_layout` as a whole, and a diagram laid out from its statements. */
module DiagramLayout {
  import opened Text
  import opened Ordering
  import opened Placement
  import opened Relaxation
  import opened FlowDiagram

  datatype Box = Box(x: real, y: real, w: nat, h: nat)

  const GAP_X := 60
  const GAP_Y := 34
  const EMPTY_EXTENT := 100.0

  // ----- node sizes -----------------------------------------------------------

  /** The length of the longest line, and the number of lines, of a label. */
  function Longest(text: string, current: nat): nat {
    if text == "" then current
    else if text[0] == '\n' then Max(current, Longest(text[1..], 0))
    else Longest(text[1..], current + 1)
  }

  function LineCount(text: string): nat {
    if text == "" then 1 else (if text[0] == '\n' then 1 else 0) + LineCount(text[1..])
  }

  function Max(a: nat, b: nat): nat {
    if a < b then b else a
  }

  /** Characters are 7.2 units wide, with 16 units of padding on each side. */
  function NodeWidth(text: string): nat {
    Max(70, Longest(text, 0) * 36 / 5 + 32)
  }

  function NodeHeight(text: string): nat {
    Max(34, LineCount(text) * 17 + 16)
  }

  lemma {:induction false} LongestCovers(text: string, current: nat, i: nat, j: nat)
    requires i <= j <= |text| && '\n' !in text[i..j]
    ensures Longest(text, current) >= j - i + (if i == 0 then current else 0)
  {
    if text != "" && i < j {
      if i == 0 {
        assert text[0] in text[i..j];
        assert text[1..][..j - 1] == text[i..j][1..];
        LongestCovers(text[1..], current + 1, 0, j - 1);
      } else {
        assert text[1..][i - 1..j - 1] == text[i..j];
        LongestCovers(text[1..], if text[0] == '\n' then 0 else current + 1, i - 1, j - 1);
      }
    } else {
      LongestGrows(text, current);
    }
  }

  lemma {:induction false} LongestGrows(text: string, current: nat)
    ensures Longest(text, current) >= current
  {
    if text != "" && text[0] != '\n' {
      LongestGrows(text[1..], current + 1);
    }
  }

  /** Any stretch of a label without a line break fits the box, padding included, up to a fraction of a unit. */
  lemma LineFits(text: string, i: nat, j: nat)
    requires i <= j <= |text| && '\n' !in text[i..j]
    ensures (j - i) as real * 7.2 + 32.0 < NodeWidth(text) as real + 1.0
  {
    LongestCovers(text, 0, i, j);
    var n := Longest(text, 0) * 36 / 5;
    assert 5 * (n + 1) > 36 * (j - i);
  }

  /** `n` is the greatest length of the lines, the first one counted with what stands before it. */
  ghost predicate LongestOf(lines: seq<string>, before: nat, n: nat)
    requires lines != []
  {
    && |lines[0]| + before <= n
    && (forall k :: 1 <= k < |lines| ==> |lines[k]| <= n)
    && (n == |lines[0]| + before || exists k :: 1 <= k < |lines| && |lines[k]| == n)
  }

  lemma AfterBreak(rest: seq<string>, before: nat, n: nat)
    requires rest != [] && LongestOf(rest, 0, n)
    ensures LongestOf([""] + rest, before, Max(before, n))
  {
    var lines := [""] + rest;
    assert lines[1] == rest[0];
    if exists k :: 1 <= k < |rest| && |rest[k]| == n {
      var k :| 1 <= k < |rest| && |rest[k]| == n;
      assert lines[k + 1] == rest[k];
    }
  }

  lemma AfterCharacter(c: char, rest: seq<string>, before: nat, n: nat)
    requires rest != [] && LongestOf(rest, before + 1, n)
    ensures LongestOf([[c] + rest[0]] + rest[1..], before, n)
  {
    var lines := [[c] + rest[0]] + rest[1..];
    assert forall k :: 1 <= k < |rest| ==> lines[k] == rest[k];
  }

  /** The longest line is the longest piece between line breaks. */
  lemma {:induction false} LongestIs(text: string, before: nat)
    ensures LongestOf(Split(text, '\n'), before, Longest(text, before))
  {
    if text != "" {
      var rest := Split(text[1..], '\n');
      var next := if text[0] == '\n' then 0 else before + 1;
      LongestIs(text[1..], next);
      hide LongestOf;
      if text[0] == '\n' {
        AfterBreak(rest, before, Longest(text[1..], 0));
      } else {
        AfterCharacter(text[0], rest, before, Longest(text[1..], before + 1));
      }
    }
  }

  lemma {:induction false} LinesCounted(text: string)
    ensures LineCount(text) == |Split(text, '\n')|
  {
    if text != "" {
      LinesCounted(text[1..]);
    }
  }

  /** The width is 70 or just enough for the longest line at 7.2 a character and 16 of padding on each side. */
  lemma WidthIs(text: string)
    ensures NodeWidth(text) >= 70
    ensures forall l <- Split(text, '\n') :: |l| as real * 7.2 + 32.0 < NodeWidth(text) as real + 1.0
    ensures NodeWidth(text) == 70 ||
            exists l <- Split(text, '\n') :: NodeWidth(text) as real <= |l| as real * 7.2 + 32.0
  {
    hide Split, Longest;
    LongestIs(text, 0);
    var lines, n := Split(text, '\n'), Longest(text, 0);
    forall l <- lines
      ensures |l| <= n
    {
      var k :| 0 <= k < |lines| && lines[k] == l;
    }
    var w := n * 36 / 5;
    assert 5 * w <= 36 * n < 5 * (w + 1);
    forall l <- lines
      ensures |l| as real * 7.2 + 32.0 < NodeWidth(text) as real + 1.0
    {
      assert 36 * |l| < 5 * (w + 1);
    }
    assert exists l <- lines :: |l| == n;
    var l :| l in lines && |l| == n;
    assert (w + 32) as real <= |l| as real * 7.2 + 32.0;
  }

  /** The height is 34 or exactly 17 for each line and 16 more. */
  lemma HeightIs(text: string)
    ensures NodeHeight(text) >= 34 && NodeHeight(text) >= 17 * |Split(text, '\n')| + 16
    ensures NodeHeight(text) == 34 || NodeHeight(text) == 17 * |Split(text, '\n')| + 16
  {
    hide Split, LineCount;
    LinesCounted(text);
  }

  function Width(node: Node): nat {
    if node.shape == StartEnd then 18 else NodeWidth(node.text)
  }

  function Height(node: Node): nat {
    if node.shape == StartEnd then 18 else NodeHeight(node.text)
  }

  // ----- what a layout must satisfy ---------------------------------------------

  /** The boxes are apart by at least the smaller of the two gaps, side by side or one above the other. */
  ghost predicate Separate(a: Box, b: Box) {
    || a.x + a.w as real + 34.0 <= b.x
    || b.x + b.w as real + 34.0 <= a.x
    || a.y + a.h as real + 34.0 <= b.y
    || b.y + b.h as real + 34.0 <= a.y
  }

  /** The box keeps the margin on all four sides of the canvas. */
  ghost predicate Inside(b: Box, width: real, height: real) {
    && 24.0 <= b.x && b.x + b.w as real <= width - 24.0
    && 24.0 <= b.y && b.y + b.h as real <= height - 24.0
  }

  /** Start and end marks are small squares, other nodes are sized by their labels. */
  ghost predicate Sized(b: Box, node: Node) {
    if node.shape == StartEnd then b.w == b.h == 18
    else b.w == NodeWidth(node.text) && b.h == NodeHeight(node.text)
  }

  ghost predicate GoodLayout(nodes: map<string, Node>, boxes: map<string, Box>, width: real, height: real) {
    && boxes.Keys == nodes.Keys
    && (forall n <- nodes :: Sized(boxes[n], nodes[n]))
    && (forall n <- nodes :: Inside(boxes[n], width, height))
    && (forall m <- nodes, n <- nodes :: m != n ==> Separate(boxes[m], boxes[n]))
    && Whole(width) && Whole(height)
  }

  /** The canvas is no larger than needed: on each far side some box touches the margin. */
  ghost predicate Tight(boxes: map<string, Box>, width: real, height: real) {
    if boxes.Keys == {} then width == height == 124.0
    else
      && (exists n <- boxes :: boxes[n].x + boxes[n].w as real + 24.0 == width)
      && (exists n <- boxes :: boxes[n].y + boxes[n].h as real + 24.0 == height)
  }

  /** Along the direction of the diagram, the target starts a whole gap after the source ends. */
  ghost predicate PointsForward(e: Edge, boxes: map<string, Box>, horizontal: bool)
    requires e.source in boxes && e.target in boxes
  {
    Ahead(boxes[e.source], boxes[e.target], horizontal)
  }

  ghost predicate Ahead(a: Box, b: Box, horizontal: bool) {
    if horizontal then a.x + a.w as real + 60.0 <= b.x
    else a.y + a.h as real + 34.0 <= b.y
  }

  // ----- the algorithm ------------------------------------------------------------

  /** `max(near + extent, default=100)`, on one axis. */
  method FarEdge(order: seq<string>, near: map<string, real>, extent: map<string, nat>) returns (far: real)
    requires forall n <- order :: n in near && n in extent
    ensures order == [] ==> far == EMPTY_EXTENT
    ensures forall n <- order :: near[n] + extent[n] as real <= far
    ensures order != [] ==> exists n <- order :: near[n] + extent[n] as real == far
  {
    far := EMPTY_EXTENT;
    for k := 0 to |order|
      invariant k == 0 ==> far == EMPTY_EXTENT
      invariant forall i :: 0 <= i < k ==> near[order[i]] + extent[order[i]] as real <= far
      invariant k > 0 ==> exists i :: 0 <= i < k && near[order[i]] + extent[order[i]] as real == far
    {
      var edge := near[order[k]] + extent[order[k]] as real;
      if k == 0 || far < edge {
        far := edge;
      }
    }
  }

  ghost predicate Spots(p: Plan, spots: map<string, (real, real)>, upTo: nat) {
    && p.Valid() && p.Placed(spots, upTo)
    && spots.Keys == (set n | n in p.order)
    && forall n <- p.order :: p.depth[n] < upTo
  }

  /** The far edges are those of placed nodes, or the default when there are none. */
  ghost predicate Reached(p: Plan, spots: map<string, (real, real)>, far: real, crossFar: real)
    requires forall n <- p.order :: n in spots && n in p.along && n in p.across
  {
    if p.order == [] then far == crossFar == EMPTY_EXTENT
    else
      && (exists n <- p.order :: spots[n].0 + p.along[n] as real == far)
      && (exists n <- p.order :: spots[n].1 + p.across[n] as real == crossFar)
  }

  /** Layers, placement and far edges along one axis and across it. */
  method PlaceAll(p: Plan) returns (spots: map<string, (real, real)>, far: real, crossFar: real, ghost upTo: nat)
    requires p.Valid()
    ensures Spots(p, spots, upTo)
    ensures forall n <- p.order :: spots[n].0 + p.along[n] as real <= far
    ensures forall n <- p.order :: spots[n].1 + p.across[n] as real <= crossFar
    ensures Reached(p, spots, far, crossFar)
    ensures Whole(far) && Whole(crossFar)
  {
    hide LayerOf, Plan.Placed, Whole;
    var layers := BuildLayers(p.order, p.depth);
    var maxDepth := DeepestLayer(p.order, p.depth);
    spots := PlaceLayers(p, layers, maxDepth);
    upTo := maxDepth + 1;
    PlacedKeys(p, spots, upTo);
    far := FarEdge(p.order, map n | n in spots :: spots[n].0, p.along);
    crossFar := FarEdge(p.order, map n | n in spots :: spots[n].1, p.across);
    EdgesAreWhole(p, spots, upTo, far, crossFar);
  }

  lemma EdgesAreWhole(p: Plan, spots: map<string, (real, real)>, upTo: nat, far: real, crossFar: real)
    requires Spots(p, spots, upTo) && Reached(p, spots, far, crossFar)
    requires forall n <- p.order :: spots[n].0 + p.along[n] as real <= far
    ensures Whole(far) && Whole(crossFar)
  {
    hide LayerOf, Plan.Placed;
    if p.order != [] {
      var n :| n in p.order && spots[n].0 + p.along[n] as real == far;
      FarthestIsWhole(p, spots, upTo, n);
      var m :| m in p.order && spots[m].1 + p.across[m] as real == crossFar;
      SpotBounds(p, spots, upTo, m);
      WholeSum(spots[m].1, p.across[m]);
    } else {
      assert IsInt(EMPTY_EXTENT, 100);
    }
  }

  lemma PlacedKeys(p: Plan, spots: map<string, (real, real)>, upTo: nat)
    requires p.Valid() && p.Placed(spots, upTo) && forall n <- p.order :: p.depth[n] < upTo
    ensures spots.Keys == (set n | n in p.order)
  {
  }

  /** Two nodes placed by the plan, seen as boxes in the given orientation. */
  function BoxOf(spot: (real, real), along: nat, across: nat, horizontal: bool): Box {
    if horizontal then Box(spot.0, spot.1, along, across) else Box(spot.1, spot.0, across, along)
  }

  lemma BoxInside(p: Plan, spots: map<string, (real, real)>, upTo: nat, n: string,
                  far: real, crossFar: real, horizontal: bool)
    requires Spots(p, spots, upTo) && n in p.order
    requires n in spots && n in p.along && n in p.across
    requires spots[n].0 + p.along[n] as real <= far && spots[n].1 + p.across[n] as real <= crossFar
    ensures Inside(BoxOf(spots[n], p.along[n], p.across[n], horizontal),
                   (if horizontal then far else crossFar) + MARGIN as real,
                   (if horizontal then crossFar else far) + MARGIN as real)
  {
    hide LayerOf, Plan.Placed;
    SpotBounds(p, spots, upTo, n);
  }

  lemma BoxesSeparate(p: Plan, spots: map<string, (real, real)>, upTo: nat, horizontal: bool, m: string, n: string)
    requires Spots(p, spots, upTo) && p.gap >= GAP_Y && p.crossGap >= GAP_Y
    requires m in p.order && n in p.order && m != n
    requires {m, n} <= spots.Keys * p.along.Keys * p.across.Keys
    ensures Separate(BoxOf(spots[m], p.along[m], p.across[m], horizontal),
                     BoxOf(spots[n], p.along[n], p.across[n], horizontal))
  {
    hide LayerOf, Plan.Placed;
    AllApart(p, spots, upTo, m, n);
  }

  lemma DeeperPointsForward(p: Plan, spots: map<string, (real, real)>, upTo: nat, m: string, n: string)
    requires Spots(p, spots, upTo) && m in p.order && n in p.order && p.depth[m] < p.depth[n]
    ensures m in spots && n in spots && m in p.along
    ensures spots[m].0 + p.along[m] as real + p.gap as real <= spots[n].0
  {
    hide LayerOf, Plan.Placed;
    DeeperIsBeyond(p, spots, upTo, m, n);
  }

  /** The depths are those left by the rounds of relaxing. */
  ghost predicate IsDepth(depth: map<string, nat>, nodes: set<string>, edges: seq<Edge>) {
    exists settled, rounds ::
      Budgeted(nodes, edges, settled, rounds) && depth == Passes(Zeros(nodes), edges, rounds)
  }

  lemma DepthIs(depth: map<string, nat>, nodes: set<string>, edges: seq<Edge>, settled: bool, rounds: nat)
    requires Budgeted(nodes, edges, settled, rounds) && depth == Passes(Zeros(nodes), edges, rounds)
    ensures IsDepth(depth, nodes, edges)
  {
  }

  /** What the placement works on, seen from the boxes: columns 60 apart and rows 34, or the other way round. */
  ghost function PlanOf(order: seq<string>, depth: map<string, nat>, boxes: map<string, Box>, horizontal: bool): Plan {
    Plan(order, depth, map n | n in boxes :: if horizontal then boxes[n].w else boxes[n].h,
         map n | n in boxes :: if horizontal then boxes[n].h else boxes[n].w,
         if horizontal then 60 else 34, if horizontal then 34 else 60)
  }

  /** Each box is centred in the band of its depth, behind those registered before it with that depth. */
  ghost predicate Arranged(order: seq<string>, depth: map<string, nat>, boxes: map<string, Box>, horizontal: bool) {
    var p := PlanOf(order, depth, boxes, horizontal);
    && p.Valid()
    && (forall n <- order :: n in boxes)
    && forall i: nat :: i < |order| ==>
         var b, d := boxes[order[i]], depth[order[i]];
         InPlace(if horizontal then b.x else b.y, if horizontal then b.y else b.x, p.along[order[i]],
                 p.Start(d), p.Thickness(d), RoomBefore(p, i, d))
  }

  ghost predicate InPlace(near: real, crossNear: real, extent: nat, start: nat, thickness: nat, room: nat) {
    && near - start as real == (start + thickness) as real - (near + extent as real)
    && crossNear == (24 + room) as real
  }

  lemma LayoutIsArranged(p: Plan, spots: map<string, (real, real)>, upTo: nat, nodes: map<string, Node>,
                         boxes: map<string, Box>, horizontal: bool)
    requires Spots(p, spots, upTo) && p == MakePlan(nodes, p.order, p.depth, horizontal)
    requires spots.Keys == nodes.Keys && forall n :: n in nodes <==> n in p.order
    requires boxes == map n | n in nodes :: BoxOf(spots[n], p.along[n], p.across[n], horizontal)
    ensures Arranged(p.order, p.depth, boxes, horizontal)
  {
    hide Width, Height, Spots, Plan.Start, Plan.Thickness, RoomBefore, InPlace;
    assert p.along == map n | n in boxes :: if horizontal then boxes[n].w else boxes[n].h;
    assert p.across == map n | n in boxes :: if horizontal then boxes[n].h else boxes[n].w;
    assert PlanOf(p.order, p.depth, boxes, horizontal) == p;
    SpotsAreValid(p, spots, upTo);
    forall i: nat | i < |p.order|
      ensures var b, d := boxes[p.order[i]], p.depth[p.order[i]];
              InPlace(if horizontal then b.x else b.y, if horizontal then b.y else b.x, p.along[p.order[i]],
                      p.Start(d), p.Thickness(d), RoomBefore(p, i, d))
    {
      SpotInPlace(p, spots, upTo, i);
    }
  }

  lemma SpotsAreValid(p: Plan, spots: map<string, (real, real)>, upTo: nat)
    requires Spots(p, spots, upTo)
    ensures p.Valid()
  {
  }

  lemma SpotInPlace(p: Plan, spots: map<string, (real, real)>, upTo: nat, i: nat)
    requires p.Valid() && Spots(p, spots, upTo) && i < |p.order|
    ensures var n := p.order[i];
            var d := p.depth[n];
            n in spots && InPlace(spots[n].0, spots[n].1, p.along[n], p.Start(d), p.Thickness(d), RoomBefore(p, i, d))
  {
    hide Plan.Placed, LayerOf, Plan.Start, Plan.Thickness, RoomBefore;
    assert p.order[i] in p.order;
    SpotIs(p, spots, upTo, i);
  }

  /**
  The layout of any graph: one box per node, of the node's size, apart from every
  other box and inside the canvas.  If the graph has no cycle, every edge between
  registered nodes points forward.
   */
  method LayeredLayout(direction: string, nodes: map<string, Node>, order: seq<string>, edges: seq<Edge>)
    returns (boxes: map<string, Box>, width: real, height: real, horizontal: bool, ghost depth: map<string, nat>)
    requires Distinct(order) && forall n :: n in nodes <==> n in order
    ensures IsDepth(depth, nodes.Keys, edges) && Arranged(order, depth, boxes, horizontal)
    ensures horizontal <==> direction in {"LR", "RL"}
    ensures GoodLayout(nodes, boxes, width, height) && Tight(boxes, width, height)
    ensures Acyclic(nodes.Keys, edges) ==>
              forall e <- edges :: e.source in nodes && e.target in nodes ==> PointsForward(e, boxes, horizontal)
  {
    hide Arranged, IsDepth, Budgeted, Passes, Zeros, Acyclic, Settled, FedByCycle, IsLongest, Spots, GoodLayout, Tight,
         Reached, PointsForward, BoxOf, Whole, Width, Height, Plan.Valid, Distinct;
    var depths, settled, rounds := Relax(nodes.Keys, edges);
    depth := depths;
    DepthIs(depth, nodes.Keys, edges, settled, rounds);
    horizontal := direction in {"LR", "RL"};
    var p := MakePlan(nodes, order, depths, horizontal);
    PlanIsValid(nodes, order, depth, horizontal);
    var spots, far, crossFar;
    ghost var upTo;
    spots, far, crossFar, upTo := PlaceAll(p);
    SpotKeys(p, spots, upTo, nodes);
    boxes := map n | n in nodes :: BoxOf(spots[n], p.along[n], p.across[n], horizontal);
    width := (if horizontal then far else crossFar) + MARGIN as real;
    height := (if horizontal then crossFar else far) + MARGIN as real;
    LayoutIsGood(p, spots, upTo, nodes, boxes, far, crossFar, horizontal);
    LayoutIsTight(p, spots, nodes, boxes, far, crossFar, horizontal);
    LayoutIsArranged(p, spots, upTo, nodes, boxes, horizontal);
    if settled {
      ForwardWhenSettled(p, spots, upTo, nodes, edges, boxes, horizontal);
    }
  }

  function Extents(nodes: map<string, Node>, widths: bool): map<string, nat> {
    map n | n in nodes :: if widths then Width(nodes[n]) else Height(nodes[n])
  }

  /** Columns run along x and are 60 apart; rows run along y and are 34 apart. */
  function MakePlan(nodes: map<string, Node>, order: seq<string>, depth: map<string, nat>, horizontal: bool): Plan {
    Plan(order, depth, Extents(nodes, horizontal), Extents(nodes, !horizontal),
         if horizontal then GAP_X else GAP_Y, if horizontal then GAP_Y else GAP_X)
  }

  lemma PlanIsValid(nodes: map<string, Node>, order: seq<string>, depth: map<string, nat>, horizontal: bool)
    requires Distinct(order) && (forall n :: n in nodes <==> n in order) && depth.Keys == nodes.Keys
    ensures MakePlan(nodes, order, depth, horizontal).Valid()
  {
    hide Width, Height;
  }

  lemma SpotKeys(p: Plan, spots: map<string, (real, real)>, upTo: nat, nodes: map<string, Node>)
    requires Spots(p, spots, upTo) && forall n :: n in nodes <==> n in p.order
    ensures spots.Keys == nodes.Keys
  {
  }

  lemma LayoutIsGood(p: Plan, spots: map<string, (real, real)>, upTo: nat, nodes: map<string, Node>,
                     boxes: map<string, Box>, far: real, crossFar: real, horizontal: bool)
    requires Spots(p, spots, upTo) && p == MakePlan(nodes, p.order, p.depth, horizontal)
    requires spots.Keys == nodes.Keys && forall n :: n in nodes <==> n in p.order
    requires boxes == map n | n in nodes :: BoxOf(spots[n], p.along[n], p.across[n], horizontal)
    requires forall n <- p.order :: spots[n].0 + p.along[n] as real <= far
    requires forall n <- p.order :: spots[n].1 + p.across[n] as real <= crossFar
    requires Whole(far) && Whole(crossFar)
    ensures GoodLayout(nodes, boxes,
                       (if horizontal then far else crossFar) + MARGIN as real,
                       (if horizontal then crossFar else far) + MARGIN as real)
  {
    hide Spots, NodeWidth, NodeHeight, Whole, Inside, Separate;
    WholeSum(far, MARGIN);
    WholeSum(crossFar, MARGIN);
    forall n <- nodes
      ensures Inside(boxes[n], (if horizontal then far else crossFar) + MARGIN as real,
                     (if horizontal then crossFar else far) + MARGIN as real)
    {
      BoxInside(p, spots, upTo, n, far, crossFar, horizontal);
    }
    forall m <- nodes, n <- nodes | m != n
      ensures Separate(boxes[m], boxes[n])
    {
      BoxesSeparate(p, spots, upTo, horizontal, m, n);
    }
  }

  lemma LayoutIsTight(p: Plan, spots: map<string, (real, real)>, nodes: map<string, Node>,
                      boxes: map<string, Box>, far: real, crossFar: real, horizontal: bool)
    requires forall n <- p.order :: n in spots && n in p.along && n in p.across
    requires Reached(p, spots, far, crossFar) && forall n :: n in nodes <==> n in p.order
    requires boxes.Keys == nodes.Keys
    requires forall n <- p.order :: boxes[n] == BoxOf(spots[n], p.along[n], p.across[n], horizontal)
    ensures Tight(boxes, (if horizontal then far else crossFar) + MARGIN as real,
                  (if horizontal then crossFar else far) + MARGIN as real)
  {
    if p.order != [] {
      assert p.order[0] in boxes;
      var n :| n in p.order && spots[n].0 + p.along[n] as real == far;
      var m :| m in p.order && spots[m].1 + p.across[m] as real == crossFar;
      assert n in boxes && m in boxes;
    } else {
      assert boxes.Keys == {};
    }
  }

  lemma ForwardWhenSettled(p: Plan, spots: map<string, (real, real)>, upTo: nat, nodes: map<string, Node>,
                           edges: seq<Edge>, boxes: map<string, Box>, horizontal: bool)
    requires Spots(p, spots, upTo) && Settled(p.depth, nodes.Keys, edges)
    requires p.gap == if horizontal then GAP_X else GAP_Y
    requires forall n :: n in nodes <==> n in p.order
    requires boxes.Keys == nodes.Keys
    requires forall n <- nodes :: n in spots && n in p.along && n in p.across
    requires forall n <- nodes :: boxes[n] == BoxOf(spots[n], p.along[n], p.across[n], horizontal)
    ensures forall e <- edges :: e.source in nodes && e.target in nodes ==> PointsForward(e, boxes, horizontal)
  {
    hide Spots;
    forall e <- edges | e.source in nodes && e.target in nodes
      ensures PointsForward(e, boxes, horizontal)
    {
      assert Linked(e.source, e.target, nodes.Keys, edges);
      DeeperPointsForward(p, spots, upTo, e.source, e.target);
    }
  }

  /** From recognised statements to a layout, for every list of statements. */
  method LayOut(statements: seq<Statement>, statelike: bool, direction: string)
    returns (diagram: Diagram, nodes: map<string, Node>, boxes: map<string, Box>, width: real, height: real,
             horizontal: bool, ghost depth: map<string, nat>)
    ensures IsDepth(depth, nodes.Keys, diagram.edges) && Arranged(diagram.order, depth, boxes, horizontal)
    ensures fresh(diagram) && diagram.Valid() && nodes.Keys == diagram.nodes.Keys
    ensures forall n <- nodes :: nodes[n].text == diagram.nodes[n].text
    ensures forall n <- nodes :: nodes[n].shape ==
              if statelike && n != "__START__" && diagram.nodes[n].shape == Rect then Round else diagram.nodes[n].shape
    ensures diagram.log == AllRegistrations(statements, statelike) && diagram.edges == AllEdges(statements)
    ensures horizontal <==> direction in {"LR", "RL"}
    ensures GoodLayout(nodes, boxes, width, height) && Tight(boxes, width, height)
    ensures Acyclic(nodes.Keys, diagram.edges) ==>
              forall e <- diagram.edges :: e.source in nodes && e.target in nodes && PointsForward(e, boxes, horizontal)
    ensures Acyclic(nodes.Keys, diagram.edges) ==>
              forall st <- statements :: st.EdgeLine? ==> GroupsInOrder(st.groups, boxes, horizontal)
  {
    hide GoodLayout, Tight, IsDepth, Arranged, Acyclic, PointsForward, GroupsInOrder, AllEdges;
    diagram := new Diagram();
    nodes := diagram.Parse(statements, statelike);
    boxes, width, height, horizontal, depth := LayeredLayout(direction, nodes, diagram.order, diagram.edges);
    LayoutKeys(nodes, boxes, width, height);
    if Acyclic(nodes.Keys, diagram.edges) {
      forall st <- statements | st.EdgeLine?
        ensures GroupsInOrder(st.groups, boxes, horizontal)
      {
        EdgesInOrder(statements, st, boxes, horizontal);
      }
    }
  }

  lemma LayoutKeys(nodes: map<string, Node>, boxes: map<string, Box>, width: real, height: real)
    requires GoodLayout(nodes, boxes, width, height)
    ensures boxes.Keys == nodes.Keys
  {
  }

  /** Every node of a group is drawn ahead of every node of the next group of its statement. */
  ghost predicate GroupsInOrder(groups: seq<seq<Mention>>, boxes: map<string, Box>, horizontal: bool) {
    forall i: nat, j: nat, k: nat :: Adjacent(groups, i, j, k) ==>
      && groups[i][j].id in boxes && groups[i + 1][k].id in boxes
      && Ahead(boxes[groups[i][j].id], boxes[groups[i + 1][k].id], horizontal)
  }

  ghost predicate Adjacent(groups: seq<seq<Mention>>, i: nat, j: nat, k: nat) {
    i + 1 < |groups| && j < |groups[i]| && k < |groups[i + 1]|
  }

  lemma EdgesInOrder(statements: seq<Statement>, st: Statement, boxes: map<string, Box>, horizontal: bool)
    requires st in statements && st.EdgeLine?
    requires forall e <- AllEdges(statements) ::
               e.source in boxes && e.target in boxes && PointsForward(e, boxes, horizontal)
    ensures GroupsInOrder(st.groups, boxes, horizontal)
  {
    hide AllEdges, StatementEdges, Ahead;
    var groups, captions := st.groups, st.captions;
    forall i: nat, j: nat, k: nat | Adjacent(groups, i, j, k)
      ensures groups[i][j].id in boxes && groups[i + 1][k].id in boxes
      ensures Ahead(boxes[groups[i][j].id], boxes[groups[i + 1][k].id], horizontal)
    {
      var e := Edge(groups[i][j].id, groups[i + 1][k].id, if i < |captions| then captions[i] else "");
      assert IsEdge(groups, captions, i, j, k, e);
      StatementEdgesAre(groups, captions, e);
      assert st == EdgeLine(groups, captions);
      AllEdgesAre(statements, e);
      assert PointsForward(e, boxes, horizontal);
    }
  }
}
