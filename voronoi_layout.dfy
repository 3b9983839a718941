/**
 * The recursion of `calculateVoronoi` (layout.js): every node it visits gets a `layout`
 * record; a node with children runs the retry controller over its children and then
 * recurses once per returned polygon, into the child that polygon was built from.
 *
 * The solver is an oracle `solver: SolverCall -> Run`. Each run it makes carries the
 * number of solver runs made before it in the whole layout, so repeated runs on the same
 * input may differ, as the randomised library's do.
 */
module VoronoiLayout {
  import opened Wrappers
  import opened Flare
  import opened LayoutTree
  import opened VoronoiRetry

  /** The `algorithm` written into every layout. */
  const Voronoi: string := "voronoi"

  /** One start of the solver: its position in the whole layout, the children's weights, the clip polygon. */
  datatype SolverCall = SolverCall(run: nat, weights: seq<int>, clip: Polygon)

  /** The runs one node's controller sees when `base` solver runs were made before. */
  function Attempts(solver: SolverCall -> Run, base: nat, weights: seq<int>, clip: Polygon): nat -> Run
  {
    (k: nat) => solver(SolverCall(base + k, weights, clip))
  }

  /**
   * How one node's children are partitioned: from the solver runs made before, the
   * children's weights and the clip polygon, to the controller's outcome and runs used.
   */
  type Partition = (nat, seq<int>, Polygon) -> (Result<seq<Cell>, Failure>, nat)

  /** The partition the retry controller makes of the solver's runs. */
  function Partitioner(solver: SolverCall -> Run, goodenough: bool): Partition
  {
    (base: nat, weights: seq<int>, clip: Polygon) => Controller(Attempts(solver, base, weights, clip), goodenough)
  }

  /** The tree with every layout removed: what a layout pass must not change. */
  function WithoutLayouts(t: Tree): Tree
  {
    match t
    case Leaf(_, _, _, _) => t.(layout := None)
    case Dir(_, cs, _, _, _) =>
      t.(children := seq(|cs|, i requires 0 <= i < |cs| => WithoutLayouts(cs[i])), layout := None)
  }

  /** Two tree sequences that agree except for layouts. */
  ghost predicate SameBut(us: seq<Tree>, ts: seq<Tree>)
  {
    |us| == |ts| && forall j :: 0 <= j < |ts| ==> WithoutLayouts(us[j]) == WithoutLayouts(ts[j])
  }

  function MaxOf(s: seq<nat>): nat
  {
    if s == [] then 0 else var m := MaxOf(s[..|s| - 1]); if s[|s| - 1] > m then s[|s| - 1] else m
  }

  lemma {:induction false} MaxOfBounds(s: seq<nat>, j: nat)
    requires j < |s|
    ensures s[j] <= MaxOf(s)
  {
    if j < |s| - 1 {
      MaxOfBounds(s[..|s| - 1], j);
    }
  }

  /** The length of the longest downward path: what the layout recursion descends on. */
  function Height(t: Tree): nat
  {
    match t
    case Leaf(_, _, _, _) => 0
    case Dir(_, cs, _, _, _) => 1 + MaxOf(seq(|cs|, i requires 0 <= i < |cs| => Height(cs[i])))
  }

  function Heights(ts: seq<Tree>): seq<nat>
  {
    seq(|ts|, i requires 0 <= i < |ts| => Height(ts[i]))
  }

  /** Two tree sequences whose trees have the same heights, one by one. */
  ghost predicate SameHeights(us: seq<Tree>, ts: seq<Tree>)
  {
    Heights(us) == Heights(ts)
  }

  lemma HeightBelow(t: Tree, j: nat)
    requires t.Dir? && j < |t.children|
    ensures Height(t.children[j]) < Height(t)
  {
    var hs := seq(|t.children|, i requires 0 <= i < |t.children| => Height(t.children[i]));
    MaxOfBounds(hs, j);
  }

  lemma HeightOfChildren(u: Tree, t: Tree)
    requires t.Dir? && u.Dir? && SameHeights(u.children, t.children)
    ensures Height(u) == Height(t)
  {
    var hs := seq(|t.children|, i requires 0 <= i < |t.children| => Height(t.children[i]));
    var us := seq(|u.children|, i requires 0 <= i < |u.children| => Height(u.children[i]));
    assert us == Heights(u.children) && hs == Heights(t.children);
  }

  /** Replacing one tree by one of the same height keeps the heights. */
  lemma HeightsUpdate(ts: seq<Tree>, j: nat, u: Tree)
    requires j < |ts| && Height(u) == Height(ts[j])
    ensures Heights(ts[j := u]) == Heights(ts)
  {
  }

  /** A tree in a sequence with the heights of t's children is lower than t. */
  lemma HeightBelowAt(t: Tree, kids: seq<Tree>, j: nat)
    requires t.Dir? && SameHeights(kids, t.children) && j < |kids|
    ensures Height(kids[j]) < Height(t)
  {
    assert Heights(kids)[j] == Heights(t.children)[j];
    HeightBelow(t, j);
  }

  /** The tree after a call, what went wrong if the call ended by throwing, and the solver runs used. */
  datatype Outcome = Outcome(tree: Tree, failure: Option<Failure>, runs: nat)

  /** The children after the polygon loop, a failure that stopped it, and the solver runs used. */
  datatype Placed = Placed(kids: seq<Tree>, failure: Option<Failure>, runs: nat)

  /**
   * `calculateVoronoi(…, node, clipPolygon, center, goodenough, …)` on the tree t, after
   * `base` solver runs. A failure leaves the writes made before it in place.
   */
  function LaidOut(t: Tree, clip: Polygon, center: Point, partition: Partition, base: nat): (o: Outcome)
    ensures o.tree.layout == Some(NodeLayout(clip, center, Voronoi))
    ensures Height(o.tree) == Height(t)
    decreases Height(t), 2
  {
    var t1 := t.(layout := Some(NodeLayout(clip, center, Voronoi)));
    match t
    case Leaf(_, _, _, _) => Outcome(t1, None, 0)
    case Dir(_, cs, _, _, _) =>
      HeightOfChildren(t1, t);
      var p := ChildrenLaidOut(t1, clip, partition, base);
      HeightOfChildren(t1.(children := p.kids), t);
      Outcome(t1.(children := p.kids), p.failure, p.runs)
  }

  /**
   * What `calculateVoronoi` does to the children of the node t: the retry controller
   * partitions clip by their weights, and the polygons it returns lay them out.
   */
  function ChildrenLaidOut(t: Tree, clip: Polygon, partition: Partition, base: nat): (p: Placed)
    requires t.Dir?
    ensures SameHeights(p.kids, t.children)
    decreases Height(t), 1
  {
    var (r, n) := partition(base, ValuesOf(t.children), clip);
    match r
    case Err(f) => Placed(t.children, Some(f), n)
    case Ok(cells) =>
      var p := Place(t, t.children, cells, partition, base + n);
      Placed(p.kids, p.failure, n + p.runs)
  }

  /**
   * The `for (const polygon of polygons)` loop over the children kids of parent: each cell
   * lays out the child it was built from, and a failure ends the loop.
   */
  function Place(parent: Tree, kids: seq<Tree>, cells: seq<Cell>, partition: Partition, base: nat): (p: Placed)
    requires parent.Dir? && SameHeights(kids, parent.children)
    ensures SameHeights(p.kids, kids)
    decreases Height(parent), 0, |cells|
  {
    if cells == [] then Placed(kids, None, 0)
    else
      var first := PlaceOne(parent, kids, cells[0], partition, base);
      if first.failure.Some? then first
      else
        var rest := Place(parent, first.kids, cells[1..], partition, base + first.runs);
        Placed(rest.kids, rest.failure, first.runs + rest.runs)
  }

  /**
   * One pass of that loop: the child the cell was built from is laid out inside the cell's
   * polygon, centred on the cell's site. A site that names no child is passed over.
   */
  function PlaceOne(parent: Tree, kids: seq<Tree>, c: Cell, partition: Partition, base: nat): (p: Placed)
    requires parent.Dir? && SameHeights(kids, parent.children)
    ensures SameHeights(p.kids, kids)
    ensures c.site < |kids| ==> p.kids == kids[c.site := p.kids[c.site]]
    ensures c.site < |kids| ==> p.kids[c.site].layout == Some(NodeLayout(c.polygon, Point(c.x, c.y), Voronoi))
    ensures c.site >= |kids| ==> p == Placed(kids, None, 0)
    decreases Height(parent), 0, 0
  {
    if c.site < |kids| then
      HeightBelowAt(parent, kids, c.site);
      var o := LaidOut(kids[c.site], c.polygon, Point(c.x, c.y), partition, base);
      HeightsUpdate(kids, c.site, o.tree);
      Placed(kids[c.site := o.tree], o.failure, o.runs)
    else Placed(kids, None, 0)
  }

  // ---------------------------------------------------------------------------------------
  // Properties of the layout

  /** A layout pass writes layouts and nothing else: names, data, values and children stay. */
  lemma {:induction false} LaidOutOnlyLayouts(t: Tree, clip: Polygon, center: Point, partition: Partition, base: nat)
    ensures WithoutLayouts(LaidOut(t, clip, center, partition, base).tree) == WithoutLayouts(t)
    decreases Height(t), 2
  {
    if t.Dir? {
      var t1 := t.(layout := Some(NodeLayout(clip, center, Voronoi)));
      HeightOfChildren(t1, t);
      var (r, n) := partition(base, ValuesOf(t.children), clip);
      if r.Ok? {
        var p := Place(t1, t.children, r.value, partition, base + n);
        PlaceOnlyLayouts(t1, t.children, r.value, partition, base + n);
        var o := LaidOut(t, clip, center, partition, base);
        assert ChildrenLaidOut(t1, clip, partition, base).kids == p.kids;
        assert o.tree.children == p.kids;
        var ws := seq(|p.kids|, i requires 0 <= i < |p.kids| => WithoutLayouts(p.kids[i]));
        assert ws == seq(|t.children|, i requires 0 <= i < |t.children| => WithoutLayouts(t.children[i]));
      }
    }
  }

  lemma {:induction false} PlaceOnlyLayouts(parent: Tree, kids: seq<Tree>, cells: seq<Cell>, partition: Partition, base: nat)
    requires parent.Dir? && SameHeights(kids, parent.children)
    ensures SameBut(Place(parent, kids, cells, partition, base).kids, kids)
    decreases Height(parent), 0, |cells|
  {
    if cells != [] {
      var c := cells[0];
      var first := PlaceOne(parent, kids, c, partition, base);
      if c.site < |kids| {
        HeightBelowAt(parent, kids, c.site);
        LaidOutOnlyLayouts(kids[c.site], c.polygon, Point(c.x, c.y), partition, base);
      }
      if first.failure.None? {
        PlaceOnlyLayouts(parent, first.kids, cells[1..], partition, base + first.runs);
      }
    }
  }

  /** No two cells come from the same child. */
  ghost predicate DistinctSites(cells: seq<Cell>)
  {
    forall m, n :: 0 <= m < n < |cells| ==> cells[m].site != cells[n].site
  }

  function Sites(cells: seq<Cell>): set<nat>
  {
    set m | 0 <= m < |cells| :: cells[m].site
  }

  lemma SitesCons(cells: seq<Cell>)
    requires cells != []
    ensures Sites(cells) == {cells[0].site} + Sites(cells[1..])
  {
    forall s | s in Sites(cells) ensures s in {cells[0].site} + Sites(cells[1..]) {
      var m :| 0 <= m < |cells| && cells[m].site == s;
      if m > 0 { assert cells[1..][m - 1] == cells[m]; }
    }
    forall s | s in Sites(cells[1..]) ensures s in Sites(cells) {
      var m :| 0 <= m < |cells[1..]| && cells[1..][m].site == s;
      assert cells[m + 1].site == s;
    }
  }

  lemma DistinctCons(cells: seq<Cell>)
    requires cells != [] && DistinctSites(cells)
    ensures DistinctSites(cells[1..]) && cells[0].site !in Sites(cells[1..])
  {
    forall m, n | 0 <= m < n < |cells[1..]| ensures cells[1..][m].site != cells[1..][n].site {
      assert cells[1..][m] == cells[m + 1] && cells[1..][n] == cells[n + 1];
    }
    forall m | 0 <= m < |cells[1..]| ensures cells[1..][m].site != cells[0].site {
      assert cells[1..][m] == cells[m + 1];
    }
  }

  /**
   * When the loop runs through, the child of each cell is laid out in that cell's polygon
   * with the cell's site as centre, and a child no cell names is left as it was.
   */
  lemma {:induction false} PlacedLayouts(parent: Tree, kids: seq<Tree>, cells: seq<Cell>, partition: Partition, base: nat)
    requires parent.Dir? && SameHeights(kids, parent.children) && DistinctSites(cells)
    requires Place(parent, kids, cells, partition, base).failure.None?
    ensures var p := Place(parent, kids, cells, partition, base);
      (forall m :: 0 <= m < |cells| && cells[m].site < |kids| ==>
        p.kids[cells[m].site].layout == Some(NodeLayout(cells[m].polygon, Point(cells[m].x, cells[m].y), Voronoi))) &&
      (forall j :: 0 <= j < |kids| && j !in Sites(cells) ==> p.kids[j] == kids[j])
    decreases |cells|
  {
    if cells != [] {
      var c := cells[0];
      var first := PlaceOne(parent, kids, c, partition, base);
      var p := Place(parent, kids, cells, partition, base);
      SitesCons(cells);
      DistinctCons(cells);
      PlacedLayouts(parent, first.kids, cells[1..], partition, base + first.runs);
      assert p == Place(parent, first.kids, cells[1..], partition, base + first.runs).(runs := p.runs);
      forall m | 0 <= m < |cells| && cells[m].site < |kids|
        ensures p.kids[cells[m].site].layout == Some(NodeLayout(cells[m].polygon, Point(cells[m].x, cells[m].y), Voronoi))
      {
        if m > 0 { assert cells[1..][m - 1] == cells[m]; }
      }
    }
  }

  /** Every node of the tree carries a layout. */
  ghost predicate AllLaidOut(t: Tree)
  {
    t.layout.Some? && (t.Dir? ==> forall i :: 0 <= i < |t.children| ==> AllLaidOut(t.children[i]))
  }

  /** Polygons that name every one of n children. */
  ghost predicate CoversSites(cells: seq<Cell>, n: nat)
  {
    forall j :: 0 <= j < n ==> j in Sites(cells)
  }

  /** A solver that builds one polygon for every weight it is given, in every state it reports. */
  ghost predicate CoveringSolver(solver: SolverCall -> Run)
  {
    forall call :: RunSatisfies(solver(call), cells => CoversSites(cells, |call.weights|))
  }

  /** A partition whose every polygon list names each of the weights it was given. */
  ghost predicate CoveringPartition(partition: Partition)
  {
    forall base: nat, weights: seq<int>, clip: Polygon ::
      var r := partition(base, weights, clip).0; r.Ok? ==> CoversSites(r.value, |weights|)
  }

  /** A partition that never reports a failure. */
  ghost predicate NeverFails(partition: Partition)
  {
    forall base: nat, weights: seq<int>, clip: Polygon :: partition(base, weights, clip).0.Ok?
  }

  /** The controller over a covering solver is a covering partition, whatever the policy. */
  lemma ControllerCovers(solver: SolverCall -> Run, goodenough: bool)
    requires CoveringSolver(solver)
    ensures CoveringPartition(Partitioner(solver, goodenough))
  {
    forall base: nat, weights: seq<int>, clip: Polygon
      ensures var r := Partitioner(solver, goodenough)(base, weights, clip).0; r.Ok? ==> CoversSites(r.value, |weights|)
    {
      var runs := Attempts(solver, base, weights, clip);
      var P := cells => CoversSites(cells, |weights|);
      forall k: nat ensures RunSatisfies(runs(k), P) {
        assert RunSatisfies(solver(SolverCall(base + k, weights, clip)), cells => CoversSites(cells, |weights|));
      }
      ControllerPolygonsFromRuns(runs, goodenough, P);
    }
  }

  /** The lenient controller over a solver that never throws never fails. */
  lemma LenientControllerNeverFails(solver: SolverCall -> Run)
    requires forall call :: solver(call).Ended?
    ensures NeverFails(Partitioner(solver, true))
  {
    forall base: nat, weights: seq<int>, clip: Polygon ensures Partitioner(solver, true)(base, weights, clip).0.Ok? {
      LenientNeverFails(Attempts(solver, base, weights, clip));
    }
  }

  /** With a covering partition, a layout that runs through leaves no node without a layout. */
  lemma {:induction false} LaidOutComplete(t: Tree, clip: Polygon, center: Point, partition: Partition, base: nat)
    requires CoveringPartition(partition)
    requires LaidOut(t, clip, center, partition, base).failure.None?
    ensures AllLaidOut(LaidOut(t, clip, center, partition, base).tree)
    decreases Height(t), 2
  {
    if t.Dir? {
      var t1 := t.(layout := Some(NodeLayout(clip, center, Voronoi)));
      HeightOfChildren(t1, t);
      var (r, n) := partition(base, ValuesOf(t.children), clip);
      var p := Place(t1, t.children, r.value, partition, base + n);
      forall j | 0 <= j < |p.kids| ensures AllLaidOut(p.kids[j]) {
        PlaceComplete(t1, t.children, r.value, partition, base + n, j);
      }
      assert LaidOut(t, clip, center, partition, base).tree == t1.(children := p.kids);
    }
  }

  lemma {:induction false} PlaceComplete(parent: Tree, kids: seq<Tree>, cells: seq<Cell>, partition: Partition, base: nat, j: nat)
    requires CoveringPartition(partition)
    requires parent.Dir? && SameHeights(kids, parent.children)
    requires Place(parent, kids, cells, partition, base).failure.None?
    requires j < |kids| && (j in Sites(cells) || AllLaidOut(kids[j]))
    ensures AllLaidOut(Place(parent, kids, cells, partition, base).kids[j])
    decreases Height(parent), 0, |cells|
  {
    if cells != [] {
      SitesCons(cells);
      var first := PlaceOne(parent, kids, cells[0], partition, base);
      PlaceCons(parent, kids, cells, partition, base, first);
      if j == cells[0].site || AllLaidOut(kids[j]) {
        PlaceOneComplete(parent, kids, cells[0], partition, base, j);
      }
      PlaceComplete(parent, first.kids, cells[1..], partition, base + first.runs, j);
    }
  }

  lemma {:induction false} PlaceOneComplete(parent: Tree, kids: seq<Tree>, c: Cell, partition: Partition, base: nat, j: nat)
    requires CoveringPartition(partition)
    requires parent.Dir? && SameHeights(kids, parent.children)
    requires PlaceOne(parent, kids, c, partition, base).failure.None?
    requires j < |kids| && (j == c.site || AllLaidOut(kids[j]))
    ensures AllLaidOut(PlaceOne(parent, kids, c, partition, base).kids[j])
    decreases Height(parent), 0, 0, 0
  {
    if j == c.site {
      HeightBelowAt(parent, kids, j);
      LaidOutComplete(kids[j], c.polygon, Point(c.x, c.y), partition, base);
    }
  }

  /** A partition that never fails gives a layout that runs through. */
  lemma {:induction false} LayoutSucceeds(t: Tree, clip: Polygon, center: Point, partition: Partition, base: nat)
    requires NeverFails(partition)
    ensures LaidOut(t, clip, center, partition, base).failure.None?
    decreases Height(t), 2
  {
    if t.Dir? {
      var t1 := t.(layout := Some(NodeLayout(clip, center, Voronoi)));
      HeightOfChildren(t1, t);
      var (r, n) := partition(base, ValuesOf(t.children), clip);
      PlaceSucceeds(t1, t.children, r.value, partition, base + n);
    }
  }

  lemma {:induction false} PlaceSucceeds(parent: Tree, kids: seq<Tree>, cells: seq<Cell>, partition: Partition, base: nat)
    requires NeverFails(partition)
    requires parent.Dir? && SameHeights(kids, parent.children)
    ensures Place(parent, kids, cells, partition, base).failure.None?
    decreases Height(parent), 0, |cells|
  {
    if cells != [] {
      var first := PlaceOne(parent, kids, cells[0], partition, base);
      PlaceCons(parent, kids, cells, partition, base, first);
      PlaceOneSucceeds(parent, kids, cells[0], partition, base);
      PlaceSucceeds(parent, first.kids, cells[1..], partition, base + first.runs);
    }
  }

  lemma {:induction false} PlaceOneSucceeds(parent: Tree, kids: seq<Tree>, c: Cell, partition: Partition, base: nat)
    requires NeverFails(partition)
    requires parent.Dir? && SameHeights(kids, parent.children)
    ensures PlaceOne(parent, kids, c, partition, base).failure.None?
    decreases Height(parent), 0, 0, 0
  {
    if c.site < |kids| {
      HeightBelowAt(parent, kids, c.site);
      LayoutSucceeds(kids[c.site], c.polygon, Point(c.x, c.y), partition, base);
    }
  }

  /** The lenient policy with a covering solver that never throws lays out every node. */
  lemma LenientLayoutComplete(t: Tree, clip: Polygon, center: Point, solver: SolverCall -> Run, base: nat)
    requires forall call :: solver(call).Ended?
    requires CoveringSolver(solver)
    ensures LaidOut(t, clip, center, Partitioner(solver, true), base).failure.None?
    ensures AllLaidOut(LaidOut(t, clip, center, Partitioner(solver, true), base).tree)
  {
    ControllerCovers(solver, true);
    LenientControllerNeverFails(solver);
    LayoutSucceeds(t, clip, center, Partitioner(solver, true), base);
    LaidOutComplete(t, clip, center, Partitioner(solver, true), base);
  }

  // ---------------------------------------------------------------------------------------
  // The in-place pass

  /**
   * `calculateVoronoi` on the node objects: writes `layout` into the nodes it visits and
   * reports, instead of throwing, why it stopped.
   */
  method CalculateVoronoi(node: Node, clip: Polygon, center: Point, goodenough: bool, solver: SolverCall -> Run, base: nat)
    returns (failure: Option<Failure>, used: nat)
    requires node.Valid()
    modifies node.Repr
    ensures node.Valid() && node.Repr == old(node.Repr) && node.children == old(node.children)
    ensures LaidOut(old(node.Snap()), clip, center, Partitioner(solver, goodenough), base) == Outcome(node.Snap(), failure, used)
    decreases node.Repr, 4
  {
    ghost var before := node.Snap();
    var layout := Some(NodeLayout(clip, center, Voronoi));
    node.layout := layout;
    if node.children.None? {
      assert node.Snap() == Leaf(before.name, before.data, before.value, layout);
      return None, 0;
    }
    ghost var cs := node.children.value;
    ghost var mid := before.(layout := layout);
    assert node.KidSnaps(|cs|) == before.children;
    assert node.Snap() == mid;
    failure, used := LayOutChildren(node, clip, goodenough, solver, base);
    assert node.Snap() == mid.(children := node.KidSnaps(|cs|));
    LaidOutDir(before, clip, center, Partitioner(solver, goodenough), base);
  }

  /** One unfolding of `LaidOut` on a node with children. */
  lemma LaidOutDir(t: Tree, clip: Polygon, center: Point, partition: Partition, base: nat)
    requires t.Dir?
    ensures var t1 := t.(layout := Some(NodeLayout(clip, center, Voronoi)));
      var p := ChildrenLaidOut(t1, clip, partition, base);
      LaidOut(t, clip, center, partition, base) == Outcome(t1.(children := p.kids), p.failure, p.runs)
  {
  }

  /** The part of `calculateVoronoi` below a node with children: the controller, then the loop. */
  method LayOutChildren(node: Node, clip: Polygon, goodenough: bool, solver: SolverCall -> Run, base: nat)
    returns (failure: Option<Failure>, used: nat)
    requires node.Valid() && node.children.Some?
    modifies node.Repr - {node}
    ensures node.Valid()
    ensures ChildrenLaidOut(old(node.Snap()), clip, Partitioner(solver, goodenough), base) ==
      Placed(node.KidSnaps(|node.children.value|), failure, used)
    decreases node.Repr, 3
  {
    ghost var before := node.Snap();
    var cs := node.children.value;
    ghost var kids := node.KidSnaps(|cs|);
    assert before.children == kids;
    assert NodeValues(cs) == ValuesOf(kids);
    var polygons, attempts := RunSimulations(Attempts(solver, base, NodeValues(cs), clip), goodenough);
    PartitionerIs(solver, goodenough, base, ValuesOf(kids), clip);
    used := attempts;
    match polygons {
      case Err(f) =>
        failure := Some(f);
        ChildrenFailed(before, clip, Partitioner(solver, goodenough), base, f, attempts);
      case Ok(cells) =>
        var next := base + attempts;
        var more;
        failure, more := PlaceCells(node, cells, goodenough, solver, next, before, kids);
        ChildrenPlaced(before, clip, Partitioner(solver, goodenough), base, cells, attempts, next, kids, node.KidSnaps(|cs|), failure, more);
        used := used + more;
    }
  }

  /** `ChildrenLaidOut` when the controller gave up. */
  lemma ChildrenFailed(t: Tree, clip: Polygon, partition: Partition, base: nat, f: Failure, n: nat)
    requires t.Dir? && partition(base, ValuesOf(t.children), clip) == (Err(f), n)
    ensures ChildrenLaidOut(t, clip, partition, base) == Placed(t.children, Some(f), n)
  {
  }

  /** `ChildrenLaidOut` when the controller returned polygons. */
  lemma ChildrenPlaced(t: Tree, clip: Polygon, partition: Partition, base: nat, cells: seq<Cell>, n: nat, next: nat,
                       start: seq<Tree>, kids: seq<Tree>, failure: Option<Failure>, more: nat)
    requires t.Dir? && t.children == start && next == base + n
    requires partition(base, ValuesOf(start), clip) == (Ok(cells), n)
    requires Place(t, start, cells, partition, next) == Placed(kids, failure, more)
    ensures ChildrenLaidOut(t, clip, partition, base) == Placed(kids, failure, n + more)
  {
  }

  lemma PartitionerIs(solver: SolverCall -> Run, goodenough: bool, base: nat, weights: seq<int>, clip: Polygon)
    ensures Partitioner(solver, goodenough)(base, weights, clip) == Controller(Attempts(solver, base, weights, clip), goodenough)
  {
  }

  /** The `for (const polygon of polygons)` loop of `calculateVoronoi`. */
  method PlaceCells(node: Node, cells: seq<Cell>, goodenough: bool, solver: SolverCall -> Run, base: nat, ghost parent: Tree, ghost start: seq<Tree>)
    returns (failure: Option<Failure>, used: nat)
    requires node.Valid() && node.children.Some? && start == node.KidSnaps(|node.children.value|)
    requires parent.Dir? && SameHeights(start, parent.children)
    modifies node.Repr - {node}
    ensures node.Valid()
    ensures Place(parent, start, cells, Partitioner(solver, goodenough), base) == Placed(node.KidSnaps(|node.children.value|), failure, used)
    decreases node.Repr, 2
  {
    var cs := node.children.value;
    failure, used := None, 0;
    var i := 0;
    assert cells[..0] == [];
    while i < |cells|
      invariant 0 <= i <= |cells|
      invariant node.Valid()
      invariant Place(parent, start, cells[..i], Partitioner(solver, goodenough), base) == Placed(node.KidSnaps(|cs|), None, used)
    {
      var next := base + used;
      var f, u := PlaceCell(node, cells, i, goodenough, solver, next, parent, start, base, used);
      used := used + u;
      if f.Some? {
        failure := f;
        PrefixFinal(parent, start, cells, Partitioner(solver, goodenough), base, i + 1, Placed(node.KidSnaps(|cs|), f, used));
        return;
      }
      i := i + 1;
    }
    PrefixFinal(parent, start, cells, Partitioner(solver, goodenough), base, i, Placed(node.KidSnaps(|cs|), None, used));
  }

  /**
   * One pass of that loop: `calculateVoronoi` on the child of cells[i], which leaves its
   * siblings alone; a polygon whose site names no child is passed over.
   */
  method PlaceCell(node: Node, cells: seq<Cell>, i: nat, goodenough: bool, solver: SolverCall -> Run, next: nat,
                   ghost parent: Tree, ghost start: seq<Tree>, ghost base: nat, ghost used: nat)
    returns (failure: Option<Failure>, more: nat)
    requires node.Valid() && node.children.Some? && i < |cells| && next == base + used
    requires parent.Dir? && SameHeights(start, parent.children)
    requires Place(parent, start, cells[..i], Partitioner(solver, goodenough), base) == Placed(node.KidSnaps(|node.children.value|), None, used)
    modifies node.Repr - {node}
    ensures node.Valid()
    ensures Place(parent, start, cells[..i + 1], Partitioner(solver, goodenough), base) ==
      Placed(node.KidSnaps(|node.children.value|), failure, used + more)
    decreases node.Repr, 1
  {
    var cs := node.children.value;
    var c := cells[i];
    ghost var kids := node.KidSnaps(|cs|);
    if c.site < |cs| {
      failure, more := LayOutChild(node, c, goodenough, solver, next, parent);
      PrefixNext(parent, start, cells, Partitioner(solver, goodenough), base, i, kids, used, c, next, node.KidSnaps(|cs|), failure, more);
    } else {
      failure, more := None, 0;
      PrefixSkip(parent, start, cells, Partitioner(solver, goodenough), base, i, kids, used);
    }
  }

  /** `calculateVoronoi` on the child of cell c, which leaves its siblings alone. */
  method LayOutChild(node: Node, c: Cell, goodenough: bool, solver: SolverCall -> Run, base: nat, ghost parent: Tree)
    returns (failure: Option<Failure>, used: nat)
    requires node.Valid() && node.children.Some? && c.site < |node.children.value|
    requires parent.Dir? && SameHeights(node.KidSnaps(|node.children.value|), parent.children)
    modifies node.children.value[c.site].Repr
    ensures node.Valid() && node.Repr == old(node.Repr) && node.children == old(node.children)
    ensures PlaceOne(parent, old(node.KidSnaps(|node.children.value|)), c, Partitioner(solver, goodenough), base) ==
      Placed(node.KidSnaps(|node.children.value|), failure, used)
    decreases node.Repr, 0
  {
    var cs := node.children.value;
    ghost var kids := node.KidSnaps(|cs|);
    failure, used := CalculateVoronoi(cs[c.site], c.polygon, Point(c.x, c.y), goodenough, solver, base);
    assert forall k :: 0 <= k < |cs| && k != c.site ==> cs[k].Repr !! cs[c.site].Repr;
    assert forall k :: 0 <= k < |cs| && k != c.site ==> cs[k].Snap() == kids[k];
    ghost var after := node.KidSnaps(|cs|);
    assert after == kids[c.site := cs[c.site].Snap()];
    PlaceOneStep(parent, kids, c, Partitioner(solver, goodenough), base);
  }

  /** `Place` over one more polygon, when the polygons before it ran through. */
  lemma {:induction false} PlaceSnoc(parent: Tree, kids: seq<Tree>, cells: seq<Cell>, c: Cell, partition: Partition, base: nat,
                                     mid: seq<Tree>, used: nat, next: nat)
    requires parent.Dir? && SameHeights(kids, parent.children) && next == base + used
    requires Place(parent, kids, cells, partition, base) == Placed(mid, None, used)
    ensures var q := PlaceOne(parent, mid, c, partition, next);
      Place(parent, kids, cells + [c], partition, base) == Placed(q.kids, q.failure, used + q.runs)
    decreases |cells|
  {
    if cells == [] {
      assert [] + [c] == [c];
    } else {
      var longer := cells + [c];
      assert longer[0] == cells[0] && longer[1..] == cells[1..] + [c];
      var first := PlaceOne(parent, kids, cells[0], partition, base);
      PlaceCons(parent, kids, cells, partition, base, first);
      PlaceCons(parent, kids, longer, partition, base, first);
      var rest := Place(parent, first.kids, cells[1..], partition, base + first.runs);
      PlaceSnoc(parent, first.kids, cells[1..], c, partition, base + first.runs, mid, rest.runs, next);
    }
  }

  /** One step of `Place`: the first polygon, then the rest unless the first one failed. */
  lemma PlaceCons(parent: Tree, kids: seq<Tree>, cells: seq<Cell>, partition: Partition, base: nat, first: Placed)
    requires parent.Dir? && SameHeights(kids, parent.children) && cells != []
    requires first == PlaceOne(parent, kids, cells[0], partition, base)
    ensures first.failure.Some? ==> Place(parent, kids, cells, partition, base) == first
    ensures first.failure.None? ==>
      var rest := Place(parent, first.kids, cells[1..], partition, base + first.runs);
      Place(parent, kids, cells, partition, base) == Placed(rest.kids, rest.failure, first.runs + rest.runs)
  {
  }

  /** `Place` over one more polygon, when a failure stopped the polygons before it. */
  lemma {:induction false} PlaceSnocFailed(parent: Tree, kids: seq<Tree>, cells: seq<Cell>, c: Cell, partition: Partition, base: nat)
    requires parent.Dir? && SameHeights(kids, parent.children)
    requires Place(parent, kids, cells, partition, base).failure.Some?
    ensures Place(parent, kids, cells + [c], partition, base) == Place(parent, kids, cells, partition, base)
    decreases |cells|
  {
    assert (cells + [c])[0] == cells[0] && (cells + [c])[1..] == cells[1..] + [c];
    var first := PlaceOne(parent, kids, cells[0], partition, base);
    if first.failure.None? {
      PlaceSnocFailed(parent, first.kids, cells[1..], c, partition, base + first.runs);
    }
  }

  /** The loop has handled cells[..i] and handles cells[i] next. */
  lemma PrefixNext(parent: Tree, start: seq<Tree>, cells: seq<Cell>, partition: Partition, base: nat, i: nat,
                   kids: seq<Tree>, used: nat, c: Cell, next: nat, after: seq<Tree>, f: Option<Failure>, u: nat)
    requires parent.Dir? && SameHeights(start, parent.children) && i < |cells| && c == cells[i] && next == base + used
    requires Place(parent, start, cells[..i], partition, base) == Placed(kids, None, used)
    requires PlaceOne(parent, kids, c, partition, next) == Placed(after, f, u)
    ensures Place(parent, start, cells[..i + 1], partition, base) == Placed(after, f, used + u)
  {
    assert cells[..i + 1] == cells[..i] + [cells[i]];
    PlaceSnoc(parent, start, cells[..i], c, partition, base, kids, used, next);
  }

  /** A polygon whose site names no child changes nothing. */
  lemma PrefixSkip(parent: Tree, start: seq<Tree>, cells: seq<Cell>, partition: Partition, base: nat, i: nat,
                   kids: seq<Tree>, used: nat)
    requires parent.Dir? && SameHeights(start, parent.children) && i < |cells|
    requires Place(parent, start, cells[..i], partition, base) == Placed(kids, None, used) && cells[i].site >= |kids|
    ensures Place(parent, start, cells[..i + 1], partition, base) == Placed(kids, None, used)
  {
    assert cells[..i + 1] == cells[..i] + [cells[i]];
    PlaceSnoc(parent, start, cells[..i], cells[i], partition, base, kids, used, base + used);
  }

  /** Once the loop has run out of polygons or stopped on a failure, it is done. */
  lemma {:induction false} PrefixFinal(parent: Tree, start: seq<Tree>, cells: seq<Cell>, partition: Partition, base: nat, i: nat, last: Placed)
    requires parent.Dir? && SameHeights(start, parent.children) && i <= |cells|
    requires Place(parent, start, cells[..i], partition, base) == last
    requires i == |cells| || last.failure.Some?
    ensures Place(parent, start, cells, partition, base) == last
    decreases |cells| - i
  {
    if i == |cells| {
      assert cells[..i] == cells;
    } else {
      assert cells[..i + 1] == cells[..i] + [cells[i]];
      PlaceSnocFailed(parent, start, cells[..i], cells[i], partition, base);
      PrefixFinal(parent, start, cells, partition, base, i + 1, last);
    }
  }

  /** One unfolding of `PlaceOne` for a site that names a child. */
  lemma PlaceOneStep(parent: Tree, kids: seq<Tree>, c: Cell, partition: Partition, base: nat)
    requires parent.Dir? && SameHeights(kids, parent.children) && c.site < |kids|
    ensures var o := LaidOut(kids[c.site], c.polygon, Point(c.x, c.y), partition, base);
      PlaceOne(parent, kids, c, partition, base) == Placed(kids[c.site := o.tree], o.failure, o.runs)
  {
  }
}
