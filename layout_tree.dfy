/**
 * The code tree of layout.js: weight aggregation (`calculate_values`) and pruning of
 * weightless nodes (`pruneWeightlessNodes`).
 *
 * The script keeps the tree as plain mutable objects and writes `value`, `children` and
 * `layout` into them in place. `Node` is that object; `Tree` is the value such an object
 * graph stands for (`Node.Snap`). Each in-place pass is a method proved against a function
 * on `Tree`, and the properties of the pass are lemmas about that function.
 */
module LayoutTree {
  import opened Wrappers
  import opened Flare

  /** The `layout` record that `calculateVoronoi` writes into a node. */
  datatype NodeLayout = NodeLayout(polygon: Polygon, center: Point, algorithm: string)

  /** A node of the tree: a leaf has no `children` property, a directory has an array. */
  datatype Tree =
    | Leaf(name: string, data: Option<Payload>, value: int, layout: Option<NodeLayout>)
    | Dir(name: string, children: seq<Tree>, data: Option<Payload>, value: int, layout: Option<NodeLayout>)

  // ---------------------------------------------------------------------------------------
  // Aggregation

  /** `children.map((n) => n.value).reduce((a, b) => a + b, 0)`. */
  function SumValues(ts: seq<Tree>): int
  {
    if ts == [] then 0 else SumValues(ts[..|ts| - 1]) + ts[|ts| - 1].value
  }

  /** The tree after `calculate_values`: every value recomputed bottom-up. */
  function Aggregated(t: Tree): Tree
  {
    match t
    case Leaf(_, data, _, _) => t.(value := FlareWeightLoc(data))
    case Dir(_, cs, _, _, _) =>
      var rs := seq(|cs|, i requires 0 <= i < |cs| => Aggregated(cs[i]));
      t.(children := rs, value := SumValues(rs))
  }

  /** Every leaf holds its own weight and every directory the sum of its children's values. */
  ghost predicate IsAggregated(t: Tree)
  {
    match t
    case Leaf(_, data, value, _) => value == FlareWeightLoc(data)
    case Dir(_, cs, _, value, _) =>
      value == SumValues(cs) && forall i :: 0 <= i < |cs| ==> IsAggregated(cs[i])
  }

  /** The tree with every value set to 0: what is left when values are ignored. */
  function WithoutValues(t: Tree): Tree
  {
    match t
    case Leaf(_, _, _, _) => t.(value := 0)
    case Dir(_, cs, _, _, _) =>
      t.(children := seq(|cs|, i requires 0 <= i < |cs| => WithoutValues(cs[i])), value := 0)
  }

  lemma {:induction false} AggregatedIsAggregated(t: Tree)
    ensures IsAggregated(Aggregated(t))
    ensures t.Dir? && t.children == [] ==> Aggregated(t).value == 0
  {
    if t.Dir? {
      forall i | 0 <= i < |t.children| ensures IsAggregated(Aggregated(t).children[i]) {
        AggregatedIsAggregated(t.children[i]);
      }
    }
  }

  lemma {:induction false} AggregatedKeepsShape(t: Tree)
    ensures WithoutValues(Aggregated(t)) == WithoutValues(t)
  {
    if t.Dir? {
      forall i | 0 <= i < |t.children|
        ensures WithoutValues(Aggregated(t).children[i]) == WithoutValues(t.children[i])
      {
        AggregatedKeepsShape(t.children[i]);
      }
    }
  }

  /**
   * Aggregation has exactly one possible outcome: any aggregated tree that differs from t
   * only in its values is Aggregated(t).
   */
  lemma {:induction false} AggregatedUnique(t: Tree, u: Tree)
    requires IsAggregated(u) && WithoutValues(u) == WithoutValues(t)
    ensures u == Aggregated(t)
  {
    match t
    case Leaf(_, _, _, _) =>
    case Dir(_, cs, _, _, _) =>
      var us := u.children;
      assert |us| == |cs| by { assert |WithoutValues(u).children| == |WithoutValues(t).children|; }
      forall i | 0 <= i < |cs| ensures us[i] == Aggregated(cs[i]) {
        assert WithoutValues(u).children[i] == WithoutValues(t).children[i];
        AggregatedUnique(cs[i], us[i]);
      }
      assert us == Aggregated(t).children;
  }

  /** A tree is its own aggregate exactly when it is aggregated; so aggregation is idempotent. */
  lemma AggregatedFixpoint(t: Tree)
    ensures IsAggregated(t) <==> Aggregated(t) == t
    ensures Aggregated(Aggregated(t)) == Aggregated(t)
  {
    AggregatedIsAggregated(t);
    if IsAggregated(t) { AggregatedUnique(t, t); }
    AggregatedIsAggregated(Aggregated(t));
    AggregatedKeepsShape(t);
    AggregatedKeepsShape(Aggregated(t));
    AggregatedUnique(Aggregated(t), Aggregated(t));
  }

  // ---------------------------------------------------------------------------------------
  // Pruning

  function ValuesOf(ts: seq<Tree>): (vs: seq<int>)
    ensures |vs| == |ts| && forall i :: 0 <= i < |ts| ==> vs[i] == ts[i].value
  {
    seq(|ts|, i requires 0 <= i < |ts| => ts[i].value)
  }

  /**
   * The positions, in increasing order, of the values that are greater than 0: which
   * elements `filter((node) => node.value > 0)` keeps.
   */
  function PositiveAt(vals: seq<int>): (p: seq<nat>)
    ensures forall m :: 0 <= m < |p| ==> p[m] < |vals|
  {
    if vals == [] then []
    else PositiveAt(vals[..|vals| - 1]) + (if vals[|vals| - 1] > 0 then [|vals| - 1] else [])
  }

  /** The positions are increasing and are exactly those of the values greater than 0. */
  lemma {:induction false} PositiveAtExactly(vals: seq<int>)
    ensures var p := PositiveAt(vals);
      (forall m, m' :: 0 <= m < m' < |p| ==> p[m] < p[m']) &&
      (forall i :: 0 <= i < |vals| ==> (vals[i] > 0 <==> i in p))
  {
    if vals != [] {
      PositiveAtExactly(vals[..|vals| - 1]);
    }
  }

  lemma PositiveAtIncreasing(vals: seq<int>, p: seq<nat>)
    requires p == PositiveAt(vals)
    ensures forall m, m' :: 0 <= m < m' < |p| ==> p[m] < p[m']
  {
    PositiveAtExactly(vals);
  }

  /** The tree after `pruneWeightlessNodes`. */
  function Pruned(t: Tree): Tree
  {
    match t
    case Leaf(_, _, _, _) => t
    case Dir(_, cs, _, _, _) =>
      var p := PositiveAt(ValuesOf(cs));
      t.(children := seq(|p|, m requires 0 <= m < |p| => Pruned(cs[p[m]])))
  }

  /** Every node below the root has a value greater than 0. */
  ghost predicate PositiveBelow(t: Tree)
  {
    t.Dir? ==> forall i :: 0 <= i < |t.children| ==> t.children[i].value > 0 && PositiveBelow(t.children[i])
  }

  /** Every leaf weight is at least 0. */
  ghost predicate NonNegativeLeaves(t: Tree)
  {
    match t
    case Leaf(_, data, _, _) => FlareWeightLoc(data) >= 0
    case Dir(_, cs, _, _, _) => forall i :: 0 <= i < |cs| ==> NonNegativeLeaves(cs[i])
  }

  /**
   * Pruning changes nothing but the children arrays: leaves come back unchanged, and a
   * directory keeps exactly the children with value > 0, in their original order, each
   * pruned in turn; the node's own fields stay as they were.
   */
  lemma PrunedChildren(t: Tree)
    ensures t.Leaf? ==> Pruned(t) == t
    ensures Pruned(t).Dir? == t.Dir? && Pruned(t).name == t.name && Pruned(t).data == t.data
    ensures Pruned(t).value == t.value && Pruned(t).layout == t.layout
    ensures t.Dir? ==>
      var p := PositiveAt(ValuesOf(t.children));
      |Pruned(t).children| == |p| &&
      (forall m :: 0 <= m < |p| ==> Pruned(t).children[m] == Pruned(t.children[p[m]])) &&
      (forall i :: 0 <= i < |t.children| ==> (t.children[i].value > 0 <==> i in p))
  {
    if t.Dir? {
      PositiveAtExactly(ValuesOf(t.children));
    }
  }

  lemma {:induction false} PrunedIsPositive(t: Tree)
    ensures PositiveBelow(Pruned(t))
  {
    if t.Dir? {
      var p := PositiveAt(ValuesOf(t.children));
      PositiveAtExactly(ValuesOf(t.children));
      forall m | 0 <= m < |p|
        ensures Pruned(t).children[m].value > 0 && PositiveBelow(Pruned(t).children[m])
      {
        assert p[m] in p;
        PrunedChildren(t.children[p[m]]);
        PrunedIsPositive(t.children[p[m]]);
      }
    }
  }

  lemma {:induction false} PrunedIdempotent(t: Tree)
    ensures Pruned(Pruned(t)) == Pruned(t)
  {
    if t.Dir? {
      var u := Pruned(t);
      PrunedIsPositive(t);
      var q := PositiveAt(ValuesOf(u.children));
      assert q == seq(|u.children|, m => m) by {
        PositiveAllAt(ValuesOf(u.children), q);
      }
      forall m | 0 <= m < |u.children| ensures Pruned(u.children[m]) == u.children[m] {
        var p := PositiveAt(ValuesOf(t.children));
        PrunedIdempotent(t.children[p[m]]);
      }
    }
  }

  /** When every value is positive, the filter keeps every position. */
  lemma {:induction false} PositiveAllAt(vals: seq<int>, q: seq<nat>)
    requires forall i :: 0 <= i < |vals| ==> vals[i] > 0
    requires q == PositiveAt(vals)
    ensures q == seq(|vals|, m => m)
  {
    if vals != [] {
      PositiveAllAt(vals[..|vals| - 1], PositiveAt(vals[..|vals| - 1]));
    }
  }

  /** With non-negative leaf weights, nonneg values stay nonneg under aggregation. */
  lemma {:induction false} AggregatedNonNegative(t: Tree)
    requires IsAggregated(t) && NonNegativeLeaves(t)
    ensures t.value >= 0
  {
    if t.Dir? {
      forall i | 0 <= i < |t.children| ensures t.children[i].value >= 0 {
        AggregatedNonNegative(t.children[i]);
      }
      SumNonNegative(t.children);
    }
  }

  lemma {:induction false} SumNonNegative(ts: seq<Tree>)
    requires forall i :: 0 <= i < |ts| ==> ts[i].value >= 0
    ensures SumValues(ts) >= 0
  {
    if ts != [] { SumNonNegative(ts[..|ts| - 1]); }
  }

  /** The elements of ts at the positions p, in the order of p. */
  function Pick<T>(ts: seq<T>, p: seq<nat>): (r: seq<T>)
    requires forall m :: 0 <= m < |p| ==> p[m] < |ts|
    ensures |r| == |p| && forall m :: 0 <= m < |p| ==> r[m] == ts[p[m]]
  {
    seq(|p|, m requires 0 <= m < |p| => ts[p[m]])
  }

  /** Filtering a sequence with one more element: the filtered prefix, and the last if kept. */
  lemma PickPositiveSnoc(ts: seq<Tree>)
    requires ts != []
    ensures var n := |ts| - 1;
      Pick(ts, PositiveAt(ValuesOf(ts)))
        == Pick(ts[..n], PositiveAt(ValuesOf(ts[..n]))) + (if ts[n].value > 0 then [ts[n]] else [])
  {
    var n := |ts| - 1;
    assert ValuesOf(ts[..n]) == ValuesOf(ts)[..n];
  }

  lemma SumSnoc(ts: seq<Tree>, t: Tree)
    ensures SumValues(ts + [t]) == SumValues(ts) + t.value
  {
    assert (ts + [t])[..|ts|] == ts;
  }

  /** Dropping children whose value is 0 does not change a sum of non-negative values. */
  lemma {:induction false} SumOfPositive(ts: seq<Tree>)
    requires forall i :: 0 <= i < |ts| ==> ts[i].value >= 0
    ensures SumValues(Pick(ts, PositiveAt(ValuesOf(ts)))) == SumValues(ts)
  {
    if ts != [] {
      var n := |ts| - 1;
      var a := Pick(ts[..n], PositiveAt(ValuesOf(ts[..n])));
      var b := Pick(ts, PositiveAt(ValuesOf(ts)));
      SumOfPositive(ts[..n]);
      assert SumValues(a) == SumValues(ts[..n]);
      PickPositiveSnoc(ts);
      assert SumValues(ts) == SumValues(ts[..n]) + ts[n].value;
      if ts[n].value > 0 {
        assert b == a + [ts[n]];
        SumSnoc(a, ts[n]);
      } else {
        assert b == a + [];
        assert b == a;
      }
    }
  }

  /**
   * Pruning an aggregated tree whose leaf weights are non-negative leaves it aggregated:
   * the removed children all weigh 0.
   */
  lemma {:induction false} PrunedKeepsAggregation(t: Tree)
    requires IsAggregated(t) && NonNegativeLeaves(t)
    ensures IsAggregated(Pruned(t))
  {
    if t.Dir? {
      var cs := t.children;
      var p := PositiveAt(ValuesOf(cs));
      var u := Pruned(t);
      forall i | 0 <= i < |cs| ensures cs[i].value >= 0 {
        AggregatedNonNegative(cs[i]);
      }
      forall m | 0 <= m < |p| ensures IsAggregated(u.children[m]) && u.children[m].value == cs[p[m]].value {
        PrunedKeepsAggregation(cs[p[m]]);
        PrunedChildren(cs[p[m]]);
      }
      SumOfPositive(cs);
      assert ValuesOf(u.children) == ValuesOf(Pick(cs, p));
      SumSameValues(u.children, Pick(cs, p));
    }
  }

  lemma {:induction false} SumSameValues(ts: seq<Tree>, us: seq<Tree>)
    requires ValuesOf(ts) == ValuesOf(us)
    ensures SumValues(ts) == SumValues(us)
  {
    if ts != [] {
      assert ValuesOf(ts[..|ts| - 1]) == ValuesOf(us[..|us| - 1]);
      SumSameValues(ts[..|ts| - 1], us[..|us| - 1]);
    }
  }

  // ---------------------------------------------------------------------------------------
  // The tree as mutable objects

  /**
   * A node object of the parsed document. `name` and `data` are never written; `value`,
   * `children` and `layout` are written in place. `Repr` is the set of objects of the
   * subtree; the subtrees of distinct children share no object.
   */
  class Node {
    const name: string
    const data: Option<Payload>
    var value: int
    var children: Option<seq<Node>>
    var layout: Option<NodeLayout>
    ghost var Repr: set<object>

    ghost predicate Valid()
      reads this`Repr, this`children, Repr - {this}
      decreases Repr
    {
      this in Repr &&
      (children.Some? ==>
        (forall i :: 0 <= i < |children.value| ==>
          children.value[i] in Repr && children.value[i].Repr <= Repr &&
          this !in children.value[i].Repr && children.value[i].Valid()) &&
        (forall i, j :: 0 <= i < j < |children.value| ==>
          children.value[i].Repr !! children.value[j].Repr))
    }

    /** The tree this object graph stands for. */
    ghost function Snap(): Tree
      reads this, Repr
      requires Valid()
      decreases Repr, 1
    {
      match children
      case None => Leaf(name, data, value, layout)
      case Some(cs) => Dir(name, KidSnaps(|cs|), data, value, layout)
    }

    /** The trees of the first n children. */
    ghost function KidSnaps(n: nat): (r: seq<Tree>)
      reads this, Repr
      requires Valid() && children.Some? && n <= |children.value|
      ensures |r| == n
      ensures forall k :: 0 <= k < n ==> r[k] == children.value[k].Snap()
      decreases Repr, 0, n
    {
      if n == 0 then [] else KidSnaps(n - 1) + [children.value[n - 1].Snap()]
    }
  }

  /** `flareWeightLoc` applied to a node object. */
  function NodeWeight(d: Node): int
  {
    FlareWeightLoc(d.data)
  }

  /** `children.map((n) => n.value).reduce((a, b) => a + b, 0)` on node objects. */
  function SumOf(cs: seq<Node>): int
    reads cs
  {
    if cs == [] then 0 else SumOf(cs[..|cs| - 1]) + cs[|cs| - 1].value
  }

  lemma {:induction false} SumOfSnaps(cs: seq<Node>, ts: seq<Tree>)
    requires |cs| == |ts| && forall k :: 0 <= k < |cs| ==> ts[k].value == cs[k].value
    ensures SumOf(cs) == SumValues(ts)
  {
    if cs != [] { SumOfSnaps(cs[..|cs| - 1], ts[..|ts| - 1]); }
  }

  function NodeValues(cs: seq<Node>): (vs: seq<int>)
    reads cs
    ensures |vs| == |cs| && forall i :: 0 <= i < |cs| ==> vs[i] == cs[i].value
  {
    seq(|cs|, i requires 0 <= i < |cs| reads cs => cs[i].value)
  }

  /** `children.filter((node) => node.value > 0)` on node objects. */
  function KeepPositive(cs: seq<Node>): seq<Node>
    reads cs
  {
    Pick(cs, PositiveAt(NodeValues(cs)))
  }

  /** `calculate_values(node)` (layout.js): writes `value` into every node of the subtree. */
  method CalculateValues(node: Node)
    requires node.Valid()
    modifies node.Repr
    ensures node.Valid() && node.Repr == old(node.Repr) && node.children == old(node.children)
    ensures node.Snap() == Aggregated(old(node.Snap()))
    decreases node.Repr, 2
  {
    if node.children.Some? {
      var cs := node.children.value;
      ghost var before := node.KidSnaps(|cs|);
      CalculateChildValues(node);
      var tot := SumOf(cs);
      ghost var rs := seq(|cs|, k requires 0 <= k < |cs| => Aggregated(before[k]));
      assert node.KidSnaps(|cs|) == rs;
      SumOfSnaps(cs, rs);
      SetValue(node, tot);
    } else {
      node.value := NodeWeight(node);
    }
  }

  /** `node.value = tot`: the children's subtrees do not hold the node, so they stay as they were. */
  method SetValue(node: Node, tot: int)
    requires node.Valid() && node.children.Some?
    modifies node`value
    ensures node.Valid() && node.value == tot
    ensures node.KidSnaps(|node.children.value|) == old(node.KidSnaps(|node.children.value|))
  {
    node.value := tot;
  }

  /** The `for (const n of node.children) calculate_values(n)` loop. */
  method CalculateChildValues(node: Node)
    requires node.Valid() && node.children.Some?
    modifies node.Repr
    ensures node.Valid() && node.Repr == old(node.Repr) && node.children == old(node.children)
    ensures node.value == old(node.value) && node.layout == old(node.layout)
    ensures forall k :: 0 <= k < |node.children.value| ==>
      node.children.value[k].Snap() == Aggregated(old(node.KidSnaps(|node.children.value|))[k])
    decreases node.Repr, 1
  {
    var cs := node.children.value;
    ghost var before := node.KidSnaps(|cs|);
    var i := 0;
    while i < |cs|
      invariant 0 <= i <= |cs|
      invariant node.Valid() && node.Repr == old(node.Repr) && node.children == Some(cs)
      invariant node.value == old(node.value) && node.layout == old(node.layout)
      invariant forall k :: 0 <= k < i ==> cs[k].Snap() == Aggregated(before[k])
      invariant forall k :: i <= k < |cs| ==> cs[k].Snap() == before[k]
    {
      CalculateChildValue(node, i);
      i := i + 1;
    }
  }

  /** One pass of that loop: `calculate_values` on child i, which leaves its siblings alone. */
  method CalculateChildValue(node: Node, i: nat)
    requires node.Valid() && node.children.Some? && i < |node.children.value|
    modifies node.children.value[i].Repr
    ensures node.Valid() && node.Repr == old(node.Repr) && node.children == old(node.children)
    ensures node.children.value[i].Snap() == Aggregated(old(node.children.value[i].Snap()))
    ensures forall k :: 0 <= k < |node.children.value| && k != i ==>
      node.children.value[k].Snap() == old(node.children.value[k].Snap())
    decreases node.Repr, 0
  {
    var cs := node.children.value;
    CalculateValues(cs[i]);
    assert forall k :: 0 <= k < |cs| && k != i ==> cs[k].Repr !! cs[i].Repr;
  }

  /**
   * `pruneWeightlessNodes(hierarchy)` (layout.js): replaces every `children` array of the
   * subtree by its elements with value > 0.
   */
  method PruneWeightlessNodes(hierarchy: Node)
    requires hierarchy.Valid()
    modifies hierarchy.Repr
    ensures hierarchy.Valid() && hierarchy.Repr == old(hierarchy.Repr)
    ensures hierarchy.Snap() == Pruned(old(hierarchy.Snap()))
    decreases hierarchy.Repr, 2
  {
    if hierarchy.children.Some? {
      ghost var before := hierarchy.Snap();
      ghost var snaps := hierarchy.KidSnaps(|hierarchy.children.value|);
      assert before.children == snaps;
      KeepWeightedChildren(hierarchy);
      var kept := hierarchy.children.value;
      PruneChildren(hierarchy);
      PrunedDir(before, hierarchy.KidSnaps(|kept|));
      assert hierarchy.Snap() == before.(children := hierarchy.KidSnaps(|kept|));
    }
  }

  /** A directory prunes to itself with each kept child pruned in its place. */
  lemma PrunedDir(t: Tree, after: seq<Tree>)
    requires t.Dir?
    requires var kept := Pick(t.children, PositiveAt(ValuesOf(t.children)));
      |after| == |kept| && forall m :: 0 <= m < |kept| ==> after[m] == Pruned(kept[m])
    ensures Pruned(t) == t.(children := after)
  {
  }

  /** The children that the filter keeps have pairwise disjoint footprints, as all children do. */
  lemma KeptApart(cs: seq<Node>, vals: seq<int>, p: seq<nat>)
    requires |vals| == |cs| && p == PositiveAt(vals)
    requires forall i, j :: 0 <= i < j < |cs| ==> cs[i].Repr !! cs[j].Repr
    ensures forall m, m' :: 0 <= m < m' < |p| ==> cs[p[m]].Repr !! cs[p[m']].Repr
  {
    PositiveAtIncreasing(vals, p);
  }

  /** `hierarchy.children = hierarchy.children.filter((node) => node.value > 0)`. */
  method KeepWeightedChildren(hierarchy: Node)
    requires hierarchy.Valid() && hierarchy.children.Some?
    modifies hierarchy`children
    ensures hierarchy.Valid() && hierarchy.children.Some?
    ensures hierarchy.children.value == KeepPositive(old(hierarchy.children.value))
    ensures var before := old(hierarchy.KidSnaps(|hierarchy.children.value|));
      hierarchy.KidSnaps(|hierarchy.children.value|) == Pick(before, PositiveAt(ValuesOf(before)))
  {
    var cs := hierarchy.children.value;
    ghost var snaps := hierarchy.KidSnaps(|cs|);
    ghost var p := PositiveAt(NodeValues(cs));
    assert ValuesOf(snaps) == NodeValues(cs);
    var kept := KeepPositive(cs);
    KeptApart(cs, NodeValues(cs), p);
    assert forall m :: 0 <= m < |kept| ==> kept[m] == cs[p[m]] && kept[m].Snap() == snaps[p[m]];
    SetChildren(hierarchy, kept);
    assert hierarchy.KidSnaps(|kept|) == Pick(snaps, p);
  }

  /** `node.children = kept`, for children that belong to the node and share no object. */
  method SetChildren(node: Node, kept: seq<Node>)
    requires node in node.Repr
    requires forall m :: 0 <= m < |kept| ==>
      kept[m] in node.Repr && kept[m].Repr <= node.Repr && node !in kept[m].Repr && kept[m].Valid()
    requires forall m, m' :: 0 <= m < m' < |kept| ==> kept[m].Repr !! kept[m'].Repr
    modifies node`children
    ensures node.Valid() && node.children == Some(kept)
    ensures forall m :: 0 <= m < |kept| ==> node.KidSnaps(|kept|)[m] == old(kept[m].Snap())
  {
    node.children := Some(kept);
  }

  /** The `hierarchy.children.forEach((child) => pruneWeightlessNodes(child))` loop. */
  method PruneChildren(node: Node)
    requires node.Valid() && node.children.Some?
    modifies node.Repr
    ensures node.Valid() && node.Repr == old(node.Repr) && node.children == old(node.children)
    ensures node.value == old(node.value) && node.layout == old(node.layout)
    ensures forall k :: 0 <= k < |node.children.value| ==>
      node.children.value[k].Snap() == Pruned(old(node.KidSnaps(|node.children.value|))[k])
    decreases node.Repr, 1
  {
    var cs := node.children.value;
    ghost var before := node.KidSnaps(|cs|);
    var i := 0;
    while i < |cs|
      invariant 0 <= i <= |cs|
      invariant node.Valid() && node.Repr == old(node.Repr) && node.children == Some(cs)
      invariant node.value == old(node.value) && node.layout == old(node.layout)
      invariant forall k :: 0 <= k < i ==> cs[k].Snap() == Pruned(before[k])
      invariant forall k :: i <= k < |cs| ==> cs[k].Snap() == before[k]
    {
      PruneChild(node, i);
      i := i + 1;
    }
  }

  /** One pass of that loop: `pruneWeightlessNodes` on child i, which leaves its siblings alone. */
  method PruneChild(node: Node, i: nat)
    requires node.Valid() && node.children.Some? && i < |node.children.value|
    modifies node.children.value[i].Repr
    ensures node.Valid() && node.Repr == old(node.Repr) && node.children == old(node.children)
    ensures node.children.value[i].Snap() == Pruned(old(node.children.value[i].Snap()))
    ensures forall k :: 0 <= k < |node.children.value| && k != i ==>
      node.children.value[k].Snap() == old(node.children.value[k].Snap())
    decreases node.Repr, 0
  {
    var cs := node.children.value;
    PruneWeightlessNodes(cs[i]);
    assert forall k :: 0 <= k < |cs| && k != i ==> cs[k].Repr !! cs[i].Repr;
  }
}
