/**
 * offline-voronoi.js: the script that lets d3-voronoi-treemap lay out a whole tree at once.
 * It wraps the document in a d3 hierarchy, prunes weightless nodes from it in place
 * (`pruneWeightlessNodes`, the same code as in layout.js, here on hierarchy nodes) and
 * unwraps the laid-out hierarchy into plain records (`deHierarchify`). The weight it sums
 * is `Flare.FlareWeightLoc`, the same rule as in layout.js.
 */
module OfflineVoronoi {
  import opened Wrappers
  import opened Flare
  import opened LayoutTree

  /** What a hierarchy node keeps of its document node in `node.data`: the name and the payload. */
  datatype Datum = Datum(name: string, data: Option<Payload>)

  /** A d3 hierarchy node: its datum, the summed `value` and the `polygon` the treemap gives it. */
  datatype Hierarchy =
    | HLeaf(datum: Datum, value: int, polygon: Option<Polygon>)
    | HDir(datum: Datum, children: seq<Hierarchy>, value: int, polygon: Option<Polygon>)

  /** A node of the saved result. */
  datatype Record =
    | RLeaf(name: string, polygon: Option<Polygon>, value: int, data: Option<Payload>)
    | RDir(name: string, children: seq<Record>, polygon: Option<Polygon>, value: int, data: Option<Payload>)

  // ---------------------------------------------------------------------------------------
  // Pruning

  function HValues(hs: seq<Hierarchy>): (vs: seq<int>)
    ensures |vs| == |hs| && forall i :: 0 <= i < |hs| ==> vs[i] == hs[i].value
  {
    seq(|hs|, i requires 0 <= i < |hs| => hs[i].value)
  }

  /** The hierarchy after `pruneWeightlessNodes`. */
  function HPruned(h: Hierarchy): Hierarchy
  {
    match h
    case HLeaf(_, _, _) => h
    case HDir(_, cs, _, _) =>
      var p := PositiveAt(HValues(cs));
      h.(children := seq(|p|, m requires 0 <= m < |p| => HPruned(cs[p[m]])))
  }

  /** Every node below the root has a value greater than 0. */
  ghost predicate HPositiveBelow(h: Hierarchy)
  {
    h.HDir? ==> forall i :: 0 <= i < |h.children| ==> h.children[i].value > 0 && HPositiveBelow(h.children[i])
  }

  /**
   * Pruning changes nothing but the children arrays: a leaf comes back unchanged, and a
   * directory keeps exactly the children with value > 0, in their original order, each
   * pruned in turn.
   */
  lemma HPrunedChildren(h: Hierarchy)
    ensures h.HLeaf? ==> HPruned(h) == h
    ensures HPruned(h).HDir? == h.HDir? && HPruned(h).datum == h.datum
    ensures HPruned(h).value == h.value && HPruned(h).polygon == h.polygon
    ensures h.HDir? ==>
      var p := PositiveAt(HValues(h.children));
      |HPruned(h).children| == |p| &&
      (forall m, m' :: 0 <= m < m' < |p| ==> p[m] < p[m']) &&
      (forall m :: 0 <= m < |p| ==> HPruned(h).children[m] == HPruned(h.children[p[m]])) &&
      (forall i :: 0 <= i < |h.children| ==> (h.children[i].value > 0 <==> i in p))
  {
    if h.HDir? {
      PositiveAtExactly(HValues(h.children));
    }
  }

  lemma {:induction false} HPrunedIsPositive(h: Hierarchy)
    ensures HPositiveBelow(HPruned(h))
  {
    if h.HDir? {
      var p := PositiveAt(HValues(h.children));
      PositiveAtExactly(HValues(h.children));
      forall m | 0 <= m < |p|
        ensures HPruned(h).children[m].value > 0 && HPositiveBelow(HPruned(h).children[m])
      {
        assert p[m] in p;
        HPrunedChildren(h.children[p[m]]);
        HPrunedIsPositive(h.children[p[m]]);
      }
    }
  }

  // ---------------------------------------------------------------------------------------
  // Unwrapping

  /** `deHierarchify(node)`: the record of a hierarchy node and of its subtree. */
  function DeHierarchify(h: Hierarchy): (r: Record)
    ensures r.RDir? <==> h.HDir?
  {
    match h
    case HLeaf(d, value, polygon) => RLeaf(d.name, polygon, value, d.data)
    case HDir(d, cs, value, polygon) =>
      RDir(d.name, seq(|cs|, i requires 0 <= i < |cs| => DeHierarchify(cs[i])), polygon, value, d.data)
  }

  /** The hierarchy a record was unwrapped from. */
  function Rewrap(r: Record): Hierarchy
  {
    match r
    case RLeaf(name, polygon, value, data) => HLeaf(Datum(name, data), value, polygon)
    case RDir(name, cs, polygon, value, data) =>
      HDir(Datum(name, data), seq(|cs|, i requires 0 <= i < |cs| => Rewrap(cs[i])), value, polygon)
  }

  /**
   * Unwrapping loses nothing: every name, payload, value and polygon is kept, in the same
   * shape and child order, so wrapping the record again gives back the hierarchy.
   */
  lemma {:induction false} RewrapDeHierarchify(h: Hierarchy)
    ensures Rewrap(DeHierarchify(h)) == h
  {
    if h.HDir? {
      var r := DeHierarchify(h);
      forall i | 0 <= i < |h.children| ensures Rewrap(r.children[i]) == h.children[i] {
        RewrapDeHierarchify(h.children[i]);
      }
    }
  }

  /** Every record is the unwrapping of the hierarchy it wraps back into. */
  lemma {:induction false} DeHierarchifyRewrap(r: Record)
    ensures DeHierarchify(Rewrap(r)) == r
  {
    if r.RDir? {
      var h := Rewrap(r);
      forall i | 0 <= i < |r.children| ensures DeHierarchify(h.children[i]) == r.children[i] {
        DeHierarchifyRewrap(r.children[i]);
      }
    }
  }

  /** Every record below the root has a value greater than 0. */
  ghost predicate RPositiveBelow(r: Record)
  {
    r.RDir? ==> forall i :: 0 <= i < |r.children| ==> r.children[i].value > 0 && RPositiveBelow(r.children[i])
  }

  lemma {:induction false} DeHierarchifyKeepsPositive(h: Hierarchy)
    requires HPositiveBelow(h)
    ensures RPositiveBelow(DeHierarchify(h))
  {
    if h.HDir? {
      forall i | 0 <= i < |h.children| ensures RPositiveBelow(DeHierarchify(h.children[i])) {
        DeHierarchifyKeepsPositive(h.children[i]);
      }
    }
  }

  /** The saved records of a pruned hierarchy hold no weightless node below the root. */
  lemma SavedTreeIsWeighted(h: Hierarchy)
    ensures RPositiveBelow(DeHierarchify(HPruned(h)))
  {
    HPrunedIsPositive(h);
    DeHierarchifyKeepsPositive(HPruned(h));
  }

  // ---------------------------------------------------------------------------------------
  // The hierarchy as mutable objects

  /**
   * A d3 hierarchy node object. `datum` is never written here; `children` is replaced by
   * the pruning pass; `value` and `polygon` are written by the d3 library.
   */
  class HierarchyNode {
    const datum: Datum
    var value: int
    var children: Option<seq<HierarchyNode>>
    var polygon: Option<Polygon>
    ghost var Repr: set<object>

    ghost predicate Valid()
      reads this`Repr, this`children, Repr - {this}
      decreases Repr
    {
      this in Repr &&
      (children.Some? ==>
        (forall i :: 0 <= i < |children.value| ==>
          children.value[i] in Repr && children.value[i].Repr <= Repr &&
          this !in children.value[i].Repr && children.value[i].Valid()) &&
        (forall i, j :: 0 <= i < j < |children.value| ==>
          children.value[i].Repr !! children.value[j].Repr))
    }

    /** The hierarchy this object graph stands for. */
    ghost function Snap(): Hierarchy
      reads this, Repr
      requires Valid()
      decreases Repr, 1
    {
      match children
      case None => HLeaf(datum, value, polygon)
      case Some(cs) => HDir(datum, KidSnaps(|cs|), value, polygon)
    }

    /** The hierarchies of the first n children. */
    ghost function KidSnaps(n: nat): (r: seq<Hierarchy>)
      reads this, Repr
      requires Valid() && children.Some? && n <= |children.value|
      ensures |r| == n
      ensures forall k :: 0 <= k < n ==> r[k] == children.value[k].Snap()
      decreases Repr, 0, n
    {
      if n == 0 then [] else KidSnaps(n - 1) + [children.value[n - 1].Snap()]
    }
  }

  function HNodeValues(cs: seq<HierarchyNode>): (vs: seq<int>)
    reads cs
    ensures |vs| == |cs| && forall i :: 0 <= i < |cs| ==> vs[i] == cs[i].value
  {
    seq(|cs|, i requires 0 <= i < |cs| reads cs => cs[i].value)
  }

  /** `pruneWeightlessNodes(hierarchy)` (offline-voronoi.js). */
  method PruneWeightlessNodes(hierarchy: HierarchyNode)
    requires hierarchy.Valid()
    modifies hierarchy.Repr
    ensures hierarchy.Valid() && hierarchy.Repr == old(hierarchy.Repr)
    ensures hierarchy.Snap() == HPruned(old(hierarchy.Snap()))
    decreases hierarchy.Repr, 2
  {
    if hierarchy.children.Some? {
      ghost var before := hierarchy.Snap();
      ghost var snaps := hierarchy.KidSnaps(|hierarchy.children.value|);
      assert before.children == snaps;
      KeepWeightedChildren(hierarchy);
      var kept := hierarchy.children.value;
      PruneChildren(hierarchy);
      HPrunedDir(before, hierarchy.KidSnaps(|kept|));
      assert hierarchy.Snap() == before.(children := hierarchy.KidSnaps(|kept|));
    }
  }

  /** A directory prunes to itself with each kept child pruned in its place. */
  lemma HPrunedDir(h: Hierarchy, after: seq<Hierarchy>)
    requires h.HDir?
    requires var kept := Pick(h.children, PositiveAt(HValues(h.children)));
      |after| == |kept| && forall m :: 0 <= m < |kept| ==> after[m] == HPruned(kept[m])
    ensures HPruned(h) == h.(children := after)
  {
  }

  /** The children that the filter keeps have pairwise disjoint footprints, as all children do. */
  lemma HKeptApart(cs: seq<HierarchyNode>, vals: seq<int>, p: seq<nat>)
    requires |vals| == |cs| && p == PositiveAt(vals)
    requires forall i, j :: 0 <= i < j < |cs| ==> cs[i].Repr !! cs[j].Repr
    ensures forall m, m' :: 0 <= m < m' < |p| ==> cs[p[m]].Repr !! cs[p[m']].Repr
  {
    PositiveAtIncreasing(vals, p);
  }

  /** `hierarchy.children = hierarchy.children.filter((node) => node.value > 0)`. */
  method KeepWeightedChildren(hierarchy: HierarchyNode)
    requires hierarchy.Valid() && hierarchy.children.Some?
    modifies hierarchy`children
    ensures hierarchy.Valid() && hierarchy.children.Some?
    ensures var before := old(hierarchy.children.value);
      hierarchy.children.value == Pick(before, PositiveAt(HNodeValues(before)))
    ensures var before := old(hierarchy.KidSnaps(|hierarchy.children.value|));
      hierarchy.KidSnaps(|hierarchy.children.value|) == Pick(before, PositiveAt(HValues(before)))
  {
    var cs := hierarchy.children.value;
    ghost var snaps := hierarchy.KidSnaps(|cs|);
    ghost var p := PositiveAt(HNodeValues(cs));
    assert HValues(snaps) == HNodeValues(cs);
    var kept := Pick(cs, PositiveAt(HNodeValues(cs)));
    HKeptApart(cs, HNodeValues(cs), p);
    assert forall m :: 0 <= m < |kept| ==> kept[m] == cs[p[m]] && kept[m].Snap() == snaps[p[m]];
    SetHierarchyChildren(hierarchy, kept);
    assert hierarchy.KidSnaps(|kept|) == Pick(snaps, p);
  }

  /** `hierarchy.children = kept`, for children that belong to the node and share no object. */
  method SetHierarchyChildren(node: HierarchyNode, kept: seq<HierarchyNode>)
    requires node in node.Repr
    requires forall m :: 0 <= m < |kept| ==>
      kept[m] in node.Repr && kept[m].Repr <= node.Repr && node !in kept[m].Repr && kept[m].Valid()
    requires forall m, m' :: 0 <= m < m' < |kept| ==> kept[m].Repr !! kept[m'].Repr
    modifies node`children
    ensures node.Valid() && node.children == Some(kept)
    ensures forall m :: 0 <= m < |kept| ==> node.KidSnaps(|kept|)[m] == old(kept[m].Snap())
  {
    node.children := Some(kept);
  }

  /** The `hierarchy.children.forEach((child) => pruneWeightlessNodes(child))` loop. */
  method PruneChildren(node: HierarchyNode)
    requires node.Valid() && node.children.Some?
    modifies node.Repr
    ensures node.Valid() && node.Repr == old(node.Repr) && node.children == old(node.children)
    ensures node.value == old(node.value) && node.polygon == old(node.polygon)
    ensures forall k :: 0 <= k < |node.children.value| ==>
      node.children.value[k].Snap() == HPruned(old(node.KidSnaps(|node.children.value|))[k])
    decreases node.Repr, 1
  {
    var cs := node.children.value;
    ghost var before := node.KidSnaps(|cs|);
    var i := 0;
    while i < |cs|
      invariant 0 <= i <= |cs|
      invariant node.Valid() && node.Repr == old(node.Repr) && node.children == Some(cs)
      invariant node.value == old(node.value) && node.polygon == old(node.polygon)
      invariant forall k :: 0 <= k < i ==> cs[k].Snap() == HPruned(before[k])
      invariant forall k :: i <= k < |cs| ==> cs[k].Snap() == before[k]
    {
      PruneChild(node, i);
      i := i + 1;
    }
  }

  /** One pass of that loop: `pruneWeightlessNodes` on child i, which leaves its siblings alone. */
  method PruneChild(node: HierarchyNode, i: nat)
    requires node.Valid() && node.children.Some? && i < |node.children.value|
    modifies node.children.value[i].Repr
    ensures node.Valid() && node.Repr == old(node.Repr) && node.children == old(node.children)
    ensures node.children.value[i].Snap() == HPruned(old(node.children.value[i].Snap()))
    ensures forall k :: 0 <= k < |node.children.value| && k != i ==>
      node.children.value[k].Snap() == old(node.children.value[k].Snap())
    decreases node.Repr, 0
  {
    var cs := node.children.value;
    PruneWeightlessNodes(cs[i]);
    assert forall k :: 0 <= k < |cs| && k != i ==> cs[k].Repr !! cs[i].Repr;
  }
}
