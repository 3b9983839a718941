/**
 * `addPaths` of layout.js: the last pass before the tree is saved copies every node and
 * gives it a `path`, the names from just below the root down to the node joined with "/".
 * The root's path is the empty string.
 */
module LayoutPaths {
  import opened Wrappers
  import opened Flare
  import opened LayoutTree

  /** A node as it is saved: the fields of `Tree` plus its path. */
  datatype PathTree =
    | PLeaf(name: string, path: string, data: Option<Payload>, value: int, layout: Option<NodeLayout>)
    | PDir(name: string, path: string, children: seq<PathTree>, data: Option<Payload>, value: int, layout: Option<NodeLayout>)

  /** The path of a node named `name` below a parent whose path is `pathSoFar` (None above the root). */
  function PathOf(pathSoFar: Option<string>, name: string): string
  {
    match pathSoFar
    case None => ""
    case Some(p) => if p == "" then name else p + "/" + name
  }

  /** The copy of `t` with paths, below a parent whose path is `pathSoFar`. */
  function AddPaths(pathSoFar: Option<string>, t: Tree): (r: PathTree)
    ensures r.path == PathOf(pathSoFar, t.name)
    ensures r.PDir? <==> t.Dir?
    ensures r.PDir? ==> |r.children| == |t.children|
    decreases t
  {
    var path := PathOf(pathSoFar, t.name);
    match t
    case Leaf(name, data, value, layout) => PLeaf(name, path, data, value, layout)
    case Dir(name, cs, data, value, layout) =>
      PDir(name, path, seq(|cs|, i requires 0 <= i < |cs| => AddPaths(Some(path), cs[i])), data, value, layout)
  }

  /** The tree with its paths dropped. */
  function StripPaths(r: PathTree): Tree
  {
    match r
    case PLeaf(name, _, data, value, layout) => Leaf(name, data, value, layout)
    case PDir(name, _, cs, data, value, layout) =>
      Dir(name, seq(|cs|, i requires 0 <= i < |cs| => StripPaths(cs[i])), data, value, layout)
  }

  /** Adding paths changes nothing else: names, shape, order, data, values and layouts are kept. */
  lemma {:induction false} AddPathsKeepsTree(pathSoFar: Option<string>, t: Tree)
    ensures StripPaths(AddPaths(pathSoFar, t)) == t
    decreases t
  {
    if t.Dir? {
      var r := AddPaths(pathSoFar, t);
      forall i | 0 <= i < |t.children| ensures StripPaths(r.children[i]) == t.children[i] {
        AddPathsKeepsTree(Some(r.path), t.children[i]);
      }
    }
  }

  // ---------------------------------------------------------------------------------------
  // The path of a node, independently of the pass

  /** A route from a node down to one of its descendants: a child index per level. */
  ghost predicate IsRoute(t: Tree, route: seq<nat>)
  {
    route == [] || (t.Dir? && route[0] < |t.children| && IsRoute(t.children[route[0]], route[1..]))
  }

  /** The node that a route leads to. */
  function At(t: Tree, route: seq<nat>): Tree
    requires IsRoute(t, route)
  {
    if route == [] then t else At(t.children[route[0]], route[1..])
  }

  /** The node that a route leads to, in the tree with paths. */
  function PathAt(r: PathTree, route: seq<nat>): PathTree
  {
    if route == [] then r
    else if r.PDir? && route[0] < |r.children| then PathAt(r.children[route[0]], route[1..])
    else r
  }

  /** The names met from the node just below `t` down to the end of the route. */
  function NamesBelow(t: Tree, route: seq<nat>): (names: seq<string>)
    requires IsRoute(t, route)
    ensures |names| == |route|
  {
    if route == [] then [] else [t.children[route[0]].name] + NamesBelow(t.children[route[0]], route[1..])
  }

  /** Names joined with "/". */
  function JoinPath(names: seq<string>): string
  {
    if names == [] then ""
    else if |names| == 1 then names[0]
    else names[0] + "/" + JoinPath(names[1..])
  }

  /** The path the pass builds from a parent's path and the names below it, one level at a time. */
  function Extend(p: string, names: seq<string>): string
    decreases names
  {
    if names == [] then p else Extend(PathOf(Some(p), names[0]), names[1..])
  }

  /** The node a route leads to in the copy is the copy of the node it leads to in `t`. */
  lemma {:induction false} PathAtStep(pathSoFar: Option<string>, t: Tree, route: seq<nat>)
    requires IsRoute(t, route)
    ensures StripPaths(PathAt(AddPaths(pathSoFar, t), route)) == At(t, route)
    ensures route != [] ==>
      PathAt(AddPaths(pathSoFar, t), route) == PathAt(AddPaths(Some(PathOf(pathSoFar, t.name)), t.children[route[0]]), route[1..])
    decreases |route|
  {
    if route == [] {
      AddPathsKeepsTree(pathSoFar, t);
    } else {
      var k := route[0];
      var r := AddPaths(pathSoFar, t);
      assert r.children[k] == AddPaths(Some(r.path), t.children[k]);
      PathAtStep(Some(r.path), t.children[k], route[1..]);
    }
  }

  /** Below a parent with path p, a node's path is p extended by the names down to it. */
  lemma {:induction false} PathIsExtension(p: string, t: Tree, route: seq<nat>)
    requires IsRoute(t, route)
    ensures PathAt(AddPaths(Some(p), t), route).path == Extend(p, [t.name] + NamesBelow(t, route))
    decreases |route|
  {
    var names := [t.name] + NamesBelow(t, route);
    assert names[0] == t.name && names[1..] == NamesBelow(t, route);
    if route != [] {
      var k := route[0];
      var q := PathOf(Some(p), t.name);
      PathAtStep(Some(p), t, route);
      PathIsExtension(q, t.children[k], route[1..]);
    }
  }

  /** Extending "" by non-empty names is joining them; extending any other path puts a "/" in between. */
  lemma {:induction false} ExtendIsJoin(p: string, names: seq<string>)
    requires forall i :: 0 <= i < |names| ==> names[i] != ""
    ensures p == "" ==> Extend(p, names) == JoinPath(names)
    ensures p != "" && names != [] ==> Extend(p, names) == p + "/" + JoinPath(names)
    decreases |names|
  {
    if names != [] {
      var q := PathOf(Some(p), names[0]);
      assert q != "";
      ExtendIsJoin(q, names[1..]);
      if |names| > 1 {
        if p == "" {
          assert q + "/" + JoinPath(names[1..]) == JoinPath(names);
        } else {
          assert q + "/" + JoinPath(names[1..]) == p + "/" + (names[0] + "/" + JoinPath(names[1..]));
        }
      }
    }
  }

  /**
   * In the saved tree, the node at the end of a route has the empty path at the root and
   * otherwise the names from just below the root down to it, joined with "/", when no node on
   * the route has an empty name.
   */
  lemma PathIsJoinedNames(t: Tree, route: seq<nat>)
    requires IsRoute(t, route)
    requires forall i :: 0 <= i < |route| ==> NamesBelow(t, route)[i] != ""
    ensures PathAt(AddPaths(None, t), route).path == JoinPath(NamesBelow(t, route))
    ensures StripPaths(PathAt(AddPaths(None, t), route)) == At(t, route)
  {
    PathAtStep(None, t, route);
    if route != [] {
      var c := t.children[route[0]];
      PathIsExtension("", c, route[1..]);
      assert NamesBelow(t, route) == [c.name] + NamesBelow(c, route[1..]);
      ExtendIsJoin("", NamesBelow(t, route));
    }
  }

  /** The root `src` with a directory `main` holding `app.js`: "", "main", "main/app.js". */
  lemma PathsExample()
    ensures var leaf := Leaf("app.js", None, 3, None);
      var root := Dir("src", [Dir("main", [leaf], None, 3, None)], None, 3, None);
      var r := AddPaths(None, root);
      r.path == "" && r.children[0].path == "main" && r.children[0].children[0].path == "main/app.js"
  {
    var leaf := Leaf("app.js", None, 3, None);
    var main := Dir("main", [leaf], None, 3, None);
    var root := Dir("src", [main], None, 3, None);
    var r := AddPaths(None, root);
    assert r.children[0] == AddPaths(Some(""), main);
    assert r.children[0].children[0] == AddPaths(Some("main"), leaf);
  }
}
