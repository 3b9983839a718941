/**
 * repo_change_stats.js: per-year commit statistics of a repository subtree. A pre-order walk
 * over the code tree folds every `data.git.details` entry into a map from year to
 * `{commits, lines}`, which the script then prints in the map's key order.
 *
 * The year of a commit day comes from a date library; here it is the parameter `yearOf`.
 */
module RepoChangeStats {
  import opened Wrappers
  import opened Flare
  import opened LayoutTree

  /** The `{commits, lines}` record kept for one year. */
  datatype YearTotals = YearTotals(commits: int, lines: int)

  /** The entry of a year, or `{commits: 0, lines: 0}` when the year has none yet. */
  function Lookup(m: map<int, YearTotals>, year: int): YearTotals
  {
    if year in m then m[year] else YearTotals(0, 0)
  }

  /** The lines a detail touches: those added plus those deleted. */
  function Lines(d: Detail): int
  {
    d.linesAdded + d.linesDeleted
  }

  // ---------------------------------------------------------------------------------------
  // The fold, as functions

  /** The map after one pass of the `details.forEach` body. */
  function AddDetail(m: map<int, YearTotals>, d: Detail, yearOf: int -> int): map<int, YearTotals>
  {
    var year := yearOf(d.commitDay);
    var cur := Lookup(m, year);
    m[year := YearTotals(cur.commits + d.commits, cur.lines + Lines(d))]
  }

  /** The map after the whole `details.forEach`. */
  function AddDetails(m: map<int, YearTotals>, ds: seq<Detail>, yearOf: int -> int): map<int, YearTotals>
  {
    if ds == [] then m else AddDetail(AddDetails(m, ds[..|ds| - 1], yearOf), ds[|ds| - 1], yearOf)
  }

  /** The key order of a `Map` after `set(year, …)`: a year already present keeps its place. */
  function AddYear(years: seq<int>, year: int): seq<int>
  {
    if year in years then years else years + [year]
  }

  function AddYears(years: seq<int>, ds: seq<Detail>, yearOf: int -> int): seq<int>
  {
    if ds == [] then years else AddYear(AddYears(years, ds[..|ds| - 1], yearOf), yearOf(ds[|ds| - 1].commitDay))
  }

  // ---------------------------------------------------------------------------------------
  // What the fold computes, stated independently

  /** The details of one year, in their order. */
  function InYear(ds: seq<Detail>, year: int, yearOf: int -> int): (r: seq<Detail>)
    ensures forall k :: 0 <= k < |r| ==> yearOf(r[k].commitDay) == year
  {
    if ds == [] then []
    else InYear(ds[..|ds| - 1], year, yearOf) + (if yearOf(ds[|ds| - 1].commitDay) == year then [ds[|ds| - 1]] else [])
  }

  function SumCommits(ds: seq<Detail>): int
  {
    if ds == [] then 0 else SumCommits(ds[..|ds| - 1]) + ds[|ds| - 1].commits
  }

  function SumLines(ds: seq<Detail>): int
  {
    if ds == [] then 0 else SumLines(ds[..|ds| - 1]) + Lines(ds[|ds| - 1])
  }

  /** The years that occur among the details. */
  ghost function YearsOf(ds: seq<Detail>, yearOf: int -> int): set<int>
  {
    set k | 0 <= k < |ds| :: yearOf(ds[k].commitDay)
  }

  lemma SumsSnoc(ds: seq<Detail>, d: Detail)
    ensures SumCommits(ds + [d]) == SumCommits(ds) + d.commits
    ensures SumLines(ds + [d]) == SumLines(ds) + Lines(d)
  {
    assert (ds + [d])[..|ds|] == ds;
  }

  lemma YearsOfSnoc(ds: seq<Detail>, yearOf: int -> int)
    requires ds != []
    ensures YearsOf(ds, yearOf) == YearsOf(ds[..|ds| - 1], yearOf) + {yearOf(ds[|ds| - 1].commitDay)}
  {
    var n := |ds| - 1;
    forall y | y in YearsOf(ds, yearOf) ensures y in YearsOf(ds[..n], yearOf) + {yearOf(ds[n].commitDay)} {
      var k :| 0 <= k < |ds| && yearOf(ds[k].commitDay) == y;
      if k < n { assert ds[..n][k] == ds[k]; }
    }
    forall y | y in YearsOf(ds[..n], yearOf) ensures y in YearsOf(ds, yearOf) {
      var k :| 0 <= k < n && yearOf(ds[..n][k].commitDay) == y;
      assert ds[k] == ds[..n][k];
    }
  }

  /**
   * Each year's entry grows by the commits, and by the lines added and deleted, of exactly
   * that year's details; a year without an entry starts from zero.
   */
  lemma {:induction false} AddDetailsPerYear(m: map<int, YearTotals>, ds: seq<Detail>, yearOf: int -> int, year: int)
    ensures var mine := InYear(ds, year, yearOf);
      Lookup(AddDetails(m, ds, yearOf), year)
        == YearTotals(Lookup(m, year).commits + SumCommits(mine), Lookup(m, year).lines + SumLines(mine))
  {
    if ds != [] {
      var n := |ds| - 1;
      var d := ds[n];
      AddDetailsPerYear(m, ds[..n], yearOf, year);
      var before := InYear(ds[..n], year, yearOf);
      if yearOf(d.commitDay) == year {
        SumsSnoc(before, d);
      } else {
        assert InYear(ds, year, yearOf) == before + [];
        assert before + [] == before;
      }
    }
  }

  /**
   * The map gains an entry for every year of the details and for no other year; the entry
   * of a year that no detail has is left as it was.
   */
  lemma {:induction false} AddDetailsYears(m: map<int, YearTotals>, ds: seq<Detail>, yearOf: int -> int)
    ensures AddDetails(m, ds, yearOf).Keys == m.Keys + YearsOf(ds, yearOf)
    ensures forall y :: y in m && y !in YearsOf(ds, yearOf) ==> AddDetails(m, ds, yearOf)[y] == m[y]
  {
    if ds != [] {
      AddDetailsYears(m, ds[..|ds| - 1], yearOf);
      YearsOfSnoc(ds, yearOf);
    }
  }

  /** Folding two runs of details one after the other is folding their concatenation. */
  lemma {:induction false} AddDetailsAppend(m: map<int, YearTotals>, years: seq<int>, a: seq<Detail>, b: seq<Detail>, yearOf: int -> int)
    ensures AddDetails(m, a + b, yearOf) == AddDetails(AddDetails(m, a, yearOf), b, yearOf)
    ensures AddYears(years, a + b, yearOf) == AddYears(AddYears(years, a, yearOf), b, yearOf)
    decreases |b|
  {
    if b == [] {
      assert a + b == a;
    } else {
      var n := |b| - 1;
      assert (a + b)[..|a + b| - 1] == a + b[..n];
      AddDetailsAppend(m, years, a, b[..n], yearOf);
    }
  }

  // ---------------------------------------------------------------------------------------
  // Key order and the total over all years

  ghost predicate Distinct(years: seq<int>)
  {
    forall i, j :: 0 <= i < j < |years| ==> years[i] != years[j]
  }

  /** The key order lists each year of the map once, and nothing else. */
  ghost predicate KeyOrder(years: seq<int>, m: map<int, YearTotals>)
  {
    Distinct(years) && forall y :: y in m <==> y in years
  }

  /** The sum of the commits of the listed years. */
  function TotalCommits(years: seq<int>, m: map<int, YearTotals>): int
  {
    if years == [] then 0 else TotalCommits(years[..|years| - 1], m) + Lookup(m, years[|years| - 1]).commits
  }

  lemma {:induction false} TotalOther(years: seq<int>, m: map<int, YearTotals>, year: int, t: YearTotals)
    requires year !in years
    ensures TotalCommits(years, m[year := t]) == TotalCommits(years, m)
  {
    if years != [] {
      TotalOther(years[..|years| - 1], m, year, t);
    }
  }

  lemma {:induction false} TotalUpdate(years: seq<int>, m: map<int, YearTotals>, year: int, t: YearTotals)
    requires Distinct(years) && year in years
    ensures TotalCommits(years, m[year := t]) == TotalCommits(years, m) - Lookup(m, year).commits + t.commits
  {
    var n := |years| - 1;
    var init := years[..n];
    assert Distinct(init);
    if years[n] == year {
      assert year !in init;
      TotalOther(init, m, year, t);
    } else {
      assert year in init by {
        var k :| 0 <= k < |years| && years[k] == year;
        assert k < n && init[k] == year;
      }
      TotalUpdate(init, m, year, t);
    }
  }

  /** One detail keeps the key order and raises the total by its commits. */
  lemma AddDetailTotal(years: seq<int>, m: map<int, YearTotals>, d: Detail, yearOf: int -> int)
    requires KeyOrder(years, m)
    ensures KeyOrder(AddYear(years, yearOf(d.commitDay)), AddDetail(m, d, yearOf))
    ensures TotalCommits(AddYear(years, yearOf(d.commitDay)), AddDetail(m, d, yearOf)) == TotalCommits(years, m) + d.commits
  {
    var year := yearOf(d.commitDay);
    var t := YearTotals(Lookup(m, year).commits + d.commits, Lookup(m, year).lines + Lines(d));
    if year in years {
      TotalUpdate(years, m, year, t);
    } else {
      TotalOther(years, m, year, t);
      assert (years + [year])[..|years|] == years;
    }
  }

  /** The details keep the key order and raise the total over all years by all their commits. */
  lemma {:induction false} AddDetailsTotal(years: seq<int>, m: map<int, YearTotals>, ds: seq<Detail>, yearOf: int -> int)
    requires KeyOrder(years, m)
    ensures KeyOrder(AddYears(years, ds, yearOf), AddDetails(m, ds, yearOf))
    ensures TotalCommits(AddYears(years, ds, yearOf), AddDetails(m, ds, yearOf)) == TotalCommits(years, m) + SumCommits(ds)
  {
    if ds != [] {
      var n := |ds| - 1;
      AddDetailsTotal(years, m, ds[..n], yearOf);
      AddDetailTotal(AddYears(years, ds[..n], yearOf), AddDetails(m, ds[..n], yearOf), ds[n], yearOf);
    }
  }

  /** Starting from no years, the key order lists the years in the order they first occur. */
  lemma {:induction false} AddYearsFirstSeen(ds: seq<Detail>, yearOf: int -> int)
    ensures Distinct(AddYears([], ds, yearOf))
    ensures forall y :: y in AddYears([], ds, yearOf) <==> y in YearsOf(ds, yearOf)
    ensures forall i, j :: 0 <= i < j < |AddYears([], ds, yearOf)| ==>
      FirstAt(ds, AddYears([], ds, yearOf)[i], yearOf) < FirstAt(ds, AddYears([], ds, yearOf)[j], yearOf)
  {
    if ds != [] {
      var n := |ds| - 1;
      var before := AddYears([], ds[..n], yearOf);
      AddYearsFirstSeen(ds[..n], yearOf);
      YearsOfSnoc(ds, yearOf);
      var y := yearOf(ds[n].commitDay);
      assert forall z :: z in before ==> FirstAt(ds, z, yearOf) == FirstAt(ds[..n], z, yearOf) < n;
      if y !in before {
        assert FirstAt(ds, y, yearOf) == n;
      }
    }
  }

  /** The position of the first detail of a year, or the number of details when there is none. */
  function FirstAt(ds: seq<Detail>, year: int, yearOf: int -> int): (k: nat)
    ensures k <= |ds|
    ensures k < |ds| <==> year in YearsOf(ds, yearOf)
    ensures k < |ds| ==> yearOf(ds[k].commitDay) == year
  {
    if ds == [] then 0
    else
      var n := |ds| - 1;
      var k := FirstAt(ds[..n], year, yearOf);
      YearsOfSnoc(ds, yearOf);
      if k < n then (assert ds[..n][k] == ds[k]; k)
      else if yearOf(ds[n].commitDay) == year then n
      else |ds|
  }

  /** No detail before that position is of the year. */
  lemma {:induction false} FirstAtMinimal(ds: seq<Detail>, year: int, yearOf: int -> int)
    ensures forall i :: 0 <= i < FirstAt(ds, year, yearOf) ==> yearOf(ds[i].commitDay) != year
  {
    if ds != [] {
      var n := |ds| - 1;
      FirstAtMinimal(ds[..n], year, yearOf);
      forall i | 0 <= i < FirstAt(ds, year, yearOf) ensures yearOf(ds[i].commitDay) != year {
        if i < n { assert ds[i] == ds[..n][i]; }
      }
    }
  }

  // ---------------------------------------------------------------------------------------
  // The details of a subtree, in the order of the walk

  /** `node.data.git.details` when all three are present; otherwise the node contributes nothing. */
  function OwnDetails(data: Option<Payload>): seq<Detail>
  {
    if data.Some? && data.value.git.Some? && data.value.git.value.details.Some? then data.value.git.value.details.value
    else []
  }

  function Flatten(parts: seq<seq<Detail>>): seq<Detail>
  {
    if parts == [] then [] else Flatten(parts[..|parts| - 1]) + parts[|parts| - 1]
  }

  /** The details of a subtree in pre-order: the node's own, then each child's subtree in turn. */
  function TreeDetails(t: Tree): seq<Detail>
  {
    match t
    case Leaf(_, data, _, _) => OwnDetails(data)
    case Dir(_, cs, data, _, _) => OwnDetails(data) + Flatten(seq(|cs|, i requires 0 <= i < |cs| => TreeDetails(cs[i])))
  }

  // ---------------------------------------------------------------------------------------
  // The map object and the walk

  /** A JavaScript `Map` from year to totals: its entries and the order its keys were inserted in. */
  class YearMap {
    var years: seq<int>
    var totals: map<int, YearTotals>

    ghost predicate Valid()
      reads this
    {
      KeyOrder(years, totals)
    }

    /** `new Map()`. */
    constructor()
      ensures Valid() && years == [] && totals == map[]
    {
      years := [];
      totals := map[];
    }

    /** `yearMap.get(year) || { commits: 0, lines: 0 }`. */
    function GetOrZero(year: int): (r: YearTotals)
      reads this
      ensures year in totals ==> r == totals[year]
      ensures year !in totals ==> r == YearTotals(0, 0)
    {
      Lookup(totals, year)
    }

    /** `yearMap.set(year, t)`: a new year goes last in the key order. */
    method Set(year: int, t: YearTotals)
      requires Valid()
      modifies this
      ensures Valid()
      ensures totals == old(totals)[year := t] && years == AddYear(old(years), year)
    {
      if year !in totals {
        years := years + [year];
      }
      totals := totals[year := t];
    }
  }

  /** `accumulateDetails(yearMap, details)`. */
  method AccumulateDetails(yearMap: YearMap, details: seq<Detail>, yearOf: int -> int)
    requires yearMap.Valid()
    modifies yearMap
    ensures yearMap.Valid()
    ensures yearMap.totals == AddDetails(old(yearMap.totals), details, yearOf)
    ensures yearMap.years == AddYears(old(yearMap.years), details, yearOf)
  {
    for i := 0 to |details|
      invariant yearMap.Valid()
      invariant yearMap.totals == AddDetails(old(yearMap.totals), details[..i], yearOf)
      invariant yearMap.years == AddYears(old(yearMap.years), details[..i], yearOf)
    {
      var detail := details[i];
      var year := yearOf(detail.commitDay);
      var data := yearMap.GetOrZero(year);
      data := data.(commits := data.commits + detail.commits);
      data := data.(lines := data.lines + detail.linesAdded + detail.linesDeleted);
      yearMap.Set(year, data);
      assert details[..i + 1][..i] == details[..i];
    }
    assert details[..|details|] == details;
  }

  /** `accumulateYearData(node, yearMap)`: the node's own details, then each child's subtree. */
  method AccumulateYearData(node: Tree, yearMap: YearMap, yearOf: int -> int)
    requires yearMap.Valid()
    modifies yearMap
    ensures yearMap.Valid()
    ensures yearMap.totals == AddDetails(old(yearMap.totals), TreeDetails(node), yearOf)
    ensures yearMap.years == AddYears(old(yearMap.years), TreeDetails(node), yearOf)
    decreases node, 1
  {
    ghost var m0 := yearMap.totals;
    ghost var y0 := yearMap.years;
    var own := OwnDetails(node.data);
    if node.data.Some? && node.data.value.git.Some? && node.data.value.git.value.details.Some? {
      AccumulateDetails(yearMap, node.data.value.git.value.details.value, yearOf);
    }
    if node.Dir? {
      var rest := AccumulateChildren(node, yearMap, yearOf);
      AddDetailsAppend(m0, y0, own, rest, yearOf);
      assert TreeDetails(node) == own + rest;
    } else {
      assert own + [] == own;
    }
  }

  /** The `node.children.forEach((child) => accumulateYearData(child, yearMap))` loop. */
  method AccumulateChildren(node: Tree, yearMap: YearMap, yearOf: int -> int) returns (ghost walked: seq<Detail>)
    requires node.Dir? && yearMap.Valid()
    modifies yearMap
    ensures walked == Flatten(seq(|node.children|, i requires 0 <= i < |node.children| => TreeDetails(node.children[i])))
    ensures yearMap.Valid()
    ensures yearMap.totals == AddDetails(old(yearMap.totals), walked, yearOf)
    ensures yearMap.years == AddYears(old(yearMap.years), walked, yearOf)
    decreases node, 0
  {
    var cs := node.children;
    ghost var parts := seq(|cs|, i requires 0 <= i < |cs| => TreeDetails(cs[i]));
    ghost var m0 := yearMap.totals;
    ghost var y0 := yearMap.years;
    assert parts[..0] == [];
    for i := 0 to |cs|
      invariant yearMap.Valid()
      invariant yearMap.totals == AddDetails(m0, Flatten(parts[..i]), yearOf)
      invariant yearMap.years == AddYears(y0, Flatten(parts[..i]), yearOf)
    {
      ghost var done := Flatten(parts[..i]);
      AccumulateYearData(cs[i], yearMap, yearOf);
      FlattenStep(parts, i, done, TreeDetails(cs[i]));
      AddDetailsAppend(m0, y0, done, TreeDetails(cs[i]), yearOf);
    }
    assert parts[..|cs|] == parts;
    walked := Flatten(parts);
  }

  lemma FlattenStep(parts: seq<seq<Detail>>, i: nat, done: seq<Detail>, next: seq<Detail>)
    requires i < |parts| && done == Flatten(parts[..i]) && next == parts[i]
    ensures Flatten(parts[..i + 1]) == done + next
  {
    assert parts[..i + 1][..i] == parts[..i];
  }

  /** `yearData(repoName, node)`: the map of a subtree, started empty. `repoName` is not used. */
  method YearData(repoName: string, node: Tree, yearOf: int -> int) returns (yearMap: YearMap)
    ensures fresh(yearMap) && yearMap.Valid()
    ensures yearMap.totals == AddDetails(map[], TreeDetails(node), yearOf)
    ensures yearMap.years == AddYears([], TreeDetails(node), yearOf)
  {
    yearMap := new YearMap();
    AccumulateYearData(node, yearMap, yearOf);
  }

  /**
   * What `yearData` returns: exactly the years of the subtree's details as keys, listed in
   * the order they first occur in the walk, each with the commits and the lines of that
   * year's details; and the commits of all years add up to all the subtree's commits.
   */
  lemma YearDataSummary(node: Tree, yearOf: int -> int)
    ensures var ds := TreeDetails(node);
      var m := AddDetails(map[], ds, yearOf);
      m.Keys == YearsOf(ds, yearOf) &&
      (forall y :: y in m ==> m[y] == YearTotals(SumCommits(InYear(ds, y, yearOf)), SumLines(InYear(ds, y, yearOf)))) &&
      KeyOrder(AddYears([], ds, yearOf), m) &&
      (forall i, j :: 0 <= i < j < |AddYears([], ds, yearOf)| ==>
        FirstAt(ds, AddYears([], ds, yearOf)[i], yearOf) < FirstAt(ds, AddYears([], ds, yearOf)[j], yearOf)) &&
      TotalCommits(AddYears([], ds, yearOf), m) == SumCommits(ds)
  {
    var ds := TreeDetails(node);
    var m := AddDetails(map[], ds, yearOf);
    AddDetailsYears(map[], ds, yearOf);
    forall y | y in m ensures m[y] == YearTotals(SumCommits(InYear(ds, y, yearOf)), SumLines(InYear(ds, y, yearOf))) {
      AddDetailsPerYear(map[], ds, yearOf, y);
    }
    AddDetailsTotal([], map[], ds, yearOf);
    AddYearsFirstSeen(ds, yearOf);
  }
}
