# Code-map layout scripts, modelled in Dafny

The repository draws a code base as a nested Voronoi treemap. Its input is a JSON tree of
directories and files. Each file carries a `data` payload with line counts (`data.loc.code`)
and version-control statistics (`data.git.details`). Three scripts work on that tree:

- `layout.js` prepares the tree in place:
  - each leaf weighs its lines of code and each directory the sum of its children (`calculate_values`);
  - children of weight 0 or less are removed (`pruneWeightlessNodes`);
  - `calculateVoronoi` then lays the tree out recursively. It writes a `layout` record onto every node it visits. It also runs the weighted-Voronoi solver on each directory's children under a bounded retry/convergence controller, and recurses into every child that a returned polygon was built from.
  - Finally a copy of the tree is built in which every node has a slash-joined `path` (`addPaths`).
- `offline-voronoi.js` lets the d3 treemap lay out the whole tree at once. It prunes the d3 hierarchy in place with the same `pruneWeightlessNodes`, then unwraps the hierarchy into plain records (`deHierarchify`).
- `repo_change_stats.js` walks a repository subtree in pre-order. It folds every commit detail into a `Map` from year to `{commits, lines}` (`accumulateDetails`, `accumulateYearData`, `yearData`).

Modules:

- `Wrappers` holds the `Option` and `Result` types.
- `Flare` holds the payload and the geometry types, and the leaf weight `FlareWeightLoc`.
- `LayoutTree` holds the code tree.
  - `Tree` is the value.
  - `Node` is the mutable object that the passes write into.
  - Aggregation and pruning are each a module-level method that takes a `Node` and writes into its subtree. Each method is proved against a function on `Tree` (`Aggregated`, `Pruned`), and the properties of those functions are lemmas.
- `LayoutPaths` holds `addPaths`.
- `VoronoiRetry` holds the retry controller. One solver run is summarised as a `Run`, and the runs a call sees are an oracle `runs: nat -> Run`.
- `VoronoiLayout` holds the recursion of `calculateVoronoi`.
  - The in-place pass `CalculateVoronoi` is proved against the function `LaidOut`.
  - `LaidOut` takes the controller as an abstract `Partition`, which makes its lemmas independent of the controller's internals.
- `OfflineVoronoi` holds the d3-hierarchy pruning and `deHierarchify`.
- `RepoChangeStats` holds the year map.
  - The map is the class `YearMap`. It stores the entries and the insertion order of the keys, as a JavaScript `Map` keeps them.
  - The walk is a set of methods, proved against the folds `AddDetails`/`AddYears` over `TreeDetails`, the details of the subtree in pre-order.

## Behaviour of the retry controller

- Only two solver error messages are retried: `handleOverweighted1 is looping too much` and `at least 1 site has no area, which is not supposed to arise`. Any other error, and any thrown value that is not an `Error`, is rethrown at once.
- An exhausted run checks the counter before raising it (`layout.js:150-151`). A recognised error raises it before checking (`layout.js:188-189`). So a solver that only ever fails with recognised errors is run 200 times, and one that never converges is run 201 times (`VoronoiRetry.RecognizedErrorsSpendBudget`, `VoronoiRetry.NeverConverging`).
- The "Too many retries" error thrown inside the `try` block (`layout.js:160`) is caught by the block's own `catch`. Its message is not one of the two retried ones, so it is rethrown (`VoronoiRetry.AttemptStep`).
- The controller never switches between solver variants, and it does not cap the ticks of a run on its own.

## Model

| member | source | states |
|---|---|---|
| Flare.FlareWeightLoc | layout.js:25-29 | the weight is 0 without `data`, 0 without `data.loc`, and `data.loc.code` otherwise; the copy at offline-voronoi.js:20-24 is the same rule; its only caller there, `d3.hierarchy(...).sum`, is not modelled |
| LayoutTree.CalculateValues | layout.js:63-73 | the node objects afterwards stand for `Aggregated` of the tree before; the object graph, the `children` arrays, names and data are unchanged |
| LayoutTree.CalculateChildValues | layout.js:64-67 | the loop over the children aggregates every child's subtree and leaves the node's own value and layout alone |
| LayoutTree.CalculateChildValue | layout.js:66 | recursing into child i aggregates that child and changes no sibling (the subtrees share no object) |
| LayoutTree.SetValue | layout.js:69 | writing a directory's `value` keeps the node valid and leaves every child's subtree as it was |
| LayoutTree.AggregatedIsAggregated | layout.js:63-73 | after aggregation every leaf holds `flareWeightLoc` of itself and every directory the sum of its children's values; an empty `children` array gives 0 |
| LayoutTree.AggregatedKeepsShape | layout.js:63-73 | aggregation changes values only: shape, order, names, data and layouts are kept |
| LayoutTree.AggregatedUnique | layout.js:63-73 | an aggregated tree that differs from t only in its values is the aggregate of t, so the aggregation rule determines every value |
| LayoutTree.AggregatedFixpoint | layout.js:63-73 | a tree is its own aggregate exactly when it is aggregated; aggregating twice is aggregating once |
| LayoutTree.AggregatedNonNegative | layout.js:63-73 | with non-negative leaf weights every aggregated value is non-negative |
| LayoutTree.PositiveAtExactly | layout.js:34 | the positions kept by the filter are increasing and are exactly those whose value is greater than 0 |
| LayoutTree.PruneWeightlessNodes | layout.js:31-37 | the node objects afterwards stand for `Pruned` of the tree before |
| LayoutTree.KeepWeightedChildren | layout.js:34 | the new `children` array is the old one filtered to value > 0, in order, and its subtrees are the kept old subtrees |
| LayoutTree.SetChildren | layout.js:34 | assigning a list of disjoint owned subtrees as `children` keeps the node valid and the subtrees as they were |
| LayoutTree.PruneChildren | layout.js:35 | the loop prunes every kept child's subtree and leaves the node's own fields alone |
| LayoutTree.PruneChild | layout.js:35 | recursing into child i prunes that child and changes no sibling |
| LayoutTree.PrunedChildren | layout.js:31-37 | a leaf is unchanged; a directory keeps exactly its children with value > 0, in their original order, each pruned in turn; the node's own name, data, value and layout stay |
| LayoutTree.PrunedIsPositive | layout.js:31-37 | after pruning every node below the root has a value greater than 0 |
| LayoutTree.PrunedIdempotent | layout.js:31-37 | pruning a pruned tree changes nothing |
| LayoutTree.SumOfPositive | layout.js:31-37 | dropping the children of value 0 from non-negative children does not change their sum |
| LayoutTree.PrunedKeepsAggregation | layout.js:31-37 | pruning an aggregated tree with non-negative leaf weights leaves it aggregated |
| LayoutPaths.AddPaths | layout.js:39-61 | the path is "" below no parent, the name below a parent with path "", and parent path + "/" + name otherwise; leaves stay leaves, and directories keep their number of children |
| LayoutPaths.AddPathsKeepsTree | layout.js:50-60 | dropping the paths gives back the original tree: names, shape, child order, data, values and layouts are copied |
| LayoutPaths.PathAtStep | layout.js:50-52 | the copy's node at the end of a route is the copy of the original's node there, with its parent's path passed down |
| LayoutPaths.PathIsExtension | layout.js:39-52 | below a parent with path p, a node's path is p extended one path step per name on the way down |
| LayoutPaths.ExtendIsJoin | layout.js:44-48 | extending "" by non-empty names joins them with "/"; extending another path inserts a "/" first |
| LayoutPaths.PathIsJoinedNames | layout.js:39-61 | in the saved tree a node's path is the names from just below the root down to it joined with "/" ("" for the root), and the node is otherwise the original |
| LayoutPaths.PathsExample | layout.js:39-49 | root `src`, child `main` and grandchild `app.js` get the paths "", "main" and "main/app.js" |
| VoronoiRetry.Catch | layout.js:176-211 | a recognised error raises the counter by one; it retries exactly when the raised counter is below 200; otherwise it stops exactly under the lenient policy and throws "Too many retries" under the strict one; any other error is rethrown unchanged |
| VoronoiRetry.AttemptStep | layout.js:112-211 | a pass that retries was of a retryable run, raises the counter by exactly one, and starts below the budget |
| VoronoiRetry.Attempt | layout.js:112-211 | the loop body on the loop variables computes what `AttemptStep` says: the next variables, the end of the loop, or the value it throws |
| VoronoiRetry.RunSimulations | layout.js:104-220 | the loop and the polygon choice after it give the controller's outcome, using between 1 and 201 solver runs |
| VoronoiRetry.BestRun | layout.js:137-148 | the kept best run, if any, is an exhausted run among those seen |
| VoronoiRetry.BestRunIsEarliestMinimum | layout.js:137-148 | the kept run has the smallest ratio among exhausted runs, is the earliest run with it, and is below 1.0; with none kept, no exhausted run was below 1.0 |
| VoronoiRetry.ObserveTracks | layout.js:120-148 | after each run the hoisted `state` is the state last read (a run that threw before reading one keeps the older state), and the best-so-far variables track `BestRun` |
| VoronoiRetry.FinalStep | layout.js:156-220 | an attempt that does not retry ends the call, and its run decides the outcome |
| VoronoiRetry.RetryOutcome | layout.js:111-220 | from any tracked point the loop ends, uses at most the remaining budget, retried every run but the last, with every retried error at a run number below 199, and the last run decides the outcome |
| VoronoiRetry.ControllerOutcome | layout.js:104-220 | 1 to 201 runs; every run but the last was retryable, and a retried error came at a run number below 199 (the counter is raised before the check); a converged last run gives its own polygons even after best-so-far snapshots; an unrecognised error is rethrown unchanged; an exhausted last run is run 201; a recognised error ends at run 200 or 201; when the budget is spent the strict policy throws and the lenient one gives the best kept polygons, else those of the state last read |
| VoronoiRetry.TransientThenConverged | layout.js:183-192 | k < 200 recognised errors followed by a converged run give that run's polygons after exactly k + 1 runs |
| VoronoiRetry.StrictOnlyConverged | layout.js:156-175 | under the strict policy polygons come only from a run that really converged |
| VoronoiRetry.RecognizedErrorsSpendBudget | layout.js:183-204 | a solver whose first 200 runs all fail with recognised errors is run exactly 200 times; the strict policy throws "Too many retries" and the lenient one gives `GiveUp` after 200 runs |
| VoronoiRetry.UnrecognizedNotRetried | layout.js:179-210 | an unrecognised first error is rethrown after one run, with no retry |
| VoronoiRetry.NeverConverging | layout.js:137-164 | a solver that never converges is run 201 times; the strict policy throws and the lenient one takes the earliest run of smallest ratio below 1.0, or the last run when none is below 1.0 |
| VoronoiRetry.RetryPolygonsFromRuns | layout.js:213-220 | from any point, returned polygons are ones a run reported or ones already held |
| VoronoiRetry.ControllerPolygonsFromRuns | layout.js:213-220 | the controller only returns polygons that some solver run reported |
| VoronoiRetry.LenientNeverFails | layout.js:156-164 | under the lenient policy a solver that never throws always yields polygons |
| VoronoiLayout.LaidOut | layout.js:84-92 | the node it is called on, leaf or directory, gets the layout (clip polygon, center, "voronoi") whatever happens below it; the height of the tree is kept |
| VoronoiLayout.PlaceOne | layout.js:229-239 | a polygon lays out only the child its site names, with the polygon and centre [site.x, site.y]; every other child is unchanged |
| VoronoiLayout.LaidOutOnlyLayouts | layout.js:75-240 | the layout pass writes layouts and nothing else: names, data, values and children stay |
| VoronoiLayout.PlaceOnlyLayouts | layout.js:229-239 | the polygon loop changes children's layouts only |
| VoronoiLayout.PlacedLayouts | layout.js:229-239 | when the loop runs through, the child of each polygon is laid out in that polygon around its site, and a child no polygon names is left as it was |
| VoronoiLayout.ControllerCovers | layout.js:213-220 | if every state the solver reports has a polygon for each child, so do the controller's results, under either policy |
| VoronoiLayout.LenientControllerNeverFails | layout.js:156-164 | the lenient controller over a solver that never throws never fails |
| VoronoiLayout.LaidOutComplete | layout.js:84-239 | with polygons for every child, a layout that does not fail leaves no node without a layout |
| VoronoiLayout.PlaceComplete | layout.js:229-239 | in the polygon loop a child named by a polygon, or already fully laid out, ends up fully laid out |
| VoronoiLayout.PlaceOneComplete | layout.js:229-239 | one polygon fully lays out the child it names and keeps any fully laid-out child |
| VoronoiLayout.LayoutSucceeds | layout.js:75-240 | if the controller never fails, the layout runs through |
| VoronoiLayout.PlaceSucceeds | layout.js:229-239 | if the controller never fails, the polygon loop runs through |
| VoronoiLayout.PlaceOneSucceeds | layout.js:229-239 | if the controller never fails, the recursion into one polygon's child runs through |
| VoronoiLayout.LenientLayoutComplete | layout.js:75-240 | the lenient policy, with a solver that never throws and covers all children, lays out every node |
| VoronoiLayout.CalculateVoronoi | layout.js:75-240 | the node objects afterwards, the failure and the number of solver runs are what `LaidOut` gives for the tree before |
| VoronoiLayout.LayOutChildren | layout.js:104-239 | below a node with children: the controller over the children's values, then the polygon loop, as `ChildrenLaidOut` |
| VoronoiLayout.PlaceCells | layout.js:229-239 | the `for` loop over the polygons computes `Place`, stopping at the first failure |
| VoronoiLayout.PlaceCell | layout.js:229-239 | one pass of the loop extends `Place` by one polygon; a site naming no child changes nothing |
| VoronoiLayout.LayOutChild | layout.js:231-238 | the recursive call on one polygon's child computes `PlaceOne` and changes no sibling |
| OfflineVoronoi.PruneWeightlessNodes | offline-voronoi.js:26-32 | the hierarchy objects afterwards stand for `HPruned` of the hierarchy before |
| OfflineVoronoi.KeepWeightedChildren | offline-voronoi.js:29 | the new `children` array is the old one filtered to value > 0, in order, and its subtrees are the kept old subtrees |
| OfflineVoronoi.SetHierarchyChildren | offline-voronoi.js:29 | assigning disjoint owned subtrees as `children` keeps the node valid and the subtrees as they were |
| OfflineVoronoi.PruneChildren | offline-voronoi.js:30 | the loop prunes every kept child's subtree and leaves the node's own fields alone |
| OfflineVoronoi.PruneChild | offline-voronoi.js:30 | recursing into child i prunes that child and changes no sibling |
| OfflineVoronoi.HPrunedChildren | offline-voronoi.js:26-32 | a node without children is unchanged; a directory keeps exactly its children with value > 0, in increasing original order, each pruned in turn; datum, value and polygon stay |
| OfflineVoronoi.HPrunedIsPositive | offline-voronoi.js:26-32 | after pruning every node below the root has a value greater than 0 |
| OfflineVoronoi.DeHierarchify | offline-voronoi.js:34-49 | a record has children exactly when its hierarchy node has |
| OfflineVoronoi.RewrapDeHierarchify | offline-voronoi.js:39-48 | unwrapping loses nothing: name from `data.name`, payload from `data.data`, value and polygon, in the same shape and child order, so wrapping again gives the hierarchy back |
| OfflineVoronoi.DeHierarchifyRewrap | offline-voronoi.js:39-48 | every record is the unwrapping of the hierarchy it wraps into, so unwrapping is a bijection |
| OfflineVoronoi.DeHierarchifyKeepsPositive | offline-voronoi.js:39-48 | unwrapping keeps "every node below the root has a value greater than 0" |
| OfflineVoronoi.SavedTreeIsWeighted | offline-voronoi.js:26-49 | the saved records of a pruned hierarchy hold no weightless node below the root |
| RepoChangeStats.YearMap.constructor | repo_change_stats.js:27 | `new Map()` is empty, with no keys in its order |
| RepoChangeStats.YearMap.GetOrZero | repo_change_stats.js:8 | the entry of a year, or {commits: 0, lines: 0} when it has none |
| RepoChangeStats.YearMap.Set | repo_change_stats.js:11 | `set` replaces the year's entry and puts a new year last in the key order; the order stays a duplicate-free list of the keys |
| RepoChangeStats.AccumulateDetails | repo_change_stats.js:5-13 | the map afterwards is the fold `AddDetails` of the details into the map before, and its key order is `AddYears` |
| RepoChangeStats.AccumulateYearData | repo_change_stats.js:15-24 | the map afterwards is the fold of the subtree's details in pre-order (`TreeDetails`); nodes without `data.git.details` contribute nothing |
| RepoChangeStats.AccumulateChildren | repo_change_stats.js:19-23 | the loop over the children folds each child's subtree in turn |
| RepoChangeStats.YearData | repo_change_stats.js:26-30 | a fresh map holding the fold of the subtree's details into the empty map |
| RepoChangeStats.AddDetailsPerYear | repo_change_stats.js:5-13 | each year's commits grow by the commits of exactly that year's details, and its lines by their lines added plus deleted; a year without an entry starts from zero |
| RepoChangeStats.AddDetailsYears | repo_change_stats.js:8-11 | the keys grow by exactly the years of the details; a year that no detail has keeps its entry |
| RepoChangeStats.AddDetailsAppend | repo_change_stats.js:15-24 | folding two runs of details one after the other is folding their concatenation: the map threaded through the walk accumulates the whole pre-order sequence |
| RepoChangeStats.AddDetailTotal | repo_change_stats.js:7-11 | one detail keeps the key order a duplicate-free list of the keys and raises the total over all years by its commits |
| RepoChangeStats.AddDetailsTotal | repo_change_stats.js:5-13 | the details raise the total commits over all years by the sum of their commits |
| RepoChangeStats.AddYearsFirstSeen | repo_change_stats.js:11 | from no keys, the key order lists each year of the details once, in the order of its first detail |
| RepoChangeStats.YearDataSummary | repo_change_stats.js:26-30 | the keys are exactly the years of the subtree's details, listed in order of first occurrence; each entry is that year's commits and lines; the commits of all years add up to all the subtree's commits |

## Left out

- Command-line parsing, file and stream I/O, JSON parsing and printing, and the `main` functions of all three scripts. They are I/O.
- All console logging and the `Date.now` progress warnings, including the `console.log` in `deHierarchify`. They have no effect on results.
- The `name` and `depth` arguments of `calculateVoronoi`. They only feed log messages. The recursion still happens once per polygon.
- The internals of d3-voronoi-map (`voronoiMapSimulation`, `tick` and `state`). They are a foreign library. One attempt, including its inner tick loop, is summarised by a `Run`: either the tick count when `state.ended` was first read true together with that state, or the error thrown together with the last state read before it. The configuration constants of a run (maximum iterations 500, minimum weight ratio 0.005) are constants of the model. Their effect on the solver belongs to the oracle. The tick loop (`layout.js:124-136`) has no cap of its own. It ends only because the library sets `state.ended` by its iteration limit, and the model takes that as given: every `Run` ends. The bound of 201 runs rests on it.
- The solver's promise to return one polygon per child. `VoronoiLayout.LaidOutComplete` and `VoronoiLayout.LenientLayoutComplete` take it as a hypothesis (`CoveringPartition`, `CoveringSolver`).
- VoronoiLayout.PlaceOne: a polygon whose site names no child is passed over. In the program every site is built from a child, so this case does not arise there.
- JavaScript `null` and a `loc` without `code` are not modelled. A missing property is the only absence the model represents. In the program, `data: null` or `loc: null` makes `flareWeightLoc` throw a TypeError. `children: null` counts as a leaf in `calculate_values` and makes `pruneWeightlessNodes` throw. A missing `loc.code` turns the sums into NaN. A thrown `null` or `undefined` fails at `e.message` instead of being rethrown.
- Failures are returned as values instead of thrown. Layout writes made before a failure stay in place, as they do in the program.
- `computeCirclingPolygon`, circles mode and the hard-coded widths. They are floating-point geometry and foreign calls to `d3.packSiblings`/`d3.packEnclose`.
- Coordinates and convergence ratios are `real`s that are only copied and compared. Line counts and commit counts are unbounded integers. JavaScript number rounding is not modelled.
- `d3.hierarchy(...).sum` and `vtm.voronoiTreemap` in offline-voronoi.js. They are foreign calls. A `Hierarchy` takes its `value` and `polygon` as given. `Datum` keeps only the `name` and `data` of the original node, the two fields `deHierarchify` reads.
- The moment conversion from a unix day to a year. It is a library call and depends on the timezone, so it is the function parameter `yearOf`.
- The CSV formatting of the year map. It is output only. The `repoName` parameter of `yearData` is not used by the function.
- LayoutPaths.PathIsJoinedNames: it states the joined-names reading only for routes whose names are non-empty. A node with the empty name below a parent with path "" gets the path "" in the program, and `LayoutPaths.AddPaths` models that rule exactly for every name.
- JavaScript's sharing of `layout`, `data` and `children` objects between the original and the copy made by `addPaths` or `deHierarchify`. Both copies are modelled as values.
