/**
 * The retry/convergence controller of `calculateVoronoi` (layout.js): it runs the
 * weighted-Voronoi solver again and again until one run converges, the retry budget is
 * spent, or the solver fails in a way that is not worth retrying.
 *
 * The solver itself (d3-voronoi-map) is not modelled. One run of it, from construction
 * through the polling of `state.ended`, is summarised by a `Run`; the sequence of runs
 * a call would see is an oracle `runs: nat -> Run` (run k is the (k+1)-th attempt).
 */
module VoronoiRetry {
  import opened Wrappers
  import opened Flare

  /** Full restarts allowed after the first attempt. */
  const MaxSimulationCount: nat := 200
  /** `maxIterationCount` given to the solver: an attempt that used this many ticks did not converge. */
  const MaxIterationCount: nat := 500
  /** `minWeightRatio` given to the solver; the oracle stands for its effect. */
  const MinWeightRatio: real := 0.005

  /** The two solver error messages after which an attempt is retried. */
  const OverweightedMessage: string := "handleOverweighted1 is looping too much"
  const NoAreaMessage: string := "at least 1 site has no area, which is not supposed to arise"
  /** The message of the error thrown when the retries are spent under the strict policy. */
  const TooManyRetriesMessage: string := "Too many retries, can't provide good simulation"

  /**
   * One element of `state.polygons`: the sub-polygon of the site built from child number
   * `site` of the node (`site.originalObject.data.originalData`), and the site's position.
   */
  datatype Cell = Cell(site: nat, polygon: Polygon, x: real, y: real)

  /** What `simulation.state()` reports, apart from `ended`. */
  datatype SimState = SimState(convergenceRatio: real, polygons: seq<Cell>)

  /** A thrown value; `isError` is `e instanceof Error` (a TypeError is also an Error). */
  datatype Thrown = Thrown(isError: bool, message: string)

  /** The error thrown when the retries are spent. */
  const TooManyRetries: Thrown := Thrown(true, TooManyRetriesMessage)

  /**
   * One attempt: either `state.ended` was first read true after `ticks` ticks, with that
   * final state; or constructing the simulation or one of its ticks threw, and `lastRead`
   * is the last state this attempt read before that, if any.
   */
  datatype Run =
    | Ended(ticks: nat, state: SimState)
    | Threw(error: Thrown, lastRead: Option<SimState>)

  /** Why a call gives no polygons: a value it throws, or `state.polygons` read while `state` is undefined. */
  datatype Failure = Raised(thrown: Thrown) | StateUndefined

  predicate Exhausted(r: Run) { r.Ended? && r.ticks == MaxIterationCount }
  predicate Converged(r: Run) { r.Ended? && r.ticks != MaxIterationCount }
  predicate Recognized(e: Thrown) { e.isError && (e.message == OverweightedMessage || e.message == NoAreaMessage) }
  /** An attempt after which the controller tries again while the budget lasts. */
  predicate Retryable(r: Run) { Exhausted(r) || (r.Threw? && Recognized(r.error)) }
  /** An attempt whose error is rethrown at once. */
  predicate Unrecognized(r: Run) { r.Threw? && !Recognized(r.error) }

  /**
   * The variables of the loop: `simulationCount`, `bestConvergenceRatio`, `bestPolygons`
   * and the hoisted `state` (None while no state has been read).
   */
  datatype Control = Control(count: nat, best: real, bestPolygons: Option<seq<Cell>>, state: Option<SimState>)

  const Initial: Control := Control(0, 1.0, None, None)

  /** How one pass of the loop body ends. */
  datatype Step = Continue(next: Control) | Stop(last: Control) | Throw(thrown: Thrown)

  /** The `catch (e)` block, entered with the loop variables c. */
  function Catch(e: Thrown, c: Control, goodenough: bool): (s: Step)
    ensures s.Continue? ==> Recognized(e) && s.next == c.(count := c.count + 1) && s.next.count < MaxSimulationCount
    ensures s.Stop? ==> Recognized(e) && goodenough && s.last == c.(count := c.count + 1)
    ensures s.Throw? ==> s.thrown == (if Recognized(e) then TooManyRetries else e)
    ensures Recognized(e) ==> (s.Continue? <==> c.count + 1 < MaxSimulationCount)
    ensures Recognized(e) && c.count + 1 >= MaxSimulationCount ==> (s.Stop? <==> goodenough)
    ensures !Recognized(e) ==> s == Throw(e)
  {
    if !e.isError then Throw(e)
    else if e.message == OverweightedMessage || e.message == NoAreaMessage then
      var c' := c.(count := c.count + 1);
      if c'.count < MaxSimulationCount then Continue(c')
      else if !goodenough then Throw(TooManyRetries)
      else Stop(c')
    else Throw(e)
  }

  /** One pass of the `try` block with the run it observes, followed by its `catch`. */
  function AttemptStep(run: Run, c: Control, goodenough: bool): (s: Step)
    ensures s.Continue? ==> Retryable(run) && s.next.count == c.count + 1 && c.count < MaxSimulationCount
  {
    match run
    case Threw(e, lastRead) =>
      Catch(e, c.(state := if lastRead.Some? then lastRead else c.state), goodenough)
    case Ended(ticks, s) =>
      var c1 := c.(state := Some(s));
      if ticks == MaxIterationCount then
        var c2 := if s.convergenceRatio < c1.best
          then c1.(best := s.convergenceRatio, bestPolygons := Some(s.polygons)) else c1;
        if c2.count < MaxSimulationCount then Continue(c2.(count := c2.count + 1))
        // the strict-policy throw happens inside the `try`, so it passes through the `catch`
        else if !goodenough then Catch(TooManyRetries, c2, goodenough)
        else Stop(c2)
      else if c1.bestPolygons.Some? then Stop(c1.(bestPolygons := None, best := s.convergenceRatio))
      else Stop(c1)
  }

  /** After the loop: `state.polygons`, replaced by `bestPolygons` when one was kept. */
  function Finish(c: Control): Result<seq<Cell>, Failure>
  {
    match c.state
    case None => Err(StateUndefined)
    case Some(s) => Ok(if c.bestPolygons.Some? then c.bestPolygons.value else s.polygons)
  }

  /**
   * The loop run from the variables c, with run number c.count next (the count rises by
   * one exactly when an attempt is retried, so it numbers the attempts); returns the
   * outcome and the number of runs used.
   */
  function Retry(runs: nat -> Run, goodenough: bool, c: Control): (Result<seq<Cell>, Failure>, nat)
    requires c.count <= MaxSimulationCount
    decreases MaxSimulationCount - c.count
  {
    match AttemptStep(runs(c.count), c, goodenough)
    case Continue(c') => var (r, n) := Retry(runs, goodenough, c'); (r, n + 1)
    case Stop(c') => (Finish(c'), 1)
    case Throw(e) => (Err(Raised(e)), 1)
  }

  /** The polygons one node is partitioned into, and the number of solver runs used. */
  function Controller(runs: nat -> Run, goodenough: bool): (Result<seq<Cell>, Failure>, nat)
  {
    Retry(runs, goodenough, Initial)
  }

  /** The outcome of the loop resumed from c after `used` runs, with the runs counted from the start. */
  function Resumed(runs: nat -> Run, goodenough: bool, c: Control, used: nat): (Result<seq<Cell>, Failure>, nat)
    requires c.count <= MaxSimulationCount
  {
    var (r, n) := Retry(runs, goodenough, c); (r, n + used)
  }

  /** One pass of the loop, as `Retry` takes it. */
  lemma RetryStep(runs: nat -> Run, goodenough: bool, c: Control, used: nat)
    requires c.count <= MaxSimulationCount
    ensures var s := AttemptStep(runs(c.count), c, goodenough);
      && (s.Continue? ==> Resumed(runs, goodenough, c, used) == Resumed(runs, goodenough, s.next, used + 1))
      && (s.Stop? ==> Resumed(runs, goodenough, c, used) == (Finish(s.last), used + 1))
      && (s.Throw? ==> Resumed(runs, goodenough, c, used) == (Err(Raised(s.thrown)), used + 1))
  {
  }

  /**
   * One pass of the loop body of `calculateVoronoi` (layout.js): the `try` block with the
   * run it observes, then the `catch` block. `thrown` is a value the body lets escape.
   */
  method Attempt(run: Run, simulationCount: nat, bestConvergenceRatio: real, bestPolygons: Option<seq<Cell>>,
                 state: Option<SimState>, goodenough: bool)
    returns (count: nat, best: real, polygons: Option<seq<Cell>>, state': Option<SimState>, ended: bool, thrown: Option<Thrown>)
    ensures var s := AttemptStep(run, Control(simulationCount, bestConvergenceRatio, bestPolygons, state), goodenough);
      && (s.Continue? <==> !ended && thrown.None?)
      && (s.Continue? ==> s.next == Control(count, best, polygons, state'))
      && (s.Stop? <==> ended && thrown.None?)
      && (s.Stop? ==> s.last == Control(count, best, polygons, state'))
      && (s.Throw? <==> thrown.Some?)
      && (s.Throw? ==> thrown.value == s.thrown)
  {
    count, best, polygons, state', ended, thrown := simulationCount, bestConvergenceRatio, bestPolygons, state, false, None;
    var caught: Option<Thrown> := None;
    match run {
      case Ended(tickCount, s) =>
        state' := Some(s);
        if tickCount == MaxIterationCount {
          if s.convergenceRatio < best {
            best := s.convergenceRatio;
            polygons := Some(s.polygons);
          }
          if count < MaxSimulationCount {
            count := count + 1;
          } else {
            ended := true;
            if !goodenough {
              caught := Some(TooManyRetries);
            }
          }
        } else {
          if polygons.Some? {
            polygons := None;
            best := s.convergenceRatio;
          }
          ended := true;
        }
      case Threw(e, lastRead) =>
        if lastRead.Some? {
          state' := lastRead;
        }
        caught := Some(e);
    }
    if caught.Some? {
      var e := caught.value;
      if !e.isError {
        thrown := Some(e);
        return;
      }
      if e.message == OverweightedMessage || e.message == NoAreaMessage {
        count := count + 1;
        if count >= MaxSimulationCount {
          ended := true;
          if !goodenough {
            thrown := Some(TooManyRetries);
          }
        }
      } else {
        thrown := Some(e);
      }
    }
  }

  /** The retry loop of `calculateVoronoi` (layout.js), with the solver abstracted by `runs`. */
  method RunSimulations(runs: nat -> Run, goodenough: bool) returns (polygons: Result<seq<Cell>, Failure>, attempts: nat)
    ensures (polygons, attempts) == Controller(runs, goodenough)
    ensures 1 <= attempts <= MaxSimulationCount + 1
  {
    var simulationCount: nat := 0;
    var simulationLoopEnded := false;
    var bestConvergenceRatio: real := 1.0;
    var bestPolygons: Option<seq<Cell>> := None;
    var state: Option<SimState> := None;
    attempts := 0;
    while !simulationLoopEnded
      invariant simulationLoopEnded ==> 1 <= attempts <= MaxSimulationCount + 1
      invariant simulationLoopEnded ==>
        Controller(runs, goodenough) == (Finish(Control(simulationCount, bestConvergenceRatio, bestPolygons, state)), attempts)
      invariant !simulationLoopEnded ==> attempts == simulationCount <= MaxSimulationCount
      invariant !simulationLoopEnded ==>
        Controller(runs, goodenough) == Resumed(runs, goodenough, Control(simulationCount, bestConvergenceRatio, bestPolygons, state), attempts)
      decreases MaxSimulationCount + 1 - attempts
    {
      ghost var c := Control(simulationCount, bestConvergenceRatio, bestPolygons, state);
      RetryStep(runs, goodenough, c, attempts);
      var thrown;
      simulationCount, bestConvergenceRatio, bestPolygons, state, simulationLoopEnded, thrown :=
        Attempt(runs(attempts), simulationCount, bestConvergenceRatio, bestPolygons, state, goodenough);
      attempts := attempts + 1;
      if thrown.Some? {
        return Err(Raised(thrown.value)), attempts;
      }
    }
    polygons := Finish(Control(simulationCount, bestConvergenceRatio, bestPolygons, state));
  }

  // ---------------------------------------------------------------------------------------
  // What the controller promises

  function Ratio(r: Run): real
    requires r.Ended?
  {
    r.state.convergenceRatio
  }

  /** Among the first n runs, the earliest exhausted one of smallest ratio, if that ratio is below 1.0. */
  function BestRun(runs: nat -> Run, n: nat): (b: Option<nat>)
    ensures b.Some? ==> b.value < n && Exhausted(runs(b.value))
  {
    if n == 0 then None
    else
      var b := BestRun(runs, n - 1);
      var bound := if b.Some? then Ratio(runs(b.value)) else 1.0;
      if Exhausted(runs(n - 1)) && Ratio(runs(n - 1)) < bound then Some(n - 1) else b
  }

  lemma {:induction false} BestRunIsEarliestMinimum(runs: nat -> Run, n: nat)
    ensures BestRun(runs, n).None? ==>
      forall k :: 0 <= k < n && Exhausted(runs(k)) ==> Ratio(runs(k)) >= 1.0
    ensures BestRun(runs, n).Some? ==>
      var b := BestRun(runs, n).value;
      Ratio(runs(b)) < 1.0 &&
      (forall k :: 0 <= k < n && Exhausted(runs(k)) ==> Ratio(runs(k)) >= Ratio(runs(b))) &&
      (forall k :: 0 <= k < b && Exhausted(runs(k)) ==> Ratio(runs(k)) > Ratio(runs(b)))
  {
    if n > 0 {
      BestRunIsEarliestMinimum(runs, n - 1);
    }
  }

  /** The state last read during the first n runs, if any. */
  function LastRead(runs: nat -> Run, n: nat): Option<SimState>
  {
    if n == 0 then None
    else match runs(n - 1)
      case Ended(_, s) => Some(s)
      case Threw(_, lastRead) => if lastRead.Some? then lastRead else LastRead(runs, n - 1)
  }

  /**
   * The lenient outcome once the budget is spent after n runs: the polygons of the best
   * exhausted run if there is one, else those of the state last read.
   */
  function GiveUp(runs: nat -> Run, n: nat): Result<seq<Cell>, Failure>
  {
    match LastRead(runs, n)
    case None => Err(StateUndefined)
    case Some(s) => Ok(match BestRun(runs, n) case Some(b) => runs(b).state.polygons case None => s.polygons)
  }

  /** The loop variables c summarise the first c.count runs. */
  ghost predicate Tracks(runs: nat -> Run, c: Control)
  {
    c.state == LastRead(runs, c.count) &&
    match BestRun(runs, c.count)
    case None => c.best == 1.0 && c.bestPolygons.None?
    case Some(b) => c.best == Ratio(runs(b)) && c.bestPolygons == Some(runs(b).state.polygons)
  }

  /** What the last run (number last) decides about the outcome r. */
  ghost predicate Decides(runs: nat -> Run, goodenough: bool, last: nat, r: Result<seq<Cell>, Failure>)
  {
    (Converged(runs(last)) ==> r == Ok(runs(last).state.polygons)) &&
    (Unrecognized(runs(last)) ==> r == Err(Raised(runs(last).error))) &&
    (Exhausted(runs(last)) ==> last == MaxSimulationCount) &&
    (runs(last).Threw? && Recognized(runs(last).error) ==> MaxSimulationCount <= last + 1) &&
    (Retryable(runs(last)) ==> r == if goodenough then GiveUp(runs, last + 1) else Err(Raised(TooManyRetries)))
  }

  /** Reading run c.count moves the summary on by one run. */
  lemma ObserveTracks(runs: nat -> Run, goodenough: bool, c: Control)
    requires Tracks(runs, c)
    ensures var run := runs(c.count);
      LastRead(runs, c.count + 1) == match run
        case Ended(_, s) => Some(s)
        case Threw(_, lastRead) => if lastRead.Some? then lastRead else c.state
    ensures AttemptStep(runs(c.count), c, goodenough).Continue? ==>
      Tracks(runs, AttemptStep(runs(c.count), c, goodenough).next)
  {
  }

  /** A pass of the loop that does not retry decides the outcome on its own. */
  lemma FinalStep(runs: nat -> Run, goodenough: bool, c: Control)
    requires c.count <= MaxSimulationCount && Tracks(runs, c)
    requires !AttemptStep(runs(c.count), c, goodenough).Continue?
    ensures Retry(runs, goodenough, c).1 == 1
    ensures Decides(runs, goodenough, c.count, Retry(runs, goodenough, c).0)
  {
    ObserveTracks(runs, goodenough, c);
    var run := runs(c.count);
    if run.Threw? && Recognized(run.error) {
      assert MaxSimulationCount <= c.count + 1;
    }
  }

  /**
   * The whole behaviour of the loop from a point where it has seen c.count retried runs:
   * how many runs it uses, that all but the last were retryable, and what the last one
   * decides.
   */
  lemma {:induction false} RetryOutcome(runs: nat -> Run, goodenough: bool, c: Control)
    requires c.count <= MaxSimulationCount && Tracks(runs, c)
    ensures var (r, n) := Retry(runs, goodenough, c); var last := c.count + n - 1;
      1 <= n && last <= MaxSimulationCount &&
      (forall k :: c.count <= k < last ==> Retryable(runs(k)) && (runs(k).Threw? ==> k + 1 < MaxSimulationCount)) &&
      Decides(runs, goodenough, last, r)
    decreases MaxSimulationCount - c.count
  {
    var step := AttemptStep(runs(c.count), c, goodenough);
    if step.Continue? {
      ObserveTracks(runs, goodenough, c);
      RetryOutcome(runs, goodenough, step.next);
    } else {
      FinalStep(runs, goodenough, c);
    }
  }

  /**
   * The controller as a whole: it uses between 1 and MaxSimulationCount + 1 solver runs;
   * every run but the last was retried; a converged last run gives its own polygons (even
   * after best-so-far snapshots); an unrecognised error is rethrown unchanged; and when the
   * budget is spent the strict policy throws while the lenient one gives the best kept
   * polygons, else those of the state last read.
   */
  lemma ControllerOutcome(runs: nat -> Run, goodenough: bool)
    ensures var (r, n) := Controller(runs, goodenough);
      1 <= n <= MaxSimulationCount + 1 &&
      (forall k :: 0 <= k < n - 1 ==> Retryable(runs(k)) && (runs(k).Threw? ==> k + 1 < MaxSimulationCount)) &&
      (Converged(runs(n - 1)) ==> r == Ok(runs(n - 1).state.polygons)) &&
      (Unrecognized(runs(n - 1)) ==> r == Err(Raised(runs(n - 1).error))) &&
      (Exhausted(runs(n - 1)) ==> n == MaxSimulationCount + 1) &&
      (runs(n - 1).Threw? && Recognized(runs(n - 1).error) ==> MaxSimulationCount <= n) &&
      (Retryable(runs(n - 1)) ==> r == if goodenough then GiveUp(runs, n) else Err(Raised(TooManyRetries)))
  {
    RetryOutcome(runs, goodenough, Initial);
  }

  /** A solver that fails K times with a recognised error and then converges is retried K times. */
  lemma TransientThenConverged(runs: nat -> Run, goodenough: bool, k: nat)
    requires k < MaxSimulationCount
    requires forall j :: 0 <= j < k ==> runs(j).Threw? && Recognized(runs(j).error)
    requires Converged(runs(k))
    ensures Controller(runs, goodenough) == (Ok(runs(k).state.polygons), k + 1)
  {
    ControllerOutcome(runs, goodenough);
  }

  /** Under the strict policy, polygons come only from a run that really converged. */
  lemma StrictOnlyConverged(runs: nat -> Run)
    ensures var (r, n) := Controller(runs, false);
      r.Ok? ==> Converged(runs(n - 1)) && r.value == runs(n - 1).state.polygons
  {
    ControllerOutcome(runs, false);
  }

  /**
   * A recognised error raises the counter before it is checked, so a solver that only ever
   * fails with recognised errors is run MaxSimulationCount times, one run fewer than a solver
   * that never converges; the strict policy then throws and the lenient one gives the
   * polygons of the state last read.
   */
  lemma RecognizedErrorsSpendBudget(runs: nat -> Run, goodenough: bool)
    requires forall k :: 0 <= k < MaxSimulationCount ==> runs(k).Threw? && Recognized(runs(k).error)
    ensures Controller(runs, goodenough).1 == MaxSimulationCount
    ensures !goodenough ==> Controller(runs, false).0 == Err(Raised(TooManyRetries))
    ensures goodenough ==> Controller(runs, true).0 == GiveUp(runs, MaxSimulationCount)
  {
    ControllerOutcome(runs, goodenough);
    var n := Controller(runs, goodenough).1;
    assert runs(MaxSimulationCount - 1).Threw?;
    assert n - 1 < MaxSimulationCount;
    assert runs(n - 1).Threw? && Recognized(runs(n - 1).error);
  }

  /** An error that is not recognised is rethrown after the first run, with no retry. */
  lemma UnrecognizedNotRetried(runs: nat -> Run, goodenough: bool)
    requires Unrecognized(runs(0))
    ensures Controller(runs, goodenough) == (Err(Raised(runs(0).error)), 1)
  {
    ControllerOutcome(runs, goodenough);
  }

  /**
   * A solver that never converges is run MaxSimulationCount + 1 times; the strict policy
   * then throws, the lenient one takes the earliest run of smallest ratio below 1.0, or
   * the last run when none is below 1.0.
   */
  lemma NeverConverging(runs: nat -> Run, goodenough: bool)
    requires forall k :: 0 <= k <= MaxSimulationCount ==> Exhausted(runs(k))
    ensures Controller(runs, goodenough).1 == MaxSimulationCount + 1
    ensures !goodenough ==> Controller(runs, false).0 == Err(Raised(TooManyRetries))
    ensures goodenough ==> Controller(runs, true).0 == Ok(
      match BestRun(runs, MaxSimulationCount + 1)
      case Some(b) => runs(b).state.polygons
      case None => runs(MaxSimulationCount).state.polygons)
  {
    ControllerOutcome(runs, goodenough);
  }

  /** Every state run r reads has polygons satisfying P. */
  ghost predicate RunSatisfies(r: Run, P: seq<Cell> -> bool)
  {
    match r
    case Ended(_, s) => P(s.polygons)
    case Threw(_, lastRead) => lastRead.Some? ==> P(lastRead.value.polygons)
  }

  /** The polygons the loop variables c hold satisfy P. */
  ghost predicate HeldSatisfy(c: Control, P: seq<Cell> -> bool)
  {
    (c.state.Some? ==> P(c.state.value.polygons)) &&
    (c.bestPolygons.Some? ==> P(c.bestPolygons.value))
  }

  lemma {:induction false} RetryPolygonsFromRuns(runs: nat -> Run, goodenough: bool, c: Control, P: seq<Cell> -> bool)
    requires c.count <= MaxSimulationCount && HeldSatisfy(c, P)
    requires forall k :: RunSatisfies(runs(k), P)
    ensures Retry(runs, goodenough, c).0.Ok? ==> P(Retry(runs, goodenough, c).0.value)
    decreases MaxSimulationCount - c.count
  {
    assert RunSatisfies(runs(c.count), P);
    var step := AttemptStep(runs(c.count), c, goodenough);
    if step.Continue? {
      RetryPolygonsFromRuns(runs, goodenough, step.next, P);
    }
  }

  /** The controller only ever returns polygons that some run of the solver reported. */
  lemma ControllerPolygonsFromRuns(runs: nat -> Run, goodenough: bool, P: seq<Cell> -> bool)
    requires forall k :: RunSatisfies(runs(k), P)
    ensures Controller(runs, goodenough).0.Ok? ==> P(Controller(runs, goodenough).0.value)
  {
    RetryPolygonsFromRuns(runs, goodenough, Initial, P);
  }

  /** Under the lenient policy a solver that never throws always yields polygons. */
  lemma LenientNeverFails(runs: nat -> Run)
    requires forall k :: runs(k).Ended?
    ensures Controller(runs, true).0.Ok?
  {
    ControllerOutcome(runs, true);
    var (r, n) := Controller(runs, true);
    assert runs(n - 1).Ended?;
  }
}
