/**
 * The iteration driver of the k-means encoding: per iteration the solver is
 * consulted once, and its answer is turned into the next iteration's
 * concrete centers. The solver itself is not modelled; its answers are an
 * input.
 */
module KMeansModel {
  import opened Wrappers
  import opened Geometry
  import opened Constraints
  import opened Update

  /** The values a satisfying model gives to the variables the driver reads. */
  datatype Model = Model(points: seq<Point>, centers: seq<Point>, assignment: seq<int>)

  /** The answer of one satisfiability check. */
  datatype CheckResult = Unsat | Sat(model: Model)

  /** The two ways an iteration can abort. */
  datatype Error =
    | UnsatAtIteration(iteration: nat)
    | InvalidCenterNumber(iteration: nat, point: nat)

  /** A satisfiable answer whose center numbers the grouping accepts. */
  predicate Accepted(r: CheckResult, numPoints: nat, numCenters: nat)
  {
    r.Sat? && ValidCenterNumbers(r.model.assignment, numPoints, numCenters)
  }

  /** A model holds one value per declared variable. */
  predicate WellShaped(answers: seq<CheckResult>, numPoints: nat, numCenters: nat)
  {
    (forall k :: 0 <= k < |answers| && answers[k].Sat? ==> |answers[k].model.assignment| == numPoints) &&
    (|answers| > 0 && answers[0].Sat? ==>
       |answers[0].model.points| == numPoints && |answers[0].model.centers| == numCenters)
  }

  /** Iteration `e.iteration` is the first one that fails, and it fails the way `e` says. */
  predicate FailsWith(answers: seq<CheckResult>, e: Error, numPoints: nat, numCenters: nat)
  {
    e.iteration < |answers| &&
    (forall j :: 0 <= j < e.iteration ==> Accepted(answers[j], numPoints, numCenters)) &&
    match e
    case UnsatAtIteration(k) => answers[k].Unsat?
    case InvalidCenterNumber(k, p) =>
      answers[k].Sat? && p < |answers[k].model.assignment| &&
      !(0 <= answers[k].model.assignment[p] < numCenters) &&
      forall q :: 0 <= q < p ==> 0 <= answers[k].model.assignment[q] < numCenters
  }

  /** The number of iterations an outcome completed. */
  function Completed(outcome: Outcome<Error>, numIters: nat): nat
  {
    if outcome.Pass? then numIters else outcome.error.iteration
  }

  /** A sequence as the dictionary from positions to entries. */
  function MapOf<T>(s: seq<T>): (m: map<nat, T>)
    ensures forall k: nat :: k in m <==> k < |s|
    ensures forall k: nat :: k < |s| ==> m[k] == s[k]
  {
    map k: nat | k < |s| :: s[k]
  }

  lemma MapOfSnoc<T>(s: seq<T>, x: T)
    ensures MapOf(s + [x]) == MapOf(s)[|s| := x]
  {
    var m, m' := MapOf(s + [x]), MapOf(s)[|s| := x];
    assert forall k :: k in m <==> k in m';
    assert forall k :: k in m ==> m[k] == m'[k];
  }

  /**
   * The centers of iterations 0 .. |answers|: the initial ones, then each
   * iteration's update under that iteration's assignment.
   */
  function Trajectory(points: seq<Point>, initial: seq<Point>, answers: seq<CheckResult>): (t: seq<seq<Point>>)
    requires forall k :: 0 <= k < |answers| ==> Accepted(answers[k], |points|, |initial|)
    ensures |t| == |answers| + 1 && t[0] == initial
    ensures forall k :: 0 <= k < |t| ==> |t[k]| == |initial|
    decreases |answers|
  {
    if |answers| == 0 then [initial]
    else
      var before := Trajectory(points, initial, answers[..|answers| - 1]);
      var last := answers[|answers| - 1];
      assert Accepted(last, |points|, |initial|);
      before + [NewCenters(points, before[|before| - 1], Groups(last.model.assignment, |initial|))]
  }

  /** One more solved iteration appends its updated centers to the trajectory. */
  lemma TrajectoryExtend(points: seq<Point>, initial: seq<Point>, answers: seq<CheckResult>, k: nat)
    requires k < |answers|
    requires forall j :: 0 <= j <= k ==> Accepted(answers[j], |points|, |initial|)
    ensures var before := Trajectory(points, initial, answers[..k]);
            Trajectory(points, initial, answers[..k + 1]) ==
              before + [NewCenters(points, before[k], Groups(answers[k].model.assignment, |initial|))]
  {
    assert answers[..k + 1][..k] == answers[..k];
  }

  /** The stored centers after one more iteration: the dictionary gains the entry `k + 1`. */
  lemma StoredAfter(points: seq<Point>, initial: seq<Point>, answers: seq<CheckResult>, k: nat, next: seq<Point>)
    requires k < |answers|
    requires forall j :: 0 <= j < k ==> Accepted(answers[j], |points|, |initial|)
    requires Accepted(answers[k], |points|, |initial|)
    requires next == NewCenters(points, Trajectory(points, initial, answers[..k])[k],
                                Groups(answers[k].model.assignment, |initial|))
    ensures MapOf(Trajectory(points, initial, answers[..k + 1])) ==
            MapOf(Trajectory(points, initial, answers[..k]))[k + 1 := next]
    ensures k == 0 ==> MapOf(Trajectory(points, initial, answers[..k + 1])) == map[0 := initial][1 := next]
  {
    var before := Trajectory(points, initial, answers[..k]);
    TrajectoryExtend(points, initial, answers, k);
    MapOfSnoc(before, next);
    if k == 0 {
      assert before == [initial];
      MapOfSnoc([], initial);
      assert MapOf<seq<Point>>([]) == map[];
    }
  }

  /** Every iteration's centers stay on the grid when the points and the first centers are on it. */
  lemma {:induction false} TrajectoryWithinGrid(points: seq<Point>, initial: seq<Point>, answers: seq<CheckResult>, limit: int)
    requires forall k :: 0 <= k < |answers| ==> Accepted(answers[k], |points|, |initial|)
    requires WithinGrid(points, limit) && WithinGrid(initial, limit)
    ensures forall k :: 0 <= k < |answers| + 1 ==> WithinGrid(Trajectory(points, initial, answers)[k], limit)
    decreases |answers|
  {
    if |answers| > 0 {
      var front := answers[..|answers| - 1];
      TrajectoryWithinGrid(points, initial, front, limit);
      var before := Trajectory(points, initial, front);
      var last := answers[|answers| - 1];
      assert Accepted(last, |points|, |initial|);
      NewCentersWithinGrid(points, before[|before| - 1], Groups(last.model.assignment, |initial|), limit);
    }
  }

  /**
   * Once the first iteration is solved, no later check can be UNSAT when
   * there is a center: every iteration's centers are on the grid and the
   * nearest-center assignment meets that iteration's constraints.
   */
  lemma LaterIterationsSatisfiable(points: seq<Point>, initial: seq<Point>, answers: seq<CheckResult>, limit: int)
    requires |initial| > 0
    requires forall k :: 0 <= k < |answers| ==> Accepted(answers[k], |points|, |initial|)
    requires WithinGrid(points, limit) && WithinGrid(initial, limit)
    ensures forall k :: 0 <= k < |answers| + 1 ==>
              var t := Trajectory(points, initial, answers)[k];
              IterationConstraints(points, t, NearestAssignment(points, t), limit)
  {
    TrajectoryWithinGrid(points, initial, answers, limit);
  }

  /** The driver's state: the problem sizes and the coordinates made concrete so far. */
  class KMeans {
    const numIters: nat
    const numPoints: nat
    const numCenters: nat
    const gridLimit: int

    /** The data points; None while they are still solver variables. */
    var points: Option<seq<Point>>
    /** The concrete centers of each iteration solved so far. */
    var centers: map<nat, seq<Point>>

    constructor (numIters: nat, numPoints: nat, numCenters: nat, gridLimit: int)
      ensures this.numIters == numIters && this.numPoints == numPoints
      ensures this.numCenters == numCenters && this.gridLimit == gridLimit
      ensures points == None && centers == map[]
    {
      this.numIters := numIters;
      this.numPoints := numPoints;
      this.numCenters := numCenters;
      this.gridLimit := gridLimit;
      points := None;
      centers := map[];
    }

    /**
     * The state after the first `k` iterations went through: points fixed by
     * iteration 0 and the centers of iterations 0 .. k stored.
     */
    ghost predicate Solved(answers: seq<CheckResult>, k: nat)
      reads this
    {
      k <= |answers| &&
      (forall j :: 0 <= j < k ==> Accepted(answers[j], numPoints, numCenters)) &&
      (k == 0 ==> points == None && centers == map[]) &&
      (k > 0 ==>
         points == Some(answers[0].model.points) &&
         |answers[0].model.points| == numPoints && |answers[0].model.centers| == numCenters &&
         centers == MapOf(Trajectory(answers[0].model.points, answers[0].model.centers, answers[..k])))
    }

    /**
     * Runs the iterations against the solver's answers, one answer per
     * iteration. Iteration 0 fixes the points and its own centers from the
     * model; every iteration stores the updated centers of the next one.
     */
    method CreateModel(answers: seq<CheckResult>) returns (outcome: Outcome<Error>)
      requires |answers| == numIters && WellShaped(answers, numPoints, numCenters)
      requires points == None && centers == map[]
      modifies this
      ensures outcome.Pass? <==> forall k :: 0 <= k < numIters ==> Accepted(answers[k], numPoints, numCenters)
      ensures outcome.Fail? ==> FailsWith(answers, outcome.error, numPoints, numCenters)
      ensures Solved(answers, Completed(outcome, numIters))
    {
      var k := 0;
      while k < numIters
        invariant 0 <= k <= numIters
        invariant Solved(answers, k)
      {
        var failure := Iteration(answers, k);
        if failure.Some? {
          outcome := Fail(failure.value);
          return;
        }
        k := k + 1;
      }
      outcome := Pass;
    }

    /** One pass of the iteration loop: the answer of check number `k` is used or rejected. */
    method Iteration(answers: seq<CheckResult>, k: nat) returns (failure: Option<Error>)
      requires k < |answers| && WellShaped(answers, numPoints, numCenters)
      requires Solved(answers, k)
      modifies this
      ensures failure.None? ==> Solved(answers, k + 1)
      ensures failure.Some? ==>
                failure.value.iteration == k && FailsWith(answers, failure.value, numPoints, numCenters) &&
                points == old(points) && centers == old(centers)
    {
      match answers[k] {
        case Unsat =>
          return Some(UnsatAtIteration(k));
        case Sat(m) =>
          // 1. group the point numbers by center
          var grouped := GroupByCenter(m.assignment, numCenters);
          if grouped.Failure? {
            return Some(InvalidCenterNumber(k, grouped.error));
          }
          var groups := grouped.value;
          // 2. the point coordinates: read from the model once, reused afterwards
          if k == 0 {
            points := Some(m.points);
          }
          var px := points.value;
          // 3. the new centers
          ghost var p0, c0 := answers[0].model.points, answers[0].model.centers;
          var current := if k == 0 then m.centers else centers[k];
          assert current == Trajectory(p0, c0, answers[..k])[k];
          var next := UpdateCenters(px, current, groups);
          // 4. store this iteration's and the next iteration's centers
          if k == 0 {
            centers := centers[0 := m.centers];
          }
          StoredAfter(p0, c0, answers, k, next);
          centers := centers[k + 1 := next];
          return None;
      }
    }
  }
}
