/**
 * The constraint families the k-means encoding hands to the solver, stated
 * as plain predicates over concrete values, and what is known about when
 * they can be met.
 */
module Constraints {
  import opened Geometry

  /** Every position of `s` is on the grid (used for points and for centers). */
  predicate WithinGrid(s: seq<Point>, limit: int)
  {
    forall i :: 0 <= i < |s| ==> InGrid(s[i], limit)
  }

  /** Any two data points differ in x or in y. */
  predicate NoDuplicatePoints(points: seq<Point>)
  {
    forall i, j :: 0 <= i < j < |points| ==> points[i] != points[j]
  }

  /** One center number per point, each in [0, numCenters). */
  predicate ValidCenterNumbers(assign: seq<int>, numPoints: nat, numCenters: nat)
  {
    |assign| == numPoints &&
    forall p :: 0 <= p < |assign| ==> 0 <= assign[p] < numCenters
  }

  /** No center is strictly closer to a point than the one it is assigned to. */
  predicate HasClosestCenter(points: seq<Point>, centers: seq<Point>, assign: seq<int>)
    requires ValidCenterNumbers(assign, |points|, |centers|)
  {
    forall p, c :: 0 <= p < |points| && 0 <= c < |centers| ==>
      Distance(points[p], centers[assign[p]]) <= Distance(points[p], centers[c])
  }

  /** The constraints added before the iterations start. */
  predicate InitialConstraints(points: seq<Point>, limit: int)
  {
    WithinGrid(points, limit) && NoDuplicatePoints(points)
  }

  /** The constraints added for one iteration. */
  predicate IterationConstraints(points: seq<Point>, centers: seq<Point>, assign: seq<int>, limit: int)
  {
    WithinGrid(centers, limit) &&
    ValidCenterNumbers(assign, |points|, |centers|) &&
    HasClosestCenter(points, centers, assign)
  }

  /** The source asks only about pairs i < j; that already forbids any repeat. */
  lemma NoDuplicatesIsInjective(points: seq<Point>)
    ensures NoDuplicatePoints(points) <==>
            forall i, j :: 0 <= i < |points| && 0 <= j < |points| && i != j ==> points[i] != points[j]
  {
    if NoDuplicatePoints(points) {
      forall i, j | 0 <= i < |points| && 0 <= j < |points| && i != j
        ensures points[i] != points[j]
      {
        if i < j {
        } else {
          assert points[j] != points[i];
        }
      }
    }
  }

  /** The lowest-numbered center at minimal distance from `p`. */
  function Nearest(p: Point, centers: seq<Point>): (c: nat)
    requires |centers| > 0
    ensures c < |centers|
    ensures forall j :: 0 <= j < |centers| ==> Distance(p, centers[c]) <= Distance(p, centers[j])
    ensures forall j :: 0 <= j < c ==> Distance(p, centers[c]) < Distance(p, centers[j])
    decreases |centers|
  {
    if |centers| == 1 then 0
    else
      var c := Nearest(p, centers[..|centers| - 1]);
      if Distance(p, centers[c]) <= Distance(p, centers[|centers| - 1]) then c
      else |centers| - 1
  }

  /** Every point sent to its nearest center: a solution whenever a center exists. */
  function NearestAssignment(points: seq<Point>, centers: seq<Point>): (assign: seq<int>)
    requires |centers| > 0
    ensures ValidCenterNumbers(assign, |points|, |centers|)
    ensures HasClosestCenter(points, centers, assign)
  {
    seq(|points|, p requires 0 <= p < |points| => Nearest(points[p], centers))
  }

  /**
   * An assignment meets the closest-center constraint exactly when every
   * point sits at the minimal distance that some center achieves.
   */
  lemma ClosestIffMinimalDistance(points: seq<Point>, centers: seq<Point>, assign: seq<int>)
    requires |centers| > 0
    requires ValidCenterNumbers(assign, |points|, |centers|)
    ensures HasClosestCenter(points, centers, assign) <==>
            forall p :: 0 <= p < |points| ==>
              Distance(points[p], centers[assign[p]]) == Distance(points[p], centers[Nearest(points[p], centers)])
  {
    if HasClosestCenter(points, centers, assign) {
      forall p | 0 <= p < |points|
        ensures Distance(points[p], centers[assign[p]]) == Distance(points[p], centers[Nearest(points[p], centers)])
      {
        var n := Nearest(points[p], centers);
        assert Distance(points[p], centers[assign[p]]) <= Distance(points[p], centers[n]);
      }
    }
    if forall p :: 0 <= p < |points| ==>
         Distance(points[p], centers[assign[p]]) == Distance(points[p], centers[Nearest(points[p], centers)])
    {
      forall p, c | 0 <= p < |points| && 0 <= c < |centers|
        ensures Distance(points[p], centers[assign[p]]) <= Distance(points[p], centers[c])
      {
        var n := Nearest(points[p], centers);
        assert Distance(points[p], centers[n]) <= Distance(points[p], centers[c]);
      }
    }
  }

  /** With points but no centers, no center number is valid: the solver reports UNSAT. */
  lemma NoCentersNoAssignment(assign: seq<int>, numPoints: nat)
    requires numPoints > 0
    ensures !ValidCenterNumbers(assign, numPoints, 0)
  {
    if |assign| == numPoints {
      assert !(0 <= assign[0] < 0);
    }
  }

  /** An empty grid (negative limit) holds no center, so a run with centers is UNSAT. */
  lemma NegativeLimitNoCenters(centers: seq<Point>, limit: int)
    requires limit < 0 && |centers| > 0
    ensures !WithinGrid(centers, limit)
  {
    assert !InGrid(centers[0], limit);
  }

  /**
   * The first iteration's constraints can be met whenever there is a center
   * and the grid has room for the points.
   */
  lemma InitialSatisfiable(numPoints: nat, numCenters: nat, limit: int)
    returns (points: seq<Point>, centers: seq<Point>, assign: seq<int>)
    requires numCenters > 0 && limit >= 0 && numPoints <= 2 * limit + 1
    ensures |points| == numPoints && |centers| == numCenters
    ensures InitialConstraints(points, limit)
    ensures IterationConstraints(points, centers, assign, limit)
  {
    points := seq(numPoints, i => Point(i - limit, 0));
    centers := seq(numCenters, _ => Point(0, 0));
    assign := NearestAssignment(points, centers);
    assert forall i :: 0 <= i < numPoints ==> points[i].x == i - limit;
  }
}
