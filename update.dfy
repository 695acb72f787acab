/**
 * The concrete k-means step the encoding computes itself once the solver
 * has picked a center for every point: group the points by center, then
 * move every center to the floor-mean of its members.
 */
module Update {
  import opened Wrappers
  import opened Geometry
  import opened Constraints

  /** The point indices assigned to center `c`, in the order the grouping loop appends them. */
  function Members(assign: seq<int>, c: int): (r: seq<nat>)
    ensures forall i :: 0 <= i < |r| ==> r[i] < |assign|
    decreases |assign|
  {
    if |assign| == 0 then []
    else
      Members(assign[..|assign| - 1], c) + (if assign[|assign| - 1] == c then [|assign| - 1] else [])
  }

  /** The grouping of all points, one list per center number. */
  function Groups(assign: seq<int>, numCenters: nat): (g: seq<seq<nat>>)
    ensures |g| == numCenters
    ensures GroupsIndexPoints(g, |assign|)
  {
    seq(numCenters, c requires 0 <= c < numCenters => Members(assign, c))
  }

  predicate StrictlyIncreasing(s: seq<nat>)
  {
    forall i, j :: 0 <= i < j < |s| ==> s[i] < s[j]
  }

  /** Every member index of every group names a point. */
  predicate GroupsIndexPoints(groups: seq<seq<nat>>, numPoints: nat)
  {
    forall c, i :: 0 <= c < |groups| && 0 <= i < |groups[c]| ==> groups[c][i] < numPoints
  }

  /**
   * The group of `c` holds exactly the points assigned to `c`, each once,
   * in increasing index order.
   */
  lemma {:induction false} MembersExactly(assign: seq<int>, c: int)
    ensures forall i :: 0 <= i < |Members(assign, c)| ==>
              Members(assign, c)[i] < |assign| && assign[Members(assign, c)[i]] == c
    ensures forall p :: 0 <= p < |assign| && assign[p] == c ==> p in Members(assign, c)
    ensures StrictlyIncreasing(Members(assign, c))
    decreases |assign|
  {
    if |assign| > 0 {
      var front := assign[..|assign| - 1];
      MembersExactly(front, c);
      assert forall p :: 0 <= p < |front| ==> front[p] == assign[p];
    }
  }

  /** Grouping partitions the point indices: each one lies in its own center's list and no other. */
  lemma GroupsPartition(assign: seq<int>, numCenters: nat)
    requires ValidCenterNumbers(assign, |assign|, numCenters)
    ensures GroupsIndexPoints(Groups(assign, numCenters), |assign|)
    ensures forall p :: 0 <= p < |assign| ==> p in Groups(assign, numCenters)[assign[p]]
    ensures forall p, c :: 0 <= p < |assign| && 0 <= c < numCenters && c != assign[p] ==>
              p !in Groups(assign, numCenters)[c]
    ensures forall c :: 0 <= c < numCenters ==> StrictlyIncreasing(Groups(assign, numCenters)[c])
  {
    var g := Groups(assign, numCenters);
    forall c | 0 <= c < numCenters
      ensures forall i :: 0 <= i < |g[c]| ==> g[c][i] < |assign| && assign[g[c][i]] == c
      ensures forall p :: 0 <= p < |assign| && assign[p] == c ==> p in g[c]
      ensures StrictlyIncreasing(g[c])
    {
      MembersExactly(assign, c);
    }
  }

  /** The number of entries over all groups. */
  function TotalSize(groups: seq<seq<nat>>): nat
    decreases |groups|
  {
    if |groups| == 0 then 0 else TotalSize(groups[..|groups| - 1]) + |groups[|groups| - 1]|
  }

  /** Appending one entry to one group adds one to the total. */
  lemma {:induction false} TotalSizeGrows(before: seq<seq<nat>>, after: seq<seq<nat>>, v: nat, x: nat)
    requires |before| == |after| && v < |after|
    requires after[v] == before[v] + [x]
    requires forall c :: 0 <= c < |after| && c != v ==> after[c] == before[c]
    ensures TotalSize(after) == TotalSize(before) + 1
    decreases |after|
  {
    var n := |after|;
    if v < n - 1 {
      TotalSizeGrows(before[..n - 1], after[..n - 1], v, x);
    } else {
      assert before[..n - 1] == after[..n - 1];
    }
  }

  /** With valid center numbers, the groups hold as many entries as there are points. */
  lemma {:induction false} GroupSizesSum(assign: seq<int>, numCenters: nat)
    requires ValidCenterNumbers(assign, |assign|, numCenters)
    ensures TotalSize(Groups(assign, numCenters)) == |assign|
    decreases |assign|
  {
    var n := |assign|;
    if n == 0 {
      EmptyGroupsTotal(numCenters);
    } else {
      var front := assign[..n - 1];
      assert ValidCenterNumbers(front, |front|, numCenters);
      GroupSizesSum(front, numCenters);
      TotalSizeGrows(Groups(front, numCenters), Groups(assign, numCenters), assign[n - 1], n - 1);
    }
  }

  lemma {:induction false} EmptyGroupsTotal(numCenters: nat)
    ensures TotalSize(Groups([], numCenters)) == 0
    decreases numCenters
  {
    if numCenters > 0 {
      assert Groups([], numCenters)[..numCenters - 1] == Groups([], numCenters - 1);
      EmptyGroupsTotal(numCenters - 1);
    }
  }

  /** Python's `sum` over a list of integers. */
  function Sum(xs: seq<int>): int
    decreases |xs|
  {
    if |xs| == 0 then 0 else Sum(xs[..|xs| - 1]) + xs[|xs| - 1]
  }

  /** The x coordinates of the listed points, in list order. */
  function XCoords(points: seq<Point>, members: seq<nat>): (xs: seq<int>)
    requires forall i :: 0 <= i < |members| ==> members[i] < |points|
    ensures |xs| == |members|
  {
    seq(|members|, i requires 0 <= i < |members| => points[members[i]].x)
  }

  /** The y coordinates of the listed points, in list order. */
  function YCoords(points: seq<Point>, members: seq<nat>): (ys: seq<int>)
    requires forall i :: 0 <= i < |members| ==> members[i] < |points|
    ensures |ys| == |members|
  {
    seq(|members|, i requires 0 <= i < |members| => points[members[i]].y)
  }

  /** Python's `a // b` for a positive divisor: the floor of a / b, negative `a` included. */
  function FloorDiv(a: int, b: int): (q: int)
    requires b > 0
    ensures b * q <= a < b * (q + 1)
  {
    a / b
  }

  /** Where one center moves: it stays put with no members, else goes to the floor-mean of its members. */
  function NewCenter(points: seq<Point>, previous: Point, members: seq<nat>): (r: Point)
    requires forall i :: 0 <= i < |members| ==> members[i] < |points|
    ensures |members| == 0 ==> r == previous
    ensures |members| > 0 ==>
              |members| * r.x <= Sum(XCoords(points, members)) < |members| * (r.x + 1) &&
              |members| * r.y <= Sum(YCoords(points, members)) < |members| * (r.y + 1)
  {
    var n := |members|;
    if n == 0 then previous
    else Point(FloorDiv(Sum(XCoords(points, members)), n), FloorDiv(Sum(YCoords(points, members)), n))
  }

  /** The next iteration's centers, one per current center. */
  function NewCenters(points: seq<Point>, centers: seq<Point>, groups: seq<seq<nat>>): (r: seq<Point>)
    requires |groups| == |centers| && GroupsIndexPoints(groups, |points|)
    ensures |r| == |centers|
    ensures forall c :: 0 <= c < |r| && |groups[c]| == 0 ==> r[c] == centers[c]
    ensures forall c :: 0 <= c < |r| && |groups[c]| > 0 ==>
              |groups[c]| * r[c].x <= Sum(XCoords(points, groups[c])) < |groups[c]| * (r[c].x + 1) &&
              |groups[c]| * r[c].y <= Sum(YCoords(points, groups[c])) < |groups[c]| * (r[c].y + 1)
  {
    seq(|centers|, c requires 0 <= c < |centers| => NewCenter(points, centers[c], groups[c]))
  }

  lemma {:induction false} SumBounds(xs: seq<int>, lo: int, hi: int)
    requires forall i :: 0 <= i < |xs| ==> lo <= xs[i] <= hi
    ensures |xs| * lo <= Sum(xs) <= |xs| * hi
    decreases |xs|
  {
    if |xs| > 0 {
      SumBounds(xs[..|xs| - 1], lo, hi);
      assert (|xs| - 1) * lo + lo == |xs| * lo;
      assert (|xs| - 1) * hi + hi == |xs| * hi;
    }
  }

  /** Multiplying by a natural number keeps the order. */
  lemma {:induction false} MulMonotone(n: nat, a: int, b: int)
    ensures a <= b ==> n * a <= n * b
    decreases n
  {
    if n > 0 {
      MulMonotone(n - 1, a, b);
      assert n * a == (n - 1) * a + a && n * b == (n - 1) * b + b;
    }
  }

  /** The floor-mean of values in [lo, hi] is again in [lo, hi]. */
  lemma FloorMeanWithin(xs: seq<int>, lo: int, hi: int)
    requires |xs| > 0
    requires forall i :: 0 <= i < |xs| ==> lo <= xs[i] <= hi
    ensures lo <= FloorDiv(Sum(xs), |xs|) <= hi
  {
    var n, q := |xs|, FloorDiv(Sum(xs), |xs|);
    SumBounds(xs, lo, hi);
    MulMonotone(n, q + 1, lo);
    MulMonotone(n, hi + 1, q);
    assert n * (hi + 1) == n * hi + n;
  }

  /** Moving centers keeps them on the grid when the points and the current centers are on it. */
  lemma NewCentersWithinGrid(points: seq<Point>, centers: seq<Point>, groups: seq<seq<nat>>, limit: int)
    requires |groups| == |centers| && GroupsIndexPoints(groups, |points|)
    requires WithinGrid(points, limit) && WithinGrid(centers, limit)
    ensures WithinGrid(NewCenters(points, centers, groups), limit)
  {
    var r := NewCenters(points, centers, groups);
    forall c | 0 <= c < |r|
      ensures InGrid(r[c], limit)
    {
      var members := groups[c];
      if |members| > 0 {
        var xs, ys := XCoords(points, members), YCoords(points, members);
        assert forall i :: 0 <= i < |xs| ==> InGrid(points[members[i]], limit);
        FloorMeanWithin(xs, -limit, limit);
        FloorMeanWithin(ys, -limit, limit);
      }
    }
  }

  /**
   * Step 1 of an iteration: collect the point numbers of every center. A
   * center number outside [0, numCenters) fails the source's assertion; the
   * failure carries the first such point.
   */
  method GroupByCenter(assign: seq<int>, numCenters: nat) returns (r: Result<seq<seq<nat>>, nat>)
    ensures r.Success? <==> ValidCenterNumbers(assign, |assign|, numCenters)
    ensures r.Success? ==> r.value == Groups(assign, numCenters)
    ensures r.Failure? ==>
              r.error < |assign| && !(0 <= assign[r.error] < numCenters) &&
              forall p :: 0 <= p < r.error ==> 0 <= assign[p] < numCenters
  {
    var groups: seq<seq<nat>> := seq(numCenters, _ => []);
    var p := 0;
    while p < |assign|
      invariant 0 <= p <= |assign|
      invariant forall q :: 0 <= q < p ==> 0 <= assign[q] < numCenters
      invariant |groups| == numCenters
      invariant forall c :: 0 <= c < numCenters ==> groups[c] == Members(assign[..p], c)
    {
      var c := assign[p];
      if !(0 <= c < numCenters) {
        return Failure(p);
      }
      assert assign[..p + 1][..p] == assign[..p];
      groups := groups[c := groups[c] + [p]];
      p := p + 1;
    }
    assert assign[..p] == assign;
    r := Success(groups);
  }

  /**
   * Step 3 of an iteration: one new center per current center, from the
   * groups of step 1 and the point coordinates.
   */
  method UpdateCenters(points: seq<Point>, centers: seq<Point>, groups: seq<seq<nat>>)
    returns (next: seq<Point>)
    requires |groups| == |centers| && GroupsIndexPoints(groups, |points|)
    ensures next == NewCenters(points, centers, groups)
  {
    next := [];
    var c := 0;
    while c < |centers|
      invariant 0 <= c <= |centers|
      invariant next == NewCenters(points, centers, groups)[..c]
    {
      var members := groups[c];
      var n := |members|;
      if n == 0 {
        next := next + [centers[c]];
      } else {
        var xs := XCoords(points, members);
        var ys := YCoords(points, members);
        next := next + [Point(FloorDiv(Sum(xs), n), FloorDiv(Sum(ys), n))];
      }
      c := c + 1;
    }
  }
}
