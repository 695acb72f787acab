# k-means on an integer grid, as driven by an SMT encoding

The repository runs the k-means clustering algorithm. An SMT solver chooses the point coordinates and, in each iteration, which center
each point belongs to. The repository's own code then computes the next
iteration's centers. This project models that code, found in `kmeans.py`:

- **Geometry**: grid points. `Distance` is the l1 (Manhattan) distance
  used to assign points to centers.
- **Constraints**: the constraint families the driver hands to the solver,
  written as predicates over concrete values. They are: points and centers
  lie on the grid `[-grid_limit, grid_limit]²`; the points are pairwise
  distinct; each point has a center number in `[0, num_centers)`; no center
  is strictly closer to a point than its assigned one. The module also
  proves when these constraints can be met (`Nearest`, `NearestAssignment`,
  `InitialSatisfiable`) and when they cannot.
- **Update**: the concrete k-means step of one iteration. `GroupByCenter`
  is the loop that collects point numbers per center. It includes the
  source's assertion that every center number is valid. `UpdateCenters` is
  the loop that computes the new centers. A center that no point chose stays
  where it was. Any other center moves to the floor of the mean of its
  members' coordinates. Both methods are proved against specification
  functions (`Groups`, `NewCenters`), and the lemmas about those functions
  give the partition, floor-mean and grid-bound properties.
- **KMeansModel**: the `KMeans` object and its `create_model` driver. There
  is one satisfiability check per iteration. The solver's answers are an
  input (`CheckResult`: `Unsat`, or `Sat` with the values the model gives).
  Iteration 0 makes the points concrete, along with that iteration's
  centers. Each iteration stores the centers of the next one. The two ways
  the driver aborts are modelled as `Error` values: the UNSAT exception
  and the failed center-number assertion. `Trajectory` is the sequence of
  centers that a run produces. Its lemmas show that the centers stay on the
  grid, so once iteration 0 is solved no later check can be UNSAT. The
  solver keeps the constraints of every earlier iteration, so each check is
  cumulative. Each later check, though, adds constraints only over its own
  fresh center-number variables (`center_i_k`) and over values that are
  already concrete. The earlier model still satisfies the earlier
  constraints. So the lemma's per-iteration constraint set is what decides
  each later check.

Modelling decisions:
- The source keeps x and y coordinates in parallel dictionaries
  (`points_x`/`points_y`, `centers_x`/`centers_y`). Here they are one
  `Point` per entry.
- `points` is `None` while the coordinates are still solver variables.
- The `centers` map lacks an iteration's entry while that iteration's
  centers are still symbolic. This holds for iteration 0 until it is solved.
- Python's `//` with a positive divisor is Dafny's `/`, including for
  negative sums. `FloorDiv` states the floor property: `b*q <= a < b*(q+1)`.
- The problem sizes are `nat`. A negative size in the source makes its
  `range` empty, which behaves like 0.
- `kmeans_z3.py:137-138` states the averaging rule as a solver constraint
  (`cx_next * len(points) == Sum(points)`). `kmeans.py:166-170` computes it
  with floor division, and the model follows `kmeans.py`.
- In the source, `__init__` ends by calling `create_model`
  (kmeans.py:50). Here the constructor and `CreateModel` are separate
  calls. They compose exactly: the constructor ensures
  `points == None && centers == map[]`, which is what `CreateModel`
  requires.

## Model

| member | source | states |
|---|---|---|
| `Geometry.Distance` | kmeans.py:246-260 | the l1 distance is a natural number, zero exactly when the point and center coincide, and at least each coordinate difference |
| `Geometry.Abs` | kmeans.py:260 | the absolute value is a natural number equal to `v` or `-v` |
| `Geometry.InGrid` | kmeans.py:61-62 | both coordinates of a position lie in `[-grid_limit, grid_limit]` |
| `Constraints.WithinGrid` | kmeans.py:55-62 | every point (and, for `centers_within_grid` at kmeans.py:75-86, every center) is on the grid |
| `Constraints.NoDuplicatePoints` | kmeans.py:64-73 | any two points with indices `i < j` differ in x or in y |
| `Constraints.ValidCenterNumbers` | kmeans.py:88-100 | one center number per point, each in `[0, num_centers)` |
| `Constraints.HasClosestCenter` | kmeans.py:102-116 | each point's assigned center is at most as far as every center |
| `Constraints.InitialConstraints` | kmeans.py:123-124 | the constraints added once: points on the grid and pairwise distinct |
| `Constraints.IterationConstraints` | kmeans.py:128-130 | the constraints added per iteration: centers on the grid, valid center numbers, closest center |
| `Constraints.NoDuplicatesIsInjective` | kmeans.py:64-73 | asking only about pairs `i < j` forbids every repeated point: the condition is equivalent to all distinct indices holding distinct points |
| `Constraints.Nearest` | kmeans.py:102-116 | for at least one center, returns a valid center number whose distance is minimal among all centers, and lowest among the minimal ones |
| `Constraints.NearestAssignment` | kmeans.py:88-116 | with at least one center there is an assignment meeting both the valid-center-number and the closest-center constraints |
| `Constraints.ClosestIffMinimalDistance` | kmeans.py:102-116 | a valid assignment meets the closest-center constraint if and only if every point's assigned distance equals its minimal distance to any center |
| `Constraints.NoCentersNoAssignment` | kmeans.py:88-100 | with points but zero centers no assignment has valid center numbers (the check is UNSAT) |
| `Constraints.NegativeLimitNoCenters` | kmeans.py:75-86 | with a negative grid limit no center lies on the grid |
| `Constraints.InitialSatisfiable` | kmeans.py:122-130 | with a center, a non-negative limit and at most `2*limit+1` points, points, centers and an assignment exist that meet all constraints of the first check |
| `Update.Members` | kmeans.py:137-142 | every index in a center's list names a point |
| `Update.Groups` | kmeans.py:137 | there is one list per center number, and each names only points |
| `Update.MembersExactly` | kmeans.py:137-142 | a center's list holds exactly the points assigned to it, in strictly increasing order |
| `Update.GroupsPartition` | kmeans.py:137-142 | with valid center numbers, each point lies in its own center's list and in no other, and each list is strictly increasing |
| `Update.GroupSizesSum` | kmeans.py:137-142 | with valid center numbers, the list lengths add up to the number of points |
| `Update.GroupByCenter` | kmeans.py:137-142 | succeeds exactly when all center numbers are valid, then returns the grouping; otherwise fails at the first point whose center number is invalid (the assertion) |
| `Update.Sum` | kmeans.py:169-170 | Python's `sum` over a list of integers |
| `Update.XCoords` | kmeans.py:167 | the x coordinates of a center's members, one per member, in member order |
| `Update.YCoords` | kmeans.py:168 | the y coordinates of a center's members, one per member, in member order |
| `Update.FloorDiv` | kmeans.py:169-170 | Python floor division by a positive divisor: `b*q <= a < b*(q+1)` |
| `Update.FloorMeanWithin` | kmeans.py:166-170 | the floor-mean of values in `[lo, hi]` lies in `[lo, hi]` |
| `Update.SumBounds` | kmeans.py:169-170 | a sum of `n` values in `[lo, hi]` lies in `[n*lo, n*hi]` |
| `Update.NewCenter` | kmeans.py:160-170 | a center with no members keeps its previous position; with `n` members it goes to `q` with `n*q <= sum < n*(q+1)` in each coordinate |
| `Update.NewCenters` | kmeans.py:158-170 | yields exactly one new center per current center; empty ones stay put, the others move to the floor-mean of their members |
| `Update.NewCentersWithinGrid` | kmeans.py:158-170 | if the points and the current centers are on the grid, so are the new centers |
| `Update.UpdateCenters` | kmeans.py:157-170 | the loop computes exactly `NewCenters` of the points, the current centers and the groups |
| `KMeansModel.Trajectory` | kmeans.py:127-194 | for iterations `0 .. n` there are `n+1` center lists, the first being the initial centers, all with the initial number of centers |
| `KMeansModel.TrajectoryExtend` | kmeans.py:188-194 | one more solved iteration appends exactly its updated centers |
| `KMeansModel.StoredAfter` | kmeans.py:183-194 | the stored centers dictionary gains exactly the entry for the next iteration (and at iteration 0 also that iteration's own centers) |
| `KMeansModel.MapOf` | kmeans.py:38-40 | the `centers_x`/`centers_y` dictionaries: keys exactly the iterations `0 .. n`, each mapped to that iteration's centers |
| `KMeansModel.MapOfSnoc` | kmeans.py:193-194 | adding an iteration's centers at the next key extends the dictionary by that key alone |
| `KMeansModel.TrajectoryWithinGrid` | kmeans.py:75-86 | if the points and the first centers are on the grid, every iteration's centers are on the grid |
| `KMeansModel.LaterIterationsSatisfiable` | kmeans.py:195-196 | once iteration 0 is solved with a center, every later iteration's constraints are met by the nearest-center assignment, so those checks are never UNSAT |
| `KMeansModel.KMeans.constructor` | kmeans.py:6-18 | records the sizes and limit; points and centers start as solver variables |
| `KMeansModel.KMeans.CreateModel` | kmeans.py:118-196 | passes exactly when every answer is SAT with valid center numbers; otherwise reports the first failing iteration and how it failed; afterwards iteration 0 has fixed the points, and the stored centers are the trajectory of the completed iterations |
| `KMeansModel.KMeans.Iteration` | kmeans.py:132-194 | one check's answer either extends the stored state by one iteration or is rejected with the state unchanged |

## Left out

- The SMT solver (`Solver`, `check()`, `model().evaluate`, and symbolic
  `Array`/`Store`/`Select`) is an external library. Its answers are an
  input, and `as_string()`/`int()` conversions are not modelled.
- The per-iteration point-center variables stay symbolic in the source.
  The model reads only their values at the moment of each check.
- `KMeans.CreateModel` does not require the solver's model to satisfy the
  asserted constraints, and neither does the source's update. The grid and
  satisfiability lemmas take those facts as hypotheses instead.
- Only iteration 0's answer supplies points and centers. The `Model`
  values in later answers are ignored, because the source reads stored
  concrete values from iteration 1 on.
- Unsatisfiability from too many points for the grid (more than
  `(2*limit+1)²`) is not proved. `InitialSatisfiable` covers only the
  satisfiable direction, and only for at most `2*limit+1` points.
- `overlap_centers` is out: its call is commented out in the driver.
- `run` and `evaluate_model_vars` only evaluate solver output, print it and
  draw it.
- `main`, the debugging `print` calls and the plot are I/O.
- `kmeans_z3.py` and `kmeans-z3.py` are not part of this model: they are
  earlier variants that only assemble solver formulas.
- `run.py` is out: it is command-line parsing only.
- `visualizer.py` is out: its `visualize` is an empty stub around a
  plotting library.
