/** Points on the integer grid and the l1 (Manhattan) distance between them. */
module Geometry {
  /** A grid position; the source keeps x and y in two parallel dictionaries. */
  datatype Point = Point(x: int, y: int)

  function Abs(v: int): (r: nat)
    ensures r == v || r == -v
  {
    if v < 0 then -v else v
  }

  /** The distance used to assign a point to a center. */
  function Distance(p: Point, c: Point): (d: nat)
    ensures d == 0 <==> p == c
    ensures Abs(p.x - c.x) <= d && Abs(p.y - c.y) <= d
  {
    Abs(p.x - c.x) + Abs(p.y - c.y)
  }

  /** Both coordinates lie in [-limit, limit]. */
  predicate InGrid(p: Point, limit: int)
  {
    -limit <= p.x <= limit && -limit <= p.y <= limit
  }
}
