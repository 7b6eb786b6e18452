/** Grid cells (the Java `Point`). */
module Points {

  /** A cell: `x` is the row, `y` the column. */
  datatype Point = Point(x: int, y: int)

  /** `p.compareTo(q)`, used only as an equality test: 1 when both coordinates agree,
      0 otherwise. */
  function CompareTo(p: Point, q: Point): (r: int)
    ensures r == 1 <==> p == q
    ensures r == 0 <==> p != q
  {
    if q.x == p.x && q.y == p.y then 1 else 0
  }

  /** The cell lies on a grid of the given height and width. */
  predicate InGrid(p: Point, height: int, width: int)
  {
    0 <= p.x < height && 0 <= p.y < width
  }
}
