/** The fixed square grid the image is reduced to, and the cells ("points") on it. */
module Grid {

  /** Number of cells per side of the grid (`resolution` in script.js, never reassigned). */
  const Resolution: int := 9

  /** Number of cells of the grid, and of entries of an intensity grid. */
  const Cells: int := Resolution * Resolution

  /** A grid cell `{x, y}`: column x, row y. */
  datatype Point = Point(x: int, y: int)

  predicate InGrid(p: Point) {
    0 <= p.x < Resolution && 0 <= p.y < Resolution
  }

  /** Row-major position of a cell: the index `y * resolution + x` into the gray data. */
  function Index(p: Point): (k: int)
    requires InGrid(p)
    ensures 0 <= k < Cells
  {
    p.y * Resolution + p.x
  }

  /** p comes before q in the row-major scan (y outer, x inner). */
  predicate Before(p: Point, q: Point) {
    p.y < q.y || (p.y == q.y && p.x < q.x)
  }

  /** The scan order is the order of the row-major indices. */
  lemma BeforeIsIndexOrder(p: Point, q: Point)
    requires InGrid(p) && InGrid(q)
    ensures Before(p, q) <==> Index(p) < Index(q)
  {
    if p.y < q.y {
      assert Index(p) < (p.y + 1) * Resolution <= q.y * Resolution <= Index(q);
    } else if q.y < p.y {
      assert Index(q) < (q.y + 1) * Resolution <= p.y * Resolution <= Index(p);
    }
  }

  /** A sequence of cells listed in strictly increasing scan order (so without repetition). */
  predicate RowMajorIncreasing(ps: seq<Point>) {
    forall i, j :: 0 <= i < j < |ps| ==> Before(ps[i], ps[j])
  }

  /** A prefix of a list in scan order is in scan order. */
  lemma IncreasingPrefix(ps: seq<Point>, qs: seq<Point>)
    requires RowMajorIncreasing(ps) && qs <= ps
    ensures RowMajorIncreasing(qs)
  {
    assert forall i :: 0 <= i < |qs| ==> qs[i] == ps[i];
  }
}
