/**
 * The two threshold edge detectors (detectSimpleEdges, detectGradientEdges) and the
 * choice between them made by processImage.
 *
 * Intensities are exact reals. The script takes the square root of a squared gradient
 * magnitude m >= 0 and flags the cell when that root is above the threshold; Exceeds
 * states the same comparison without the square root.
 */
module EdgeDetection {
  import opened Grid

  /** The intensity of a cell, read at its row-major index. */
  function Intensity(grid: seq<real>, p: Point): real
    requires |grid| == Cells && InGrid(p)
  {
    grid[Index(p)]
  }

  /** The squared length of the gradient vector (dx, dy). */
  function Magnitude2(dx: real, dy: real): real {
    dx * dx + dy * dy
  }

  /** The root of the squared magnitude magnitude2 >= 0 is above the threshold. */
  predicate Exceeds(magnitude2: real, threshold: int) {
    threshold < 0 || magnitude2 > threshold as real * threshold as real
  }

  lemma PositiveProduct(a: real, b: real)
    requires a > 0.0 && b > 0.0
    ensures a * b > 0.0
  {
  }

  /** Squaring is strictly increasing on the non-negative reals. */
  lemma SquareLess(a: real, b: real)
    requires 0.0 <= a < b
    ensures a * a < b * b
  {
    PositiveProduct(b - a, b + a);
    assert b * b - a * a == (b - a) * (b + a);
  }

  /**
   * Exceeds is the script's square-root comparison read exactly: for any
   * non-negative root of m, it holds iff the root is above the threshold.
   */
  lemma ExceedsIsRootComparison(root: real, threshold: int)
    requires root >= 0.0
    ensures Exceeds(root * root, threshold) <==> root > threshold as real
  {
    var t := threshold as real;
    if threshold >= 0 {
      if t < root {
        SquareLess(t, root);
      } else if root < t {
        SquareLess(root, t);
      }
    }
  }

  /** Squared gradient of the simple detector: differences to the right and the bottom neighbour. */
  function SimpleMagnitude2(grid: seq<real>, p: Point): real
    requires |grid| == Cells && InGrid(p)
  {
    var current := Intensity(grid, p);
    var right := if p.x < Resolution - 1 then Intensity(grid, Point(p.x + 1, p.y)) else current;
    var bottom := if p.y < Resolution - 1 then Intensity(grid, Point(p.x, p.y + 1)) else current;
    Magnitude2(current - right, current - bottom)
  }

  /** Squared gradient of the gradient detector: central differences across the cell. */
  function GradientMagnitude2(grid: seq<real>, p: Point): real
    requires |grid| == Cells && InGrid(p)
  {
    var current := Intensity(grid, p);
    var left := if p.x > 0 then Intensity(grid, Point(p.x - 1, p.y)) else current;
    var right := if p.x < Resolution - 1 then Intensity(grid, Point(p.x + 1, p.y)) else current;
    var top := if p.y > 0 then Intensity(grid, Point(p.x, p.y - 1)) else current;
    var bottom := if p.y < Resolution - 1 then Intensity(grid, Point(p.x, p.y + 1)) else current;
    Magnitude2(right - left, bottom - top)
  }

  datatype Detector = Simple | Gradient

  /** Whether the detector flags cell p of the grid at the given threshold. */
  predicate IsEdge(detector: Detector, grid: seq<real>, threshold: int, p: Point)
    requires |grid| == Cells && InGrid(p)
  {
    match detector
    case Simple => Exceeds(SimpleMagnitude2(grid, p), threshold)
    case Gradient => Exceeds(GradientMagnitude2(grid, p), threshold)
  }

  /** The detector's verdict on every cell: row y, column x holds the verdict on cell (x, y). */
  function Flags(detector: Detector, grid: seq<real>, threshold: int): (flags: seq<seq<bool>>)
    requires |grid| == Cells
    ensures IsFlagTable(flags)
  {
    seq(Resolution, y requires 0 <= y < Resolution =>
      seq(Resolution, x requires 0 <= x < Resolution => IsEdge(detector, grid, threshold, Point(x, y))))
  }

  /** A table of one verdict per cell, one row per grid row. */
  predicate IsFlagTable(flags: seq<seq<bool>>) {
    |flags| == Resolution && forall y :: 0 <= y < Resolution ==> |flags[y]| == Resolution
  }

  /**
   * The flagged cells among those a row-major scan has visited when it stands at column x
   * of row y, in scan order: what a detector has pushed at that point of its loops.
   */
  function Collect(flags: seq<seq<bool>>, y: int, x: int): seq<Point>
    requires IsFlagTable(flags)
    requires 0 <= y <= Resolution && 0 <= x <= Resolution && (y == Resolution ==> x == 0)
    decreases y, x
  {
    if x > 0 then Collect(flags, y, x - 1) + (if flags[y][x - 1] then [Point(x - 1, y)] else [])
    else if y > 0 then Collect(flags, y - 1, Resolution)
    else []
  }

  /** The full output of a detector: every cell it flags, in row-major scan order. */
  function ScanEdges(detector: Detector, grid: seq<real>, threshold: int): seq<Point>
    requires |grid| == Cells
  {
    Collect(Flags(detector, grid, threshold), Resolution, 0)
  }

  /** The collected cells lie among the visited ones, in strictly increasing row-major order. */
  lemma {:induction false} CollectOrdered(flags: seq<seq<bool>>, y: int, x: int)
    requires IsFlagTable(flags)
    requires 0 <= y <= Resolution && 0 <= x <= Resolution && (y == Resolution ==> x == 0)
    ensures forall p :: p in Collect(flags, y, x) ==> InGrid(p) && Before(p, Point(x, y))
    ensures RowMajorIncreasing(Collect(flags, y, x))
    decreases y, x
  {
    if x > 0 {
      CollectOrdered(flags, y, x - 1);
      var before := Collect(flags, y, x - 1);
      forall i | 0 <= i < |before|
        ensures Before(before[i], Point(x - 1, y))
      {
        assert before[i] in before;
      }
    } else if y > 0 {
      CollectOrdered(flags, y - 1, Resolution);
    }
  }

  /** A cell is collected exactly when it has been visited and its flag is set. */
  lemma {:induction false} CollectMembership(flags: seq<seq<bool>>, y: int, x: int, p: Point)
    requires IsFlagTable(flags)
    requires 0 <= y <= Resolution && 0 <= x <= Resolution && (y == Resolution ==> x == 0)
    ensures p in Collect(flags, y, x) <==> InGrid(p) && Before(p, Point(x, y)) && flags[p.y][p.x]
    decreases y, x
  {
    if x > 0 {
      CollectMembership(flags, y, x - 1, p);
    } else if y > 0 {
      CollectMembership(flags, y - 1, Resolution, p);
    }
  }

  /** A scan that has visited no flagged cell has collected nothing. */
  lemma {:induction false} CollectNothing(flags: seq<seq<bool>>, y: int, x: int)
    requires IsFlagTable(flags)
    requires 0 <= y <= Resolution && 0 <= x <= Resolution && (y == Resolution ==> x == 0)
    requires forall p :: InGrid(p) && Before(p, Point(x, y)) ==> !flags[p.y][p.x]
    ensures Collect(flags, y, x) == []
    decreases y, x
  {
    if x > 0 {
      assert Before(Point(x - 1, y), Point(x, y));
      CollectNothing(flags, y, x - 1);
    } else if y > 0 {
      CollectNothing(flags, y - 1, Resolution);
    }
  }

  /** A detector's output is exactly the set of cells it flags, in strictly increasing row-major order. */
  lemma DetectorOutput(detector: Detector, grid: seq<real>, threshold: int)
    requires |grid| == Cells
    ensures forall p :: p in ScanEdges(detector, grid, threshold) <==>
              InGrid(p) && IsEdge(detector, grid, threshold, p)
    ensures RowMajorIncreasing(ScanEdges(detector, grid, threshold))
  {
    CollectOrdered(Flags(detector, grid, threshold), Resolution, 0);
    forall p
      ensures p in ScanEdges(detector, grid, threshold) <==>
                InGrid(p) && IsEdge(detector, grid, threshold, p)
    {
      ScanMembership(detector, grid, threshold, p);
    }
  }

  /** A cell is in a detector's output exactly when the detector flags it. */
  lemma ScanMembership(detector: Detector, grid: seq<real>, threshold: int, p: Point)
    requires |grid| == Cells
    ensures p in ScanEdges(detector, grid, threshold) <==> InGrid(p) && IsEdge(detector, grid, threshold, p)
  {
    CollectMembership(Flags(detector, grid, threshold), Resolution, 0, p);
  }

  /** The squared gradient detectSimpleEdges computes for cell (x, y), before taking its root. */
  method SimpleGradientAt(grayData: seq<real>, x: int, y: int) returns (gradient2: real)
    requires |grayData| == Cells && 0 <= x < Resolution && 0 <= y < Resolution
    ensures gradient2 == SimpleMagnitude2(grayData, Point(x, y))
  {
    var current := grayData[y * Resolution + x];
    var right := if x < Resolution - 1 then grayData[y * Resolution + (x + 1)] else current;
    var bottom := if y < Resolution - 1 then grayData[(y + 1) * Resolution + x] else current;
    gradient2 := (current - right) * (current - right) + (current - bottom) * (current - bottom);
  }

  /** The squared gradient detectGradientEdges computes for cell (x, y), before taking its root. */
  method CentralGradientAt(grayData: seq<real>, x: int, y: int) returns (gradient2: real)
    requires |grayData| == Cells && 0 <= x < Resolution && 0 <= y < Resolution
    ensures gradient2 == GradientMagnitude2(grayData, Point(x, y))
  {
    var current := grayData[y * Resolution + x];
    var left := if x > 0 then grayData[y * Resolution + (x - 1)] else current;
    var right := if x < Resolution - 1 then grayData[y * Resolution + (x + 1)] else current;
    var top := if y > 0 then grayData[(y - 1) * Resolution + x] else current;
    var bottom := if y < Resolution - 1 then grayData[(y + 1) * Resolution + x] else current;
    var gradientX := right - left;
    var gradientY := bottom - top;
    gradient2 := gradientX * gradientX + gradientY * gradientY;
  }

  /** detectSimpleEdges: a row-major double loop pushing every cell whose gradient exceeds the threshold. */
  method DetectSimpleEdges(grayData: seq<real>, threshold: int) returns (detectedEdges: seq<Point>)
    requires |grayData| == Cells
    ensures detectedEdges == ScanEdges(Simple, grayData, threshold)
  {
    ghost var flags := Flags(Simple, grayData, threshold);
    detectedEdges := [];
    for y := 0 to Resolution
      invariant detectedEdges == Collect(flags, y, 0)
    {
      for x := 0 to Resolution
        invariant detectedEdges == Collect(flags, y, x)
      {
        var gradient2 := SimpleGradientAt(grayData, x, y);
        if Exceeds(gradient2, threshold) {
          detectedEdges := detectedEdges + [Point(x, y)];
        }
      }
    }
  }

  /** detectGradientEdges: the same scan with the central-difference gradient. */
  method DetectGradientEdges(grayData: seq<real>, threshold: int) returns (detectedEdges: seq<Point>)
    requires |grayData| == Cells
    ensures detectedEdges == ScanEdges(Gradient, grayData, threshold)
  {
    ghost var flags := Flags(Gradient, grayData, threshold);
    detectedEdges := [];
    for y := 0 to Resolution
      invariant detectedEdges == Collect(flags, y, 0)
    {
      for x := 0 to Resolution
        invariant detectedEdges == Collect(flags, y, x)
      {
        var gradient2 := CentralGradientAt(grayData, x, y);
        if Exceeds(gradient2, threshold) {
          detectedEdges := detectedEdges + [Point(x, y)];
        }
      }
    }
  }

  /** The detector processImage runs: the simple one up to complexity 50 inclusive, the gradient one above. */
  function DetectorFor(complexity: int): Detector {
    if complexity <= 50 then Simple else Gradient
  }

  /**
   * The edge list processImage computes before segmentation: exactly the cells the
   * chosen detector flags, in row-major order.
   */
  function Detect(grayData: seq<real>, complexity: int): (edges: seq<Point>)
    requires |grayData| == Cells
    ensures forall p :: p in edges <==>
              InGrid(p) && if complexity <= 50 then Exceeds(SimpleMagnitude2(grayData, p), complexity)
                           else Exceeds(GradientMagnitude2(grayData, p), complexity)
    ensures RowMajorIncreasing(edges)
  {
    DetectorOutput(DetectorFor(complexity), grayData, complexity);
    ScanEdges(DetectorFor(complexity), grayData, complexity)
  }

  /** Every cell of the grid holds the same intensity. */
  predicate Uniform(grid: seq<real>) {
    forall i :: 0 <= i < |grid| ==> grid[i] == grid[0]
  }

  /** On a uniform grid every neighbour a detector reads equals the cell itself, so both squared gradients vanish. */
  lemma UniformGridIsFlat(grid: seq<real>, p: Point)
    requires |grid| == Cells && Uniform(grid) && InGrid(p)
    ensures SimpleMagnitude2(grid, p) == 0.0 && GradientMagnitude2(grid, p) == 0.0
  {
    assert forall q :: InGrid(q) ==> Intensity(grid, q) == grid[0];
  }

  /** On a uniform grid no cell is an edge for either detector at a threshold >= 0. */
  lemma UniformGridCellIsNoEdge(detector: Detector, grid: seq<real>, threshold: int, p: Point)
    requires |grid| == Cells && Uniform(grid) && threshold >= 0 && InGrid(p)
    ensures !IsEdge(detector, grid, threshold, p)
  {
    UniformGridIsFlat(grid, p);
    ExceedsIsRootComparison(0.0, threshold);
  }

  /** A detector that flags no cell outputs nothing. */
  lemma NothingFlaggedNoEdges(detector: Detector, grid: seq<real>, threshold: int)
    requires |grid| == Cells
    requires forall p :: InGrid(p) ==> !IsEdge(detector, grid, threshold, p)
    ensures ScanEdges(detector, grid, threshold) == []
  {
    CollectNothing(Flags(detector, grid, threshold), Resolution, 0);
  }

  /** On a uniform grid neither detector flags anything at a threshold >= 0. */
  lemma UniformGridHasNoEdges(detector: Detector, grid: seq<real>, threshold: int)
    requires |grid| == Cells && Uniform(grid) && threshold >= 0
    ensures ScanEdges(detector, grid, threshold) == []
  {
    forall p | InGrid(p)
      ensures !IsEdge(detector, grid, threshold, p)
    {
      UniformGridCellIsNoEdge(detector, grid, threshold, p);
    }
    NothingFlaggedNoEdges(detector, grid, threshold);
  }

  /** An image black in columns 0 to 4 and white in columns 5 to 8. */
  ghost predicate VerticalSplit(grid: seq<real>) {
    |grid| == Cells && forall p :: InGrid(p) ==> Intensity(grid, p) == if p.x <= 4 then 0.0 else 255.0
  }

  /** On that image the simple detector at threshold 30 flags a cell iff it lies in column 4. */
  lemma VerticalSplitCell(grid: seq<real>, p: Point)
    requires VerticalSplit(grid) && InGrid(p)
    ensures IsEdge(Simple, grid, 30, p) <==> p.x == 4
  {
    var current := Intensity(grid, p);
    if p.x == 4 {
      assert Intensity(grid, Point(5, p.y)) == 255.0;
      assert SimpleMagnitude2(grid, p) >= 255.0 * 255.0;
    } else {
      assert p.x < Resolution - 1 ==> Intensity(grid, Point(p.x + 1, p.y)) == current;
      assert p.y < Resolution - 1 ==> Intensity(grid, Point(p.x, p.y + 1)) == current;
      assert SimpleMagnitude2(grid, p) == 0.0;
    }
  }

  /**
   * At threshold 30 the simple detector flags exactly column 4, the last black column,
   * whose right neighbour is white.
   */
  lemma VerticalSplitEdges(grid: seq<real>, p: Point)
    requires VerticalSplit(grid)
    ensures p in ScanEdges(Simple, grid, 30) <==> InGrid(p) && p.x == 4
  {
    DetectorOutput(Simple, grid, 30);
    if InGrid(p) {
      VerticalSplitCell(grid, p);
    }
  }
}
