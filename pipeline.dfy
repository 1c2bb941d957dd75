/**
 * processImage: the 9x9 RGBA buffer read back from the small canvas goes through the
 * grayscale reducer, the detector chosen by the complexity setting, the segmenter and the
 * renderer. The setting and the resulting runs, which the script keeps in globals, are a
 * parameter and a result here.
 */
module Pipeline {
  import opened Grid
  import opened Grayscale
  import opened EdgeDetection
  import opened Segmentation
  import opened Rendering

  /** The runs processImage leaves in `edges` for a buffer and a complexity setting. */
  function Segments(data: seq<Byte>, complexity: int): seq<seq<Point>>
    requires |data| == 4 * Cells
  {
    Truncate(Split(Detect(GrayScale(data), complexity)), complexity)
  }

  /** processImage after getImageData: reduce, detect, segment, render. */
  method ProcessImage(data: seq<Byte>, complexity: int) returns (edges: seq<seq<Point>>, commands: seq<Command>)
    requires |data| == 4 * Cells
    ensures edges == Segments(data, complexity)
    ensures commands == Render(edges)
  {
    var grayData := GetGrayScaleData(data);
    var detected: seq<Point>;
    if complexity <= 50 {
      detected := DetectSimpleEdges(grayData, complexity);
    } else {
      detected := DetectGradientEdges(grayData, complexity);
    }
    edges := SegmentEdges(detected, complexity);
    commands := RenderEdges(edges);
  }

  /**
   * Every point on a drawn run is an edge of the chosen detector, listed once and in scan
   * order; at complexity 50 or more the runs hold every detected edge.
   */
  lemma RunsHoldDetectedEdges(data: seq<Byte>, complexity: int)
    requires |data| == 4 * Cells
    ensures Flatten(Segments(data, complexity)) <= Detect(GrayScale(data), complexity)
    ensures complexity >= 50 ==> Flatten(Segments(data, complexity)) == Detect(GrayScale(data), complexity)
    ensures RowMajorIncreasing(Flatten(Segments(data, complexity)))
  {
    var edges := Detect(GrayScale(data), complexity);
    TruncatedRunsArePrefix(edges, complexity);
    IncreasingPrefix(edges, Flatten(Segments(data, complexity)));
  }

  /** Below complexity 50 at most two runs survive, so at most two red lines are stroked. */
  lemma LowComplexityDrawsAtMostTwoLines(data: seq<Byte>, complexity: int)
    requires |data| == 4 * Cells && complexity < 50
    ensures |Segments(data, complexity)| <= 2
    ensures Strokes(Render(Segments(data, complexity))) <= 2
  {
    RenderDrawsLongRuns(Segments(data, complexity));
  }

  /** A single-colour image has no edges at any complexity >= 0: nothing is segmented and no line is stroked. */
  lemma UniformImageDrawsNoLines(data: seq<Byte>, r: Byte, g: Byte, b: Byte, complexity: int)
    requires |data| == 4 * Cells && UniformColour(data, r, g, b) && complexity >= 0
    ensures Segments(data, complexity) == []
    ensures Strokes(Render(Segments(data, complexity))) == 0
  {
    var grid := GrayScale(data);
    UniformColourGrid(data, r, g, b);
    assert Uniform(grid);
    UniformGridHasNoEdges(DetectorFor(complexity), grid, complexity);
    assert Split([]) == [];
    RenderDrawsLongRuns([]);
  }
}
