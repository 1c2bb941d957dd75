/**
 * renderEdges and drawLineSegment, as the sequence of drawing commands they issue on the
 * canvas. A command names grid cells; where on the canvas a cell is drawn is left to the
 * canvas (dots use the canvas width over the resolution on both axes, line vertices use
 * the height for y, so the two coincide only on a square canvas).
 */
module Rendering {
  import opened Grid
  import opened Segmentation

  /** One drawing step on the output canvas. */
  datatype Command =
    | ClearCanvas              // clearRect over the whole canvas
    | DrawDot(cell: Point)     // beginPath, arc of radius 3 at the cell's position, fill in black
    | BeginLine(cell: Point)   // beginPath, moveTo the cell's centre
    | ExtendLine(cell: Point)  // lineTo the cell's centre
    | StrokeLine               // stroke in red, line width 2

  /** The dots drawn by a row-major scan standing at column x of row y. */
  function DotsUpTo(y: int, x: int): seq<Command>
    requires 0 <= y <= Resolution && 0 <= x <= Resolution && (y == Resolution ==> x == 0)
    decreases y, x
  {
    if x > 0 then DotsUpTo(y, x - 1) + [DrawDot(Point(x - 1, y))]
    else if y > 0 then DotsUpTo(y - 1, Resolution)
    else []
  }

  /** The fixed dot pattern: one dot per cell, in row-major order. */
  function GridDots(): seq<Command> {
    DotsUpTo(Resolution, 0)
  }

  /** The commands drawLineSegment issues for one run: none for a run of fewer than two points. */
  function LinePath(segment: seq<Point>): seq<Command> {
    if |segment| < 2 then []
    else [BeginLine(segment[0])] + seq(|segment| - 1, i requires 0 <= i < |segment| - 1 => ExtendLine(segment[i + 1]))
         + [StrokeLine]
  }

  /** The commands for the runs, run after run. */
  function Lines(segments: seq<seq<Point>>): seq<Command> {
    if segments == [] then []
    else Lines(segments[..|segments| - 1]) + LinePath(segments[|segments| - 1])
  }

  /** What renderEdges issues for the given runs. */
  function Render(segments: seq<seq<Point>>): seq<Command> {
    [ClearCanvas] + GridDots() + Lines(segments)
  }

  /** drawLineSegment: returns early on a short run, else traces the run point by point and strokes it. */
  method DrawLineSegment(segment: seq<Point>) returns (commands: seq<Command>)
    ensures commands == LinePath(segment)
  {
    commands := [];
    if |segment| < 2 {
      return;
    }
    for index := 0 to |segment|
      invariant index == 0 ==> commands == []
      invariant index > 0 ==>
                  commands == [BeginLine(segment[0])] + seq(index - 1, i requires 0 <= i < index - 1 => ExtendLine(segment[i + 1]))
    {
      if index == 0 {
        commands := commands + [BeginLine(segment[index])];
      } else {
        commands := commands + [ExtendLine(segment[index])];
      }
    }
    commands := commands + [StrokeLine];
  }

  /** renderEdges: clear, draw the dot of every cell, then draw every run. */
  method RenderEdges(segments: seq<seq<Point>>) returns (commands: seq<Command>)
    ensures commands == Render(segments)
  {
    commands := [ClearCanvas];
    for y := 0 to Resolution
      invariant commands == [ClearCanvas] + DotsUpTo(y, 0)
    {
      for x := 0 to Resolution
        invariant commands == [ClearCanvas] + DotsUpTo(y, x)
      {
        commands := commands + [DrawDot(Point(x, y))];
      }
    }
    ghost var background := commands;
    assert segments[..0] == [];
    for k := 0 to |segments|
      invariant commands == background + Lines(segments[..k])
    {
      var line := DrawLineSegment(segments[k]);
      LinesStep(background, segments, k);
      commands := commands + line;
    }
    assert segments[..|segments|] == segments;
  }

  /**
   * Drawing one more run appends its line to the commands issued so far: the dot pattern
   * and the lines of the runs before it.
   */
  lemma LinesStep(background: seq<Command>, segments: seq<seq<Point>>, k: int)
    requires 0 <= k < |segments|
    ensures background + Lines(segments[..k + 1]) == (background + Lines(segments[..k])) + LinePath(segments[k])
  {
    assert segments[..k + 1][..k] == segments[..k];
  }

  /** The dots reached at column x of row y are one per visited cell, each at the cell's row-major index. */
  lemma {:induction false} DotsUpToCover(y: int, x: int)
    requires 0 <= y <= Resolution && 0 <= x <= Resolution && (y == Resolution ==> x == 0)
    ensures |DotsUpTo(y, x)| == y * Resolution + x
    ensures forall p :: InGrid(p) && Before(p, Point(x, y)) ==> DotsUpTo(y, x)[Index(p)] == DrawDot(p)
    decreases y, x
  {
    if x > 0 {
      DotsUpToCover(y, x - 1);
      var last := Point(x - 1, y);
      forall p | InGrid(p) && Before(p, Point(x, y))
        ensures DotsUpTo(y, x)[Index(p)] == DrawDot(p)
      {
        if p != last {
          BeforeIsIndexOrder(p, last);
        }
      }
    } else if y > 0 {
      DotsUpToCover(y - 1, Resolution);
      assert (y - 1) * Resolution + Resolution == y * Resolution;
    }
  }

  /** The dot pattern does not depend on the image: one dot for each of the 81 cells, cell k at position k. */
  lemma GridDotsAreFixed()
    ensures |GridDots()| == Cells
    ensures forall p :: InGrid(p) ==> GridDots()[Index(p)] == DrawDot(p)
  {
    DotsUpToCover(Resolution, 0);
  }

  /** The cells a command list moves or draws a line to, in order. */
  function Traced(commands: seq<Command>): seq<Point> {
    if commands == [] then []
    else (match commands[0]
          case BeginLine(p) => [p]
          case ExtendLine(p) => [p]
          case _ => []) + Traced(commands[1..])
  }

  /** The number of strokes in a command list. */
  function Strokes(commands: seq<Command>): nat {
    if commands == [] then 0
    else (if commands[0] == StrokeLine then 1 else 0) + Strokes(commands[1..])
  }

  lemma {:induction false} TracedAppend(a: seq<Command>, b: seq<Command>)
    ensures Traced(a + b) == Traced(a) + Traced(b)
    ensures Strokes(a + b) == Strokes(a) + Strokes(b)
    decreases |a|
  {
    if a != [] {
      assert (a + b)[1..] == a[1..] + b;
      TracedAppend(a[1..], b);
    } else {
      assert a + b == b;
    }
  }

  /** The line tracing a run passes through exactly its points, in order, and is stroked once; a short run draws nothing. */
  lemma {:induction false} LinePathTracesRun(segment: seq<Point>)
    ensures Traced(LinePath(segment)) == if |segment| < 2 then [] else segment
    ensures Strokes(LinePath(segment)) == if |segment| < 2 then 0 else 1
  {
    if |segment| >= 2 {
      var lineTos := seq(|segment| - 1, i requires 0 <= i < |segment| - 1 => ExtendLine(segment[i + 1]));
      ExtendsTrace(segment[1..], lineTos);
      TracedAppend([BeginLine(segment[0])], lineTos);
      TracedAppend([BeginLine(segment[0])] + lineTos, [StrokeLine]);
      assert Traced([StrokeLine]) == [] && Strokes([StrokeLine]) == 1;
      assert Traced([BeginLine(segment[0])]) == [segment[0]];
      assert [segment[0]] + segment[1..] == segment;
    }
  }

  /** A run of lineTo commands traces its points and strokes nothing. */
  lemma {:induction false} ExtendsTrace(ps: seq<Point>, lineTos: seq<Command>)
    requires |lineTos| == |ps| && forall i :: 0 <= i < |ps| ==> lineTos[i] == ExtendLine(ps[i])
    ensures Traced(lineTos) == ps && Strokes(lineTos) == 0
    decreases |ps|
  {
    if ps != [] {
      ExtendsTrace(ps[1..], lineTos[1..]);
    }
  }

  /** The runs of two points or more, which are the ones drawn. */
  function LongRuns(segments: seq<seq<Point>>): (long: seq<seq<Point>>)
    ensures |long| <= |segments|
  {
    if segments == [] then []
    else LongRuns(segments[..|segments| - 1])
         + if |segments[|segments| - 1]| < 2 then [] else [segments[|segments| - 1]]
  }

  /** Drawing the runs strokes each run of two points or more once, tracing exactly its points. */
  lemma {:induction false} LinesDrawLongRuns(segments: seq<seq<Point>>)
    ensures Traced(Lines(segments)) == Flatten(LongRuns(segments))
    ensures Strokes(Lines(segments)) == |LongRuns(segments)|
    decreases |segments|
  {
    if segments != [] {
      var init := segments[..|segments| - 1];
      var last := segments[|segments| - 1];
      LinesDrawLongRuns(init);
      TracedAppend(Lines(init), LinePath(last));
      LinePathTracesRun(last);
      if |last| >= 2 {
        FlattenSnoc(LongRuns(init), last);
      } else {
        assert LongRuns(segments) == LongRuns(init);
      }
    }
  }

  /** The whole picture: the dots trace and stroke nothing, so the red lines are exactly the long runs. */
  lemma RenderDrawsLongRuns(segments: seq<seq<Point>>)
    ensures Traced(Render(segments)) == Flatten(LongRuns(segments))
    ensures Strokes(Render(segments)) == |LongRuns(segments)| <= |segments|
  {
    DotsUpToNoLines(Resolution, 0);
    LinesDrawLongRuns(segments);
    TracedAppend([ClearCanvas], GridDots());
    TracedAppend([ClearCanvas] + GridDots(), Lines(segments));
    assert Traced([ClearCanvas]) == [] && Strokes([ClearCanvas]) == 0;
  }

  /** The dot pattern moves no pen and strokes nothing. */
  lemma {:induction false} DotsUpToNoLines(y: int, x: int)
    requires 0 <= y <= Resolution && 0 <= x <= Resolution && (y == Resolution ==> x == 0)
    ensures Traced(DotsUpTo(y, x)) == [] && Strokes(DotsUpTo(y, x)) == 0
    decreases y, x
  {
    if x > 0 {
      DotsUpToNoLines(y, x - 1);
      TracedAppend(DotsUpTo(y, x - 1), [DrawDot(Point(x - 1, y))]);
      assert Traced([DrawDot(Point(x - 1, y))]) == [] && Strokes([DrawDot(Point(x - 1, y))]) == 0;
    } else if y > 0 {
      DotsUpToNoLines(y - 1, Resolution);
    }
  }
}
