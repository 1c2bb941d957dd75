# imagetovector edge pipeline, in Dafny

A model of the image-to-dots pipeline in `script.js` of imagetovector, with proofs about it.
An uploaded image is scaled to a 9x9 canvas. Its RGBA pixels are reduced to one grey
intensity per cell. One of two threshold edge detectors, chosen by the complexity slider,
picks the edge cells in row-major order. The segmenter cuts that list into runs wherever
x jumps by more than one. Below complexity 50 only the first two runs are kept. The renderer
then draws the fixed 9x9 dot pattern and strokes each run of two or more points as a red
polyline.

Modules, one per file:

- `Grid` (`grid.dfy`): the resolution constant 9, cells, row-major index and scan order.
- `Grayscale` (`grayscale.dfy`): getGrayScaleData.
- `EdgeDetection` (`edges.dfy`): detectSimpleEdges, detectGradientEdges, and the detector choice in processImage.
- `Segmentation` (`segments.dfy`): segmentEdges.
- `Rendering` (`render.dfy`): renderEdges and drawLineSegment, as a list of drawing commands.
- `Pipeline` (`pipeline.dfy`): processImage from the pixel buffer on.

The loops of the source are methods with loops. Each is proved equal to a specification
function, and the properties are proved about that function:

- The detectors' specification `ScanEdges` collects the flagged cells of a row-major scan.
- The segmenter's specification is an independent reference split. `NextClose` finds the
  next position where a run ends, `SplitFrom` slices the list there, and `Truncate` applies
  the complexity rule.
- Intensities are exact reals, so the division by 3 is exact. The detectors compare the
  squared gradient with the squared threshold instead of taking a square root
  (`ExceedsIsRootComparison` shows the two agree).

Two behaviours of `script.js` worth knowing:

- A run ends WITH the point that jumps, because `segmentEdges` pushes the point before it
  tests for the jump. So `[(0,0),(1,0),(5,0)]` is one run, not `[(0,0),(1,0)]` followed by
  `[(5,0)]` (`JumpAtEndKeepsOneRun`, `JumpClosesItsRun`).
- There is no buffer-length error. The buffer comes from `getImageData` on the 9x9 canvas,
  so its length is always 4 * 81. That length is a precondition of `ProcessImage`.

## Model

| member | source | states |
|---|---|---|
| Grid.BeforeIsIndexOrder | script.js:73-75 | the y-outer, x-inner scan visits cells in increasing order of their index `y * resolution + x` |
| Grayscale.Luminance | script.js:64 | a pixel's intensity lies in [0, 255] and equals the channel value when red, green and blue agree |
| Grayscale.GetGrayScaleData | script.js:60-68 | the result has one entry per 4 bytes, and entry k is the mean of the red, green and blue bytes of pixel k (through `GrayScale`'s contract) |
| Grayscale.AlphaIgnored | script.js:63-66 | two buffers that differ only in alpha bytes give the same grid |
| Grayscale.UniformColourGrid | script.js:63-66 | a single-colour buffer gives a grid whose every cell is that colour's mean |
| Grayscale.WhiteBufferIsWhite | script.js:63-66 | an all-255 buffer gives 255.0 in every cell |
| EdgeDetection.ExceedsIsRootComparison | script.js:79-83 | for any non-negative root r, comparing r * r with the threshold (`Exceeds`) holds iff r > threshold, so dropping the square root changes no verdict |
| EdgeDetection.DetectSimpleEdges | script.js:71-89 | the loop returns exactly `ScanEdges(Simple, ...)`: the cells whose right/bottom difference gradient exceeds the threshold, with the edge fallback to the cell itself, in scan order |
| EdgeDetection.DetectGradientEdges | script.js:92-112 | the loop returns exactly `ScanEdges(Gradient, ...)`: the cells whose central-difference gradient exceeds the threshold, with the edge fallbacks, in scan order |
| EdgeDetection.DetectorOutput | script.js:83-85 | a cell is in a detector's output iff it is on the grid and the detector flags it; the output is strictly increasing in scan order, so it has no repeats |
| EdgeDetection.Detect | script.js:49-51 | complexity up to and including 50 runs the simple detector and above 50 the gradient one; the result is exactly the flagged cells, in scan order |
| EdgeDetection.UniformGridHasNoEdges | script.js:75-106 | on a grid of one intensity neither detector flags any cell at a threshold >= 0 |
| EdgeDetection.VerticalSplitEdges | script.js:75-85 | on an image black in columns 0-4 and white in 5-8, the simple detector at threshold 30 flags exactly column 4 |
| Segmentation.NextClose | script.js:124-131 | the result is the first position at or after i where a run ends: a point that jumps more than one column from its predecessor, or the last point |
| Segmentation.Truncate | script.js:135-138 | below complexity 50 the kept runs are the first min(2, n) runs; at 50 or more they are all n runs |
| Segmentation.SegmentEdges | script.js:115-139 | the loop, the final flush and the truncation return exactly `Truncate(Split(edges), complexity)` |
| Segmentation.SplitIsPartition | script.js:119-132 | the runs concatenate back to the edge list in order, none is empty, and a run ends at position i iff point i jumps or is the last point |
| Segmentation.NoJumpOneRun | script.js:119-132 | a non-empty list without a jump is a single run |
| Segmentation.TruncatedRunsArePrefix | script.js:135-138 | the kept runs hold a prefix of the edge list, which is the whole list at complexity >= 50; there are never more runs than points |
| Segmentation.JumpAtEndKeepsOneRun | script.js:119-132 | `[(0,0),(1,0),(5,0)]` is one run: the jumping last point closes the run it joins |
| Segmentation.JumpClosesItsRun | script.js:119-132 | `[(0,0),(5,0),(6,0)]` splits after (5,0), the jumping point, into two runs |
| Rendering.DrawLineSegment | script.js:169-188 | the commands are exactly `LinePath(segment)`: nothing for fewer than two points, else begin at the first point, a line to each later point, and a stroke |
| Rendering.RenderEdges | script.js:142-166 | the commands are exactly `Render(segments)`: clear, the 81 dots in scan order, then each run's line in order |
| Rendering.GridDotsAreFixed | script.js:147-160 | the dot pattern has 81 commands, and the one at index `y * 9 + x` draws cell (x, y), whatever the image |
| Rendering.LinePathTracesRun | script.js:169-188 | the line for a run passes through exactly its points, in order, and is stroked once; a run of fewer than two points draws nothing |
| Rendering.RenderDrawsLongRuns | script.js:163-165 | over the whole picture, the traced points are the points of the runs of length >= 2 and there is one stroke per such run |
| Pipeline.ProcessImage | script.js:36-57 | returns the runs `Truncate(Split(Detect(GrayScale(data), c)), c)` and the commands rendering them |
| Pipeline.RunsHoldDetectedEdges | script.js:49-54 | the points on the runs are a prefix of the detected edges, in scan order; at complexity >= 50 they are all the detected edges |
| Pipeline.LowComplexityDrawsAtMostTwoLines | script.js:135-136 | below complexity 50 at most two runs survive and at most two lines are stroked |
| Pipeline.UniformImageDrawsNoLines | script.js:46-56 | a single-colour image at complexity >= 0 yields no runs and strokes no line |

## Left out

- Loading an image: the file input, `FileReader` and the `change` and `input` listeners (script.js:1-33). `ProcessImage` starts from the pixel buffer.
- Scaling the image onto the 9x9 canvas with `drawImage`, and reading it back with `getImageData` (script.js:37-45). The browser does this, so the buffer is a parameter.
- The slider writes a string into `complexity` (script.js:29), and JavaScript converts it to a number in each comparison. Complexity is a whole number here.
- The global variables `edges`, `complexity` and `resolution` are passed as parameters and results. `resolution` is the constant 9, because nothing reassigns it.
- Floating point: intensities and gradients are exact reals, and the square root is replaced by an exact squared comparison. Rounding in the browser's doubles is not modelled, so at an exact tie the browser can flag a cell that the model does not. For example, at complexity 30 take two adjacent cells in the last row with channel sums 97 and 7. In doubles, 97/3 - 7/3 is 30.000000000000004, so the simple detector's `gradient > threshold` (script.js:83) holds. In the model the test is 900 > 900, which is false.
- Canvas geometry: pixel positions of cell centres, the dot radius, colours and line width. A drawing command names the grid cell it draws at. `renderEdges` places dots with `canvas.width / resolution` on both axes (script.js:144, 151-152), while `drawLineSegment` uses `canvas.height / resolution` for y (script.js:176). So a dot and a line vertex for the same cell coincide only on a square canvas. The model does not capture this, because it gives both the same cell.
- Grayscale.GetGrayScaleData: requires a length divisible by 4, because the canvas buffer always has one. On other lengths the script reads past the end as `undefined` and pushes `NaN`; that is not modelled.
