/**
 * segmentEdges: the detected points, in scan order, are cut into runs ("segments"), and
 * at low complexity only the first two runs are kept.
 *
 * The loop pushes each point into the current run BEFORE it tests for a jump, so a run
 * ends with the point whose x differs by more than one from its predecessor's: the
 * jumping point closes the run it jumped into, rather than opening the next one.
 */
module Segmentation {
  import opened Grid

  /** `Math.abs` on whole numbers. */
  function Abs(n: int): (a: nat)
    ensures a == n || a == -n
  {
    if n < 0 then -n else n
  }

  /** Point i lies more than one column away from point i - 1 (the loop's cut test). */
  predicate Jumps(edges: seq<Point>, i: int)
    requires 0 <= i < |edges|
  {
    i > 0 && Abs(edges[i - 1].x - edges[i].x) > 1
  }

  /** A run ends at point i: i jumps, or i is the last point (the final flush). */
  predicate Closes(edges: seq<Point>, i: int)
    requires 0 <= i < |edges|
  {
    Jumps(edges, i) || i == |edges| - 1
  }

  /** The first position at or after i at which a run ends. */
  function NextClose(edges: seq<Point>, i: int): (j: int)
    requires 0 <= i < |edges|
    ensures i <= j < |edges| && Closes(edges, j)
    ensures forall k :: i <= k < j ==> !Closes(edges, k)
    decreases |edges| - i
  {
    if Closes(edges, i) then i else NextClose(edges, i + 1)
  }

  /** The points of the runs, run after run. */
  function Flatten(segments: seq<seq<Point>>): seq<Point> {
    if segments == [] then [] else segments[0] + Flatten(segments[1..])
  }

  /** The runs of edges[start..]: each goes from its first point up to and including the next closing point. */
  function SplitFrom(edges: seq<Point>, start: int): seq<seq<Point>>
    requires 0 <= start <= |edges|
    decreases |edges| - start
  {
    if start == |edges| then []
    else [edges[start..NextClose(edges, start) + 1]] + SplitFrom(edges, NextClose(edges, start) + 1)
  }

  /** The runs from start give back edges[start..] in order, and none is empty. */
  lemma {:induction false} SplitFromCovers(edges: seq<Point>, start: int)
    requires 0 <= start <= |edges|
    ensures Flatten(SplitFrom(edges, start)) == edges[start..]
    ensures forall s :: s in SplitFrom(edges, start) ==> s != []
    decreases |edges| - start
  {
    if start < |edges| {
      var j := NextClose(edges, start);
      var segments := SplitFrom(edges, start);
      var rest := SplitFrom(edges, j + 1);
      SplitFromCovers(edges, j + 1);
      assert segments[0] == edges[start..j + 1] && segments[1..] == rest;
      assert edges[start..j + 1] + edges[j + 1..] == edges[start..];
    }
  }

  /** The runs of the whole edge list, before truncation. */
  function Split(edges: seq<Point>): seq<seq<Point>> {
    SplitFrom(edges, 0)
  }

  /** The complexity rule: below 50 only the first two runs are kept (`slice(0, 2)`), otherwise all. */
  function Truncate(segments: seq<seq<Point>>, complexity: int): (kept: seq<seq<Point>>)
    ensures |kept| <= |segments| && kept == segments[..|kept|]
    ensures complexity < 50 ==> |kept| == if |segments| < 2 then |segments| else 2
    ensures complexity >= 50 ==> kept == segments
  {
    if complexity < 50 && |segments| > 2 then segments[..2] else segments
  }

  /**
   * A run that starts at start and meets no jump before its closing point i is the first
   * run from start: runs already cut off, followed by the runs from start, are those runs
   * followed by edges[start..i + 1] and the runs after i.
   */
  lemma SplitFromStep(done: seq<seq<Point>>, edges: seq<Point>, start: int, i: int)
    requires 0 <= start <= i < |edges| && Closes(edges, i)
    requires forall k :: start <= k < i ==> !Jumps(edges, k)
    ensures done + SplitFrom(edges, start) == (done + [edges[start..i + 1]]) + SplitFrom(edges, i + 1)
  {
    assert NextClose(edges, start) == i;
  }

  /** The loop's state after some points: the runs cut off so far and the run being built. */
  datatype Progress = Progress(segments: seq<seq<Point>>, current: seq<Point>)

  /** The state of segmentEdges' loop after its first n iterations. */
  function Scan(edges: seq<Point>, n: int): Progress
    requires 0 <= n <= |edges|
  {
    if n == 0 then Progress([], [])
    else
      var p := Scan(edges, n - 1);
      var current := p.current + [edges[n - 1]];
      if Jumps(edges, n - 1) then Progress(p.segments + [current], []) else Progress(p.segments, current)
  }

  /**
   * The loop state p after n points, with the current run starting at start, agrees with
   * the reference split: the current run is the stretch edges[start..n] since the last
   * cut, which holds no jump, and the runs cut off so far followed by the runs from start
   * are the runs of the whole list.
   */
  ghost predicate Consistent(edges: seq<Point>, n: int, start: int, p: Progress) {
    0 <= start <= n <= |edges| && p.current == edges[start..n]
    && Split(edges) == p.segments + SplitFrom(edges, start)
    && forall k :: start <= k < n ==> !Jumps(edges, k)
  }

  /** A jumping point closes the current run, which becomes the next run of the split. */
  lemma JumpStep(edges: seq<Point>, i: int, start: int, p: Progress)
    requires Consistent(edges, i, start, p) && i < |edges| && Jumps(edges, i)
    ensures Consistent(edges, i + 1, i + 1, Progress(p.segments + [p.current + [edges[i]]], []))
  {
    assert p.current + [edges[i]] == edges[start..i + 1];
    SplitFromStep(p.segments, edges, start, i);
  }

  /** A point that does not jump extends the current run. */
  lemma ContinueStep(edges: seq<Point>, i: int, start: int, p: Progress)
    requires Consistent(edges, i, start, p) && i < |edges| && !Jumps(edges, i)
    ensures Consistent(edges, i + 1, start, Progress(p.segments, p.current + [edges[i]]))
  {
    assert p.current + [edges[i]] == edges[start..i + 1];
  }

  /** Every state of the loop agrees with the reference split, for the start of the run it is building. */
  lemma {:induction false} ScanInvariant(edges: seq<Point>, n: int) returns (start: int)
    requires 0 <= n <= |edges|
    ensures Consistent(edges, n, start, Scan(edges, n))
  {
    if n == 0 {
      assert SplitFrom(edges, 0) == Split(edges);
      start := 0;
    } else {
      var i := n - 1;
      var before := ScanInvariant(edges, i);
      var p := Scan(edges, i);
      var current := p.current + [edges[i]];
      if Jumps(edges, i) {
        assert Scan(edges, n) == Progress(p.segments + [current], []);
        JumpStep(edges, i, before, p);
        start := n;
      } else {
        assert Scan(edges, n) == Progress(p.segments, current);
        ContinueStep(edges, i, before, p);
        start := before;
      }
    }
  }

  /** After the final flush the loop has produced the reference split. */
  lemma ScanIsSplit(edges: seq<Point>)
    ensures var p := Scan(edges, |edges|);
            (if |p.current| > 0 then p.segments + [p.current] else p.segments) == Split(edges)
  {
    var start := ScanInvariant(edges, |edges|);
    var p := Scan(edges, |edges|);
    if start < |edges| {
      SplitFromStep(p.segments, edges, start, |edges| - 1);
      assert SplitFrom(edges, |edges|) == [];
      assert edges[start..|edges|] == p.current;
    } else {
      assert SplitFrom(edges, |edges|) == [];
    }
  }

  /** segmentEdges, with the global complexity passed in. */
  method SegmentEdges(edges: seq<Point>, complexity: int) returns (result: seq<seq<Point>>)
    ensures result == Truncate(Split(edges), complexity)
  {
    var segments: seq<seq<Point>> := [];
    var currentSegment: seq<Point> := [];
    for i := 0 to |edges|
      invariant Progress(segments, currentSegment) == Scan(edges, i)
    {
      var point := edges[i];
      currentSegment := currentSegment + [point];
      if i > 0 && Abs(edges[i - 1].x - point.x) > 1 {
        segments := segments + [currentSegment];
        currentSegment := [];
      }
    }
    if |currentSegment| > 0 {
      segments := segments + [currentSegment];
    }
    ScanIsSplit(edges);
    if complexity < 50 {
      result := segments[..if |segments| < 2 then |segments| else 2];
    } else {
      result := segments;
    }
  }

  /** The position in the edge list of the last point of each run, for runs starting at start. */
  function Ends(segments: seq<seq<Point>>, start: int): seq<int> {
    if segments == [] then []
    else [start + |segments[0]| - 1] + Ends(segments[1..], start + |segments[0]|)
  }

  /** The first run ends |s| - 1 places after start, and the later runs start right after it. */
  lemma EndsCons(s: seq<Point>, rest: seq<seq<Point>>, start: int)
    ensures Ends([s] + rest, start) == [start + |s| - 1] + Ends(rest, start + |s|)
  {
    assert ([s] + rest)[1..] == rest;
  }

  /** The runs from start all end at or after start. */
  lemma {:induction false} SplitFromEndsAfter(edges: seq<Point>, start: int)
    requires 0 <= start <= |edges|
    ensures forall i :: i in Ends(SplitFrom(edges, start), start) ==> i >= start
    decreases |edges| - start
  {
    if start < |edges| {
      FirstRunEnds(edges, start);
      SplitFromEndsAfter(edges, NextClose(edges, start) + 1);
    }
  }

  /** From start on, a run of SplitFrom ends at position i exactly when i closes a run. */
  lemma {:induction false} SplitFromCuts(edges: seq<Point>, start: int, i: int)
    requires 0 <= start <= i < |edges|
    ensures i in Ends(SplitFrom(edges, start), start) <==> Closes(edges, i)
    decreases |edges| - start
  {
    var j := NextClose(edges, start);
    FirstRunEnds(edges, start);
    if i > j {
      SplitFromCuts(edges, j + 1, i);
    } else if i < j {
      SplitFromEndsAfter(edges, j + 1);
    }
  }

  /** The first run from start ends at the next closing point, and the later runs end after it. */
  lemma FirstRunEnds(edges: seq<Point>, start: int)
    requires 0 <= start < |edges|
    ensures Ends(SplitFrom(edges, start), start) ==
            [NextClose(edges, start)] + Ends(SplitFrom(edges, NextClose(edges, start) + 1), NextClose(edges, start) + 1)
  {
    var j := NextClose(edges, start);
    EndsCons(edges[start..j + 1], SplitFrom(edges, j + 1), start);
  }

  /**
   * The runs partition the edge list: they concatenate back to it in order, none is empty,
   * and a run ends at position i exactly when point i jumps or is the last point.
   */
  lemma SplitIsPartition(edges: seq<Point>)
    ensures Flatten(Split(edges)) == edges
    ensures forall s :: s in Split(edges) ==> s != []
    ensures forall i :: 0 <= i < |edges| ==> (i in Ends(Split(edges), 0) <==> Closes(edges, i))
  {
    SplitFromCovers(edges, 0);
    forall i | 0 <= i < |edges|
      ensures i in Ends(Split(edges), 0) <==> Closes(edges, i)
    {
      SplitFromCuts(edges, 0, i);
    }
  }

  /** Without a jump the whole list is one run. */
  lemma {:induction false} NoJumpOneRun(edges: seq<Point>)
    requires edges != []
    requires forall i :: 0 <= i < |edges| ==> !Jumps(edges, i)
    ensures Split(edges) == [edges]
  {
    SplitFromStep([], edges, 0, |edges| - 1);
    assert edges[0..|edges|] == edges;
  }

  /** Flattening distributes over appending one more run. */
  lemma {:induction false} FlattenSnoc(segments: seq<seq<Point>>, s: seq<Point>)
    ensures Flatten(segments + [s]) == Flatten(segments) + s
    decreases |segments|
  {
    if segments != [] {
      assert (segments + [s])[1..] == segments[1..] + [s];
      FlattenSnoc(segments[1..], s);
    } else {
      assert [s][1..] == [];
    }
  }

  /** The points of the first runs are a prefix of the points of all of them. */
  lemma {:induction false} FlattenPrefix(segments: seq<seq<Point>>, n: int)
    requires 0 <= n <= |segments|
    ensures Flatten(segments[..n]) <= Flatten(segments)
    decreases n
  {
    if n > 0 {
      assert segments[..n][1..] == segments[1..][..n - 1];
      FlattenPrefix(segments[1..], n - 1);
    }
  }

  /**
   * What segmentEdges keeps: at complexity 50 or more every detected point, in order;
   * below 50 the points of at most two runs, which form a prefix of the list.
   */
  lemma TruncatedRunsArePrefix(edges: seq<Point>, complexity: int)
    ensures Flatten(Truncate(Split(edges), complexity)) <= edges
    ensures complexity >= 50 ==> Flatten(Truncate(Split(edges), complexity)) == edges
    ensures |Truncate(Split(edges), complexity)| <= |edges|
  {
    var segments := Split(edges);
    SplitIsPartition(edges);
    FlattenPrefix(segments, |Truncate(segments, complexity)|);
    RunCountBound(segments);
  }

  /** Non-empty runs are no more numerous than their points. */
  lemma {:induction false} RunCountBound(segments: seq<seq<Point>>)
    requires forall s :: s in segments ==> s != []
    ensures |segments| <= |Flatten(segments)|
  {
    if segments != [] {
      assert segments[0] in segments;
      assert forall s :: s in segments[1..] ==> s in segments;
      RunCountBound(segments[1..]);
    }
  }

  /**
   * The cut falls after the jumping point: (0,0), (1,0), (5,0) is one run, since the jump
   * at (5,0) closes the run it belongs to and is also the last point.
   */
  lemma JumpAtEndKeepsOneRun()
    ensures Split([Point(0, 0), Point(1, 0), Point(5, 0)]) == [[Point(0, 0), Point(1, 0), Point(5, 0)]]
  {
    var edges := [Point(0, 0), Point(1, 0), Point(5, 0)];
    assert !Closes(edges, 0) && !Closes(edges, 1) && Closes(edges, 2);
    assert NextClose(edges, 0) == 2;
    assert edges[0..3] == edges;
  }

  /** A jump inside the list closes the run at the jumping point: (0,0), (5,0), (6,0) gives two runs. */
  lemma JumpClosesItsRun()
    ensures Split([Point(0, 0), Point(5, 0), Point(6, 0)]) == [[Point(0, 0), Point(5, 0)], [Point(6, 0)]]
  {
    var edges := [Point(0, 0), Point(5, 0), Point(6, 0)];
    assert !Closes(edges, 0) && Closes(edges, 1) && Closes(edges, 2);
    assert NextClose(edges, 0) == 1;
    assert NextClose(edges, 2) == 2;
    assert SplitFrom(edges, 2) == [edges[2..3]];
    assert edges[0..2] == [Point(0, 0), Point(5, 0)] && edges[2..3] == [Point(6, 0)];
  }
}
