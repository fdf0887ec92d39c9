/**
 The bounding-polygon overlay drawn on a frame once a code has been decoded. The corner
 coordinates the detector reports are truncated to integer pixels, and every corner is joined
 to the next one, the last to the first, so the outline is closed.
 */
module Overlay {

  datatype Point = Point(x: int, y: int)

  /** One line drawn on the frame, from one corner to another. */
  datatype Segment = Segment(from: Point, to: Point)

  /** The picture as it is written to disk: the captured image and the lines drawn on it. */
  datatype Snapshot = Snapshot(image: nat, overlay: seq<Segment>)

  /** A captured frame. The pixels are an opaque image; drawing adds lines to it in place. */
  class Frame {
    const image: nat
    var overlay: seq<Segment>

    constructor (image: nat)
      ensures this.image == image && overlay == []
    {
      this.image := image;
      overlay := [];
    }

    function Picture(): (p: Snapshot)
      reads this
      ensures p.image == image && p.overlay == overlay
    {
      Snapshot(image, overlay)
    }

    /** Draw one straight line on the frame. */
    method DrawLine(a: Point, b: Point)
      modifies this
      ensures overlay == old(overlay) + [Segment(a, b)]
    {
      overlay := overlay + [Segment(a, b)];
    }
  }

  /** Conversion of a floating-point coordinate to an integer, which drops the fraction:
      the result is the integer between zero and `x` that is less than one away from `x`. */
  function TruncateTowardZero(x: real): (r: int)
    ensures 0.0 <= x ==> 0 <= r && r as real <= x < r as real + 1.0
    ensures x < 0.0 ==> r <= 0 && r as real - 1.0 < x <= r as real
  {
    if x >= 0.0 then x.Floor else -((-x).Floor)
  }

  /** The detector's corner list as integer pixel positions. */
  function PixelPoints(corners: seq<(real, real)>): (pts: seq<Point>)
    ensures |pts| == |corners|
    ensures forall i :: 0 <= i < |corners| ==>
      pts[i] == Point(TruncateTowardZero(corners[i].0), TruncateTowardZero(corners[i].1))
  {
    if corners == [] then []
    else [Point(TruncateTowardZero(corners[0].0), TruncateTowardZero(corners[0].1))]
         + PixelPoints(corners[1..])
  }

  /** The open path through the points in order. */
  function Path(pts: seq<Point>): (r: seq<Segment>)
    ensures |r| == if |pts| < 2 then 0 else |pts| - 1
  {
    if |pts| < 2 then [] else [Segment(pts[0], pts[1])] + Path(pts[1..])
  }

  /** The closed outline: the open path, then the segment from the last point back to the first. */
  function Outline(pts: seq<Point>): (r: seq<Segment>)
    ensures |r| == |pts|
    ensures pts != [] ==> r[|pts| - 1] == Segment(pts[|pts| - 1], pts[0])
  {
    if pts == [] then [] else Path(pts) + [Segment(pts[|pts| - 1], pts[0])]
  }

  lemma {:induction false} PathAt(pts: seq<Point>, i: nat)
    requires i + 1 < |pts|
    ensures |Path(pts)| == |pts| - 1 && Path(pts)[i] == Segment(pts[i], pts[i + 1])
  {
    if i > 0 {
      PathAt(pts[1..], i - 1);
    } else if |pts| > 2 {
      PathAt(pts[1..], 0);
    }
  }

  /** For n points the outline has n segments, and segment i joins point i to point
      (i + 1) mod n. */
  lemma OutlineAt(pts: seq<Point>, i: nat)
    requires i < |pts|
    ensures |Outline(pts)| == |pts|
    ensures Outline(pts)[i] == Segment(pts[i], pts[(i + 1) % |pts|])
  {
    var n := |pts|;
    if n == 1 {
      assert Outline(pts) == [Segment(pts[0], pts[0])];
    } else {
      PathAt(pts, 0);
      var last := Segment(pts[n - 1], pts[0]);
      assert Outline(pts) == Path(pts) + [last];
      if i + 1 < n {
        PathAt(pts, i);
        assert (i + 1) % n == i + 1;
      } else {
        assert (i + 1) % n == 0;
        assert Outline(pts)[i] == last;
      }
    }
  }

  /** The outline is closed: each segment ends where the next begins, and the last segment
      ends where the first begins. */
  lemma OutlineClosed(pts: seq<Point>, i: nat)
    requires i < |pts|
    ensures |Outline(pts)| == |pts|
    ensures Outline(pts)[i].to == Outline(pts)[(i + 1) % |pts|].from
  {
    OutlineAt(pts, i);
    OutlineAt(pts, (i + 1) % |pts|);
  }

  /** The drawing loop: for each index i, a line from point i to point (i + 1) mod n. */
  method DrawOutline(frame: Frame, pts: seq<Point>)
    modifies frame
    ensures frame.overlay == old(frame.overlay) + Outline(pts)
  {
    ghost var before := frame.overlay;
    if pts != [] {
      OutlineAt(pts, 0);
    }
    for i := 0 to |pts|
      invariant frame.overlay == before + Outline(pts)[..i]
    {
      OutlineAt(pts, i);
      assert Outline(pts)[..i + 1] == Outline(pts)[..i] + [Outline(pts)[i]];
      frame.DrawLine(pts[i], pts[(i + 1) % |pts|]);
    }
    assert Outline(pts)[..|pts|] == Outline(pts);
  }
}
