/**
 * Value types shared by the detectors: OpenCV's integer points, the four-int
 * line segments (cv::Vec4i) produced by the line extractor, the (x, y) feature
 * pairs (std::pair<int, int>) every detector reports, and the two tests the
 * segment merger applies to a pair of segments.
 */
module Geometry {

  /** cv::Point: an integer pixel position. */
  datatype Point = Point(x: int, y: int)

  /** cv::Vec4i as a segment: (x1, y1) is its start point and (x2, y2) its end point. */
  datatype Segment = Segment(x1: int, y1: int, x2: int, y2: int)
  {
    function Start(): Point { Point(x1, y1) }
    function End(): Point { Point(x2, y2) }
  }

  /** std::pair<int, int>: one reported feature point. */
  type Feature = (int, int)

  /** Largest raw-angle difference, in degrees, at which two segments still merge. */
  const MaxAngleGap: real := 8.0

  /** Largest midpoint distance, in pixels, at which two segments still merge. */
  const MaxMidpointDistance: int := 10

  /**
   * The floating-point measurements the merger takes of a segment, kept abstract:
   * `angle` is atan2(y2 - y1, x2 - x1) expressed in degrees (never normalised for
   * direction), `midpoint` is the rounded integer point (start + end) * 0.5.
   */
  datatype Measure = Measure(angle: Segment -> real, midpoint: Segment -> Point)

  function Abs(r: real): real { if r < 0.0 then -r else r }

  function SquaredDistance(p: Point, q: Point): int
  {
    (p.x - q.x) * (p.x - q.x) + (p.y - q.y) * (p.y - q.y)
  }

  /** The first `continue` of the merge loop: the raw angles differ by more than 8 degrees. */
  predicate AnglesApart(m: Measure, a: Segment, b: Segment)
  {
    Abs(m.angle(a) - m.angle(b)) > MaxAngleGap
  }

  /**
   * The second `continue`: the midpoints are more than 10 pixels apart. For integer
   * points the Euclidean norm exceeds 10 exactly when the squared distance exceeds 100.
   */
  predicate MidpointsApart(m: Measure, a: Segment, b: Segment)
  {
    SquaredDistance(m.midpoint(a), m.midpoint(b)) > MaxMidpointDistance * MaxMidpointDistance
  }

  /** A pair passes both tests (both use strict `>`, so a pair exactly at a threshold merges). */
  predicate Close(m: Measure, a: Segment, b: Segment)
  {
    !AnglesApart(m, a, b) && !MidpointsApart(m, a, b)
  }

  /** The merged segment: from the start of the outer segment to the end of the inner one. */
  function Join(outer: Segment, inner: Segment): (r: Segment)
    ensures r.Start() == outer.Start() && r.End() == inner.End()
  {
    Segment(outer.x1, outer.y1, inner.x2, inner.y2)
  }
}
