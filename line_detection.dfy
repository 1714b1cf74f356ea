/**
 * The line detector (class LineDetection): its Canny threshold, the list of
 * segments it holds, the in-place merge of that list, and the flattening of the
 * list into feature points.
 */
module LineDetection {
  import opened Geometry
  import opened Vectors
  import opened SegmentMerge
  import Detection

  /** The arguments of the edge-detection call: low threshold, high threshold, aperture size. */
  datatype CannyRequest = CannyRequest(threshold1: int, threshold2: int, apertureSize: int)

  /**
   * The arguments of the probabilistic segment extraction: distance resolution (0.1 pixel),
   * angle resolution (one degree, pi / 180 radians), minimum votes, minimum segment
   * length and largest gap joined within a segment.
   */
  datatype HoughRequest = HoughRequest(rho: real, thetaDegrees: int, votes: int, minLineLength: int, maxLineGap: int)

  /** The feature points of a segment list: start then end of each segment, in list order. */
  function Endpoints(lines: seq<Segment>): (points: seq<Feature>)
    ensures |points| == 2 * |lines|
    ensures forall k :: 0 <= k < |lines| ==>
      points[2 * k] == (lines[k].x1, lines[k].y1) && points[2 * k + 1] == (lines[k].x2, lines[k].y2)
  {
    if lines == [] then []
    else
      var rest := Endpoints(lines[1..]);
      assert forall k :: 1 <= k < |lines| ==> lines[k] == lines[1..][k - 1];
      [(lines[0].x1, lines[0].y1), (lines[0].x2, lines[0].y2)] + rest
  }

  lemma EndpointsSnoc(lines: seq<Segment>, line: Segment)
    ensures Endpoints(lines + [line]) == Endpoints(lines) + [(line.x1, line.y1), (line.x2, line.y2)]
  {
    var all := lines + [line];
    var left := Endpoints(all);
    var right := Endpoints(lines) + [(line.x1, line.y1), (line.x2, line.y2)];
    assert |left| == |right|;
    forall n | 0 <= n < |left|
      ensures left[n] == right[n]
    {
      var k := n / 2;
      assert all[k] == if k < |lines| then lines[k] else line;
      assert n == 2 * k || n == 2 * k + 1;
    }
  }

  class LineDetector {
    var threshold: int
    var lines: seq<Segment>
    const image: Detection.WorkingImage

    /** The threshold starts at 10 and no segments are held; the working image is the detector's own. */
    constructor ()
      ensures threshold == 10 && lines == []
      ensures fresh(image) && image.steps == []
    {
      threshold := 10;
      lines := [];
      image := new Detection.WorkingImage();
    }

    method SetThreshold(value: int)
      modifies this`threshold
      ensures threshold == value
    {
      threshold := value;
    }

    method GetThreshold() returns (value: int)
      ensures value == threshold
    {
      value := threshold;
    }

    /**
     * mergeLines: the two nested index loops over the member list, erasing both
     * entries of each qualifying pair while iterating, then appending the merged
     * segments at the end.
     */
    method MergeLines(m: Measure)
      modifies this`lines
      ensures lines == Merge(m, old(lines))
    {
      ghost var goal := SweepOuter(m, lines, [], 0);
      var mergedLines: seq<Segment> := [];
      var i := 0;
      while i < |lines|
        invariant i <= |lines| + 1
        invariant SweepOuter(m, lines, mergedLines, i) == goal
        decreases |lines| + 1 - i
      {
        var line1 := lines[i];
        ghost var size := |lines|;
        var j := i + 1;
        while j < |lines|
          invariant i < j <= |lines| + 1
          invariant |lines| <= size
          invariant SweepInner(m, lines, mergedLines, i, line1, j) == goal
          decreases |lines| + 1 - j
        {
          var line2 := lines[j];
          // Close is the negation of the two `continue` tests (angle gap, midpoint distance).
          if Close(m, line1, line2) {
            mergedLines := mergedLines + [Join(line1, line2)];
            lines := Erase(lines, j);
            lines := Erase(lines, i);
            j := j - 1;
          }
          j := j + 1;
        }
        i := i + 1;
      }
      lines := lines + mergedLines;
    }

    /** getanalyzeFeatures: the held segments flattened into points, built one segment at a time. */
    method GetAnalyzeFeatures() returns (coordinates: seq<Feature>)
      ensures coordinates == Endpoints(lines)
    {
      coordinates := [];
      for n := 0 to |lines|
        invariant coordinates == Endpoints(lines[..n])
      {
        var line := lines[n];
        EndpointsSnoc(lines[..n], line);
        assert lines[..n + 1] == lines[..n] + [line];
        coordinates := coordinates + [(line.x1, line.y1)];
        coordinates := coordinates + [(line.x2, line.y2)];
      }
      assert lines[..|lines|] == lines;
    }

    /**
     * analyzeFeatures: preprocess the working image, detect edges with thresholds
     * (threshold, 3 * threshold), extract raw segments with fixed parameters, and keep
     * them merged. `extracted` is what the extraction call returned and `m` the
     * measurements of segments; drawing the result is not modelled.
     */
    method AnalyzeFeatures(extracted: seq<Segment>, m: Measure) returns (canny: CannyRequest, hough: HoughRequest)
      modifies this`lines, image
      ensures image.steps == old(image.steps) + Detection.Preprocessing
      ensures canny == CannyRequest(threshold, threshold * 3, 3)
      ensures hough == HoughRequest(0.1, 1, 3, 15, 10)
      ensures lines == Merge(m, extracted)
    {
      Detection.CommonOperations(image);
      canny := CannyRequest(threshold, threshold * 3, 3);
      hough := HoughRequest(0.1, 1, 3, 15, 10);
      lines := extracted;
      MergeLines(m);
    }
  }
}
