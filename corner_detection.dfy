/**
 * The corner detector (class CornerDetection): its five tuning parameters with
 * their defaults and setters, the corner list it holds, the request it makes to
 * the corner-scoring primitive, and the conversion of corners to integer
 * feature points.
 */
module CornerDetection {
  import opened Geometry
  import Detection

  /** cv::Point2f, with its single-precision coordinates taken as reals. */
  datatype Point2f = Point2f(x: real, y: real)

  /** The tuning parameters handed to the corner-scoring primitive. */
  datatype CornerConfig = CornerConfig(qualityLevel: real, minDistance: real, blockSize: int, useHarrisDetector: bool, k: real)

  const DefaultConfig := CornerConfig(0.01, 10.0, 3, false, 0.04)

  /** Largest number of corners analyzeFeatures asks for. */
  const MaxCorners: int := 200

  /** The arguments of one call to the corner-scoring primitive. */
  datatype CornerRequest = CornerRequest(maxCorners: int, config: CornerConfig)

  /** static_cast<int> on a float: truncation toward zero. */
  function TruncateToInt(r: real): (n: int)
    ensures 0.0 <= r ==> 0 <= n && n as real <= r < n as real + 1.0
    ensures r < 0.0 ==> n <= 0 && n as real - 1.0 < r <= n as real
  {
    if r >= 0.0 then r.Floor else -((-r).Floor)
  }

  /** The feature points of a corner list: one truncated (x, y) pair per corner, in order. */
  function CornerCoordinates(corners: seq<Point2f>): (coords: seq<Feature>)
    ensures |coords| == |corners|
    ensures forall k :: 0 <= k < |corners| ==>
      coords[k] == (TruncateToInt(corners[k].x), TruncateToInt(corners[k].y))
  {
    if corners == [] then []
    else
      var rest := CornerCoordinates(corners[1..]);
      assert forall k :: 1 <= k < |corners| ==> corners[k] == corners[1..][k - 1];
      [(TruncateToInt(corners[0].x), TruncateToInt(corners[0].y))] + rest
  }

  class CornerDetector {
    var qualityLevel: real
    var minDistance: real
    var blockSize: int
    var useHarrisDetector: bool
    var k: real
    var corners: seq<Point2f>
    const image: Detection.WorkingImage

    function Config(): CornerConfig
      reads this
    {
      CornerConfig(qualityLevel, minDistance, blockSize, useHarrisDetector, k)
    }

    /** Defaults: quality level 0.01, minimum distance 10, block size 3, no Harris detector, k = 0.04. */
    constructor ()
      ensures Config() == DefaultConfig && corners == []
      ensures fresh(image) && image.steps == []
    {
      qualityLevel, minDistance, blockSize, useHarrisDetector, k := 0.01, 10.0, 3, false, 0.04;
      corners := [];
      image := new Detection.WorkingImage();
    }

    method SetQualityLevel(level: real)
      modifies this`qualityLevel
      ensures Config() == old(Config()).(qualityLevel := level) && corners == old(corners)
    {
      qualityLevel := level;
    }

    method SetMinDistance(distance: real)
      modifies this`minDistance
      ensures Config() == old(Config()).(minDistance := distance) && corners == old(corners)
    {
      minDistance := distance;
    }

    method SetBlockSize(size: int)
      modifies this`blockSize
      ensures Config() == old(Config()).(blockSize := size) && corners == old(corners)
    {
      blockSize := size;
    }

    method SetUseHarrisDetector(useHarris: bool)
      modifies this`useHarrisDetector
      ensures Config() == old(Config()).(useHarrisDetector := useHarris) && corners == old(corners)
    {
      useHarrisDetector := useHarris;
    }

    method SetK(kValue: real)
      modifies this`k
      ensures Config() == old(Config()).(k := kValue) && corners == old(corners)
    {
      k := kValue;
    }

    /**
     * analyzeFeatures: preprocess the working image, then keep the corners the scoring
     * primitive returns for at most 200 corners and the current parameters. The primitive
     * is given as a function of its request; as its contract it returns no more corners
     * than a positive maxCorners. Drawing the markers is not modelled.
     */
    method AnalyzeFeatures(goodFeaturesToTrack: CornerRequest -> seq<Point2f>) returns (request: CornerRequest)
      requires forall r: CornerRequest :: r.maxCorners > 0 ==> |goodFeaturesToTrack(r)| <= r.maxCorners
      modifies this`corners, image
      ensures image.steps == old(image.steps) + Detection.Preprocessing
      ensures request == CornerRequest(MaxCorners, Config()) && Config() == old(Config())
      ensures corners == goodFeaturesToTrack(request) && |corners| <= MaxCorners
    {
      Detection.CommonOperations(image);
      request := CornerRequest(MaxCorners, Config());
      corners := goodFeaturesToTrack(request);
    }

    /** getanalyzeFeatures: the corners converted to integer points, built one corner at a time. */
    method GetAnalyzeFeatures() returns (coordList: seq<Feature>)
      ensures coordList == CornerCoordinates(corners)
    {
      coordList := [];
      for n := 0 to |corners|
        invariant coordList == CornerCoordinates(corners[..n])
      {
        var corner := corners[n];
        CornerCoordinatesSnoc(corners[..n], corner);
        assert corners[..n + 1] == corners[..n] + [corner];
        coordList := coordList + [(TruncateToInt(corner.x), TruncateToInt(corner.y))];
      }
      assert corners[..|corners|] == corners;
    }
  }

  lemma CornerCoordinatesSnoc(corners: seq<Point2f>, corner: Point2f)
    ensures CornerCoordinates(corners + [corner]) == CornerCoordinates(corners) + [(TruncateToInt(corner.x), TruncateToInt(corner.y))]
  {
    var all := corners + [corner];
    var left := CornerCoordinates(all);
    var right := CornerCoordinates(corners) + [(TruncateToInt(corner.x), TruncateToInt(corner.y))];
    forall n | 0 <= n < |left|
      ensures left[n] == right[n]
    {
      assert all[n] == if n < |corners| then corners[n] else corner;
    }
  }
}
