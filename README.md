# Feature detection of an RGB image — Dafny model of the detection core

The original program loads one colour image, runs a fixed preprocessing sequence on a
working copy, and then runs one of two detectors over it. The line detector finds edges,
extracts raw line segments and merges near-duplicate segments. The corner detector asks a
corner-scoring primitive for at most 200 corners. Each detector reports its features as
integer `(x, y)` pairs and can write them to a text file, one `x,y` row per point.

This project models that core in Dafny:

- `geometry.dfy` (module `Geometry`): points, segments (`cv::Vec4i`), feature pairs, and the
  two tests of the merger. The angle test uses an abstract angle in degrees and strict `>`
  against 8. The midpoint test uses an abstract rounded midpoint and compares the squared
  integer distance with 100 using strict `>`.
- `vectors.dfy` (module `Vectors`): `std::vector::erase`, and the subsequence relation used
  to state that erasing keeps the relative order of what is left.
- `segment_merge.dfy` (module `SegmentMerge`): `mergeLines` as a function. `SweepOuter` and
  `SweepInner` follow the two index loops step by step, including the `--j` after a merge.
  The lemmas state what one sweep does to the list.
- `line_detection.dfy` (module `LineDetection`): the class `LineDetector`. It holds the
  threshold and the segment list. `MergeLines` is the in-place loop, proved equal to the
  function above. It also covers flattening the segments into points and the call
  arguments of `analyzeFeatures`.
- `corner_detection.dfy` (module `CornerDetection`): the class `CornerDetector`. It covers
  the five parameters with their defaults and setters, the request to the corner
  primitive, and the truncating conversion of corners to integer points.
- `detection.dfy` (module `Detection`): the preprocessing order shared by both detectors,
  and `writeFeaturesToFile` over a modelled file system with its two failure paths.
- `feature_text.dfy` (module `FeatureText`): the exported text format and a parser for it,
  with the round trip proved.
- `wrappers.dfy` (module `Wrappers`): `Option` and `Outcome`.

The merger is modelled as the code is written. The comment at LineDetection.cpp:120 says the
two erasures mark the merged lines so they are not merged again. The `erase(j)`, `erase(i)`,
`--j` sequence does more than that. After the pair (i, j) merges, entries j and i are erased.
The loop index j stays put, and the copy `line1` of the old entry i goes on being compared
with later entries. As a result:

- the entry that stood right after j moves to index j - 1, behind the inner index, so it is
  never compared with `line1`;
- the entry that moves into index i (the old i + 1, or the old j + 1 when j == i + 1) is
  never an outer segment, because the outer index moves on to i + 1; when j > i + 1, the old
  j + 1 may still become an outer segment later;
- a second merge for the same i erases whatever entry now sits at index i, so that entry
  disappears without contributing to any merged segment;
- one input segment can start several merged segments.

`MergeDropsUncompared`, `MergeSkipsAfterPair` and `MergeOuterAfterShift` prove these
behaviours on concrete four- and five-segment inputs.

## Model

| member | source | states |
|---|---|---|
| `Geometry.Join` | LineDetection.cpp:118 | the merged segment starts at the outer segment's start point and ends at the inner segment's end point |
| `Vectors.Erase` | LineDetection.cpp:121-122 | erasing entry k shortens the list by one, keeps the entries before k and shifts the later ones down by one |
| `Geometry.AnglesApart` | LineDetection.cpp:101-106 | the angle test: the raw angles of the two segments differ by strictly more than 8 degrees, with no wrap-around |
| `Geometry.MidpointsApart` | LineDetection.cpp:109-115 | the distance test: the rounded midpoints are strictly more than 10 pixels apart, compared exactly as a squared integer distance against 100 |
| `SegmentMerge.SweepOuter` | LineDetection.cpp:84-125 | the outer loop at index i: it ends with the list and the merged segments as they stand once i reaches the list size; otherwise it starts the inner loop at j = i + 1 with a copy of entry i |
| `SegmentMerge.SweepInner` | LineDetection.cpp:92-125 | the inner loop at index j: a pair that passes both tests pushes the joined segment, erases entries j and i and stays at j; any other pair moves to j + 1; at the list size the outer loop moves to i + 1 |
| `SegmentMerge.Merge` | LineDetection.cpp:128 | the list mergeLines leaves behind: the entries still in the list when both loops end, followed by the merged segments in creation order |
| `SegmentMerge.MergeShape` | LineDetection.cpp:77-129 | the merged list is the surviving inputs in their original relative order followed by the merged segments; each merge removes two entries and adds one, so the length is the input length minus the number of merges; every merged segment joins the start of an input segment to the end of a later input segment, and the two passed both tests |
| `SegmentMerge.InnerCount` | LineDetection.cpp:118-123 | from any point of the inner loop, each merge pushes one segment and erases two, earlier merged segments stay in creation order, and the remaining list is a subsequence of the current one |
| `SegmentMerge.MergeUnchangedIff` | LineDetection.cpp:84-128 | the list comes back unchanged exactly when no pair at positions p < q passes both tests |
| `SegmentMerge.MergeShortList` | LineDetection.cpp:84-92 | with zero or one segment the list is unchanged |
| `SegmentMerge.MergeTwo` | LineDetection.cpp:101-122 | two segments become the single segment from the first one's start to the second one's end when they pass both tests, and stay as they are otherwise |
| `SegmentMerge.MergeAtThresholds` | LineDetection.cpp:101-115 | both tests are strict: raw angles exactly 8 degrees apart with midpoints exactly 10 pixels apart merge, while an offset of (6, 9) does not |
| `SegmentMerge.MergeDropsUncompared` | LineDetection.cpp:118-123 | for [a, b, c, d] where a passes the tests with b and with d, the result is [Join(a, b), Join(a, d)]: c vanishes without ever being compared, and a starts two merged segments |
| `SegmentMerge.MergeSkipsAfterPair` | LineDetection.cpp:121-123 | for [a, b, c, d] where a merges with b but not with d, the result is [c, d, Join(a, b)] whatever c and d are, because c is skipped as an inner and an outer segment |
| `SegmentMerge.MergeOuterAfterShift` | LineDetection.cpp:118-123 | for [a, b, c, d, e] where a merges with c but not with b or e, and d passes the tests with e, the result is [b, Join(a, c), Join(d, e)]: d is never compared with a but is the next outer segment, while b, pushed into index 0, is never an outer segment |
| `LineDetection.LineDetector.MergeLines` | LineDetection.cpp:77-129 | the in-place nested loops leave the member list equal to the merge function of its old value; the verifier shows they terminate and that every index is in range |
| `LineDetection.Endpoints` | LineDetection.cpp:184-200 | a list of n segments gives exactly 2n points, and point 2k and point 2k+1 are the start and end of segment k |
| `LineDetection.LineDetector.GetAnalyzeFeatures` | LineDetection.cpp:184-200 | the loop returns the held segments flattened into start and end points, in list order |
| `LineDetection.LineDetector.constructor` | LineDetection.cpp:19 | the threshold starts at 10, no segments are held, and the working image belongs to this detector alone |
| `LineDetection.LineDetector.SetThreshold` | LineDetection.cpp:26-28 | the threshold becomes the given value and the segment list does not change |
| `LineDetection.LineDetector.GetThreshold` | LineDetection.cpp:35-37 | returns the stored threshold, so it returns the last value passed to SetThreshold, or 10 if none |
| `LineDetection.LineDetector.AnalyzeFeatures` | LineDetection.cpp:136-147 | runs the four preprocessing steps, asks for edges with thresholds (threshold, 3 * threshold) and aperture 3, asks for segments with parameters 0.1, 1 degree, 3, 15, 10, and keeps the merge of the extracted segments |
| `Detection.WorkingImage.Apply` | CommonProcesses.cpp:60-93 | each of the four transforms replaces the working image in place; this is modelled as appending exactly that one step to the image's record of transforms |
| `Detection.CommonOperations` | Detection.cpp:28-33 | appends exactly four steps to the working image, in the order noise filter, rescale to 800 x 600, grayscale, bilateral denoise |
| `Detection.FileSystem.Truncate` | Detection.cpp:43 | opening the file for output empties it and changes no other file |
| `Detection.FileSystem.Write` | Detection.cpp:51-52 | a write stores the characters that fit on the device and reports failure exactly when not all of them fit |
| `Detection.WriteFeaturesToFile` | Detection.cpp:42-59 | a path that cannot be opened fails with an open error and no file changes; otherwise the file holds the serialised features, or only the part that fit if a write failed; in that case the call fails with a write error and no later feature is written |
| `Detection.WriteRows` | Detection.cpp:49-56 | the write loop stops at the first failed write; the file then holds the rows before it plus the part of the failing row that fit |
| `FeatureText.IntText` | Detection.cpp:51 | how `<<` prints an int: a minus sign for negative values, then the decimal digits; the text is never empty |
| `FeatureText.Row` | Detection.cpp:51 | what one loop iteration writes for a point: the decimal x, a comma, the decimal y, and a newline |
| `FeatureText.Serialize` | Detection.cpp:49-51 | the text is empty exactly when there are no features |
| `FeatureText.SerializeRows` | Detection.cpp:49-51 | splitting the text on newlines gives exactly one `x,y` row per feature, in order, and an empty piece after the last newline (no header and no trailing delimiter) |
| `FeatureText.RoundTrip` | Detection.cpp:51 | parsing the text back (rows split on newlines, fields split on the comma, signed decimals) yields the original features in their original order |
| `FeatureText.IntTextRoundTrip` | Detection.cpp:51 | the decimal text of an int, with a minus sign when negative, parses back to the same int |
| `FeatureText.SerializeCut` | Detection.cpp:50-55 | when row k does not fit, the rows before k plus the part of row k that fits are exactly a prefix of the full text, and the full text is longer than the room |
| `CornerDetection.TruncateToInt` | CornerDetection.cpp:100 | the conversion truncates toward zero: the result lies within one unit of the value, on the zero side of it |
| `CornerDetection.CornerCoordinates` | CornerDetection.cpp:96-103 | one point per corner, in corner order, each the truncated x and y of that corner |
| `CornerDetection.CornerDetector.GetAnalyzeFeatures` | CornerDetection.cpp:96-103 | the loop returns the corner coordinates in corner order |
| `CornerDetection.CornerDetector.constructor` | CornerDetection.cpp:15 | defaults: quality level 0.01, minimum distance 10, block size 3, no Harris detector, k = 0.04, and no corners |
| `CornerDetection.CornerDetector.SetQualityLevel` | CornerDetection.cpp:22-26 | only the quality level changes; the other parameters and the stored corners stay as they were |
| `CornerDetection.CornerDetector.SetMinDistance` | CornerDetection.cpp:32-36 | only the minimum distance changes; the other parameters and the stored corners stay as they were |
| `CornerDetection.CornerDetector.SetBlockSize` | CornerDetection.cpp:42-46 | only the block size changes; the other parameters and the stored corners stay as they were |
| `CornerDetection.CornerDetector.SetUseHarrisDetector` | CornerDetection.cpp:52-56 | only the Harris flag changes; the other parameters and the stored corners stay as they were |
| `CornerDetection.CornerDetector.SetK` | CornerDetection.cpp:61-65 | only k changes; the other parameters and the stored corners stay as they were |
| `CornerDetection.CornerDetector.AnalyzeFeatures` | CornerDetection.cpp:68-74 | runs the four preprocessing steps, asks the primitive for at most 200 corners with the current parameters unchanged, and keeps what it returns, which is at most 200 corners provided the primitive keeps its documented maxCorners bound |

## Left out

- Loading the image (`imread`, the 3-or-4-channel check and its error) is not part of this
  model. The detectors' constructors take no file name and start from an untouched working
  image.
- The pixel effects of the four preprocessing steps are not modelled. The steps are recorded
  in order, with the arguments commonOperations passes. The fixed kernel of the noise
  filter and the fixed parameters of the bilateral filter are not recorded.
- Edge detection, segment extraction and corner scoring are OpenCV primitives. They are
  inputs: the extracted segment list, and a function from the request to the corner list.
  For edge detection and segment extraction only the call arguments are stated.
- `CornerDetection.CornerDetector.AnalyzeFeatures` assumes OpenCV's documented contract for
  `goodFeaturesToTrack`: it returns no more than maxCorners corners when maxCorners is
  positive. This is stated as a precondition on the primitive, and the bound of 200 corners
  depends on it. The source itself only passes 200.
- Floating point is not modelled. The angle (`atan2` of the segment's direction) and the
  rounded midpoint `(start + end) * 0.5` are abstract inputs of the merger (`Measure`).
- The angle is taken in degrees and compared with 8. The source compares radians with
  pi / 180 * 8, the same test scaled by a positive factor, apart from rounding.
- Corner coordinates are reals, not single-precision floats.
- `CornerDetection.TruncateToInt` does not model `static_cast<int>` on a value outside the
  int range, which is undefined in C++.
- `LineDetection.LineDetector.AnalyzeFeatures` does not model 32-bit overflow of
  `threshold * 3`. Coordinates and the threshold are unbounded integers.
- `Detection.WriteFeaturesToFile` takes the feature list as a parameter. The source calls the
  virtual `getanalyzeFeatures()` after opening the file. That call is const, so it returns the
  same list either way.
- Output buffering of the file stream is not modelled. A write fails at once when the device
  has no room left for the whole row.
- Console messages (`std::cerr`, `std::cout`) are not modelled.
- Drawing and the image outputs are not modelled: the output and visualization images,
  `getOutputImage`, `plotFeatures`, `saveOutputImage` and `combineLineAndCornerPlot`.
  These cover pixel drawing, display, and a file written to a fixed path.
- `calculateLineLength`, `calculateLineAngle` and the two `operator<<` overloads are not
  modelled. They are used only for console output of doubles.
- The fields that only hold intermediate images or copies (`edges`, `cannyOutput`,
  `tempLines`, `visualization`) are not modelled.
