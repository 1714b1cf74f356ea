/**
 * The shared part of both detectors (class Detection): the fixed preprocessing
 * sequence applied to the detector's working image, and the export of feature
 * coordinates to a text file with its two failure paths.
 */
module Detection {
  import opened Wrappers
  import opened Geometry
  import opened FeatureText

  /** The pixel transforms the working image can undergo; their pixel effects are not modelled. */
  datatype Step = FilterNoise | Rescale(width: int, height: int) | ConvertToGrays | DenoiseBilateralFilter

  /** The preprocessing sequence of commonOperations, in its fixed order. */
  const Preprocessing: seq<Step> := [FilterNoise, Rescale(800, 600), ConvertToGrays, DenoiseBilateralFilter]

  /** A detector's working image (RGBPic), represented by the transforms applied to it since loading. */
  class WorkingImage {
    var steps: seq<Step>

    constructor ()
      ensures steps == []
    {
      steps := [];
    }

    method Apply(step: Step)
      modifies this
      ensures steps == old(steps) + [step]
    {
      steps := steps + [step];
    }
  }

  /** commonOperations: noise filter, rescale to 800 x 600, grayscale, bilateral denoise, in that order. */
  method CommonOperations(image: WorkingImage)
    modifies image
    ensures image.steps == old(image.steps) + Preprocessing
  {
    image.Apply(FilterNoise);
    image.Apply(Rescale(800, 600));
    image.Apply(ConvertToGrays);
    image.Apply(DenoiseBilateralFilter);
  }

  /** The two runtime_errors writeFeaturesToFile can throw, each naming the file. */
  datatype IoError = CouldNotOpen(path: string) | WriteFailed(path: string)

  /**
   * The file system as the exporter sees it: the current contents of each file, the
   * paths that can be opened for writing, and how many more characters the device
   * accepts before a write fails.
   */
  class FileSystem {
    var files: map<string, string>
    var writable: set<string>
    var room: nat

    constructor (files: map<string, string>, writable: set<string>, room: nat)
      ensures this.files == files && this.writable == writable && this.room == room
    {
      this.files, this.writable, this.room := files, writable, room;
    }

    /** std::ofstream outFile(path): opening for output empties the file. */
    method Truncate(path: string)
      requires path in writable
      modifies this`files
      ensures files == old(files)[path := []]
    {
      files := files[path := []];
    }

    /**
     * outFile << text: the characters that fit are stored; when not all of them fit,
     * the stream's fail bit is set, which is reported as `ok == false`.
     */
    method Write(path: string, text: string) returns (ok: bool)
      requires path in files
      modifies this`files, this`room
      ensures ok == (|text| <= old(room))
      ensures var n := if ok then |text| else old(room);
        files == old(files)[path := old(files)[path] + text[..n]] && room == old(room) - n
    {
      ok := |text| <= room;
      var n := if ok then |text| else room;
      files := files[path := files[path] + text[..n]];
      room := room - n;
    }
  }

  /** The file after the write of row k stored only what fit. */
  lemma TruncatedFile(files0: map<string, string>, path: string, features: seq<Feature>, k: nat, room0: nat)
    requires k < |features|
    requires |Serialize(features[..k])| <= room0 < |Serialize(features[..k])| + |Row(features[k])|
    ensures var done := Serialize(features[..k]);
      && room0 < |Serialize(features)|
      && files0[path := done][path := done + Row(features[k])[..room0 - |done|]] == files0[path := Serialize(features)[..room0]]
  {
    SerializeCut(features, k, room0);
  }

  /** The file after a successful write of row k holds the rows up to and including k. */
  lemma WrittenFile(files0: map<string, string>, path: string, features: seq<Feature>, k: nat)
    requires k < |features|
    ensures var done, row := Serialize(features[..k]), Row(features[k]);
      && |Serialize(features[..k + 1])| == |done| + |row|
      && files0[path := done][path := done + row[..|row|]] == files0[path := Serialize(features[..k + 1])]
  {
    var row := Row(features[k]);
    assert row[..|row|] == row;
    SerializeStep(features, k);
  }

  /**
   * writeFeaturesToFile: one `x,y\n` row per feature, in order. A path that cannot be
   * opened fails before anything is written; a write that fails stops the loop, so the
   * file holds exactly the part of the text that fit and no later feature. The features
   * are what the detector's const getanalyzeFeatures() returns, passed in as a parameter.
   */
  method WriteFeaturesToFile(fs: FileSystem, path: string, features: seq<Feature>) returns (r: Outcome<IoError>)
    modifies fs`files, fs`room
    ensures path !in fs.writable ==>
      r == Fail(CouldNotOpen(path)) && fs.files == old(fs.files) && fs.room == old(fs.room)
    ensures path in fs.writable ==>
      var text := Serialize(features);
      var n := if |text| <= old(fs.room) then |text| else old(fs.room);
      && fs.files == old(fs.files)[path := text[..n]]
      && fs.room == old(fs.room) - n
      && (r == Pass <==> |text| <= old(fs.room))
      && (r != Pass ==> r == Fail(WriteFailed(path)))
  {
    if path !in fs.writable {
      return Fail(CouldNotOpen(path));
    }
    fs.Truncate(path);
    var ok := WriteRows(fs, path, features);
    r := if ok then Pass else Fail(WriteFailed(path));
  }

  /** The loop of writeFeaturesToFile over an open, emptied file. */
  method WriteRows(fs: FileSystem, path: string, features: seq<Feature>) returns (ok: bool)
    requires path in fs.files && fs.files[path] == []
    modifies fs`files, fs`room
    ensures var text := Serialize(features);
      var n := if |text| <= old(fs.room) then |text| else old(fs.room);
      && fs.files == old(fs.files)[path := text[..n]]
      && fs.room == old(fs.room) - n
      && ok == (|text| <= old(fs.room))
  {
    ghost var files0, room0 := fs.files, fs.room;
    ghost var done: string := [];
    var k := 0;
    while k < |features|
      invariant 0 <= k <= |features|
      invariant done == Serialize(features[..k])
      invariant fs.files == files0[path := done]
      invariant |done| <= room0 && fs.room == room0 - |done|
    {
      var row := Row(features[k]);
      var written := fs.Write(path, row);
      if !written {
        TruncatedFile(files0, path, features, k, room0);
        return false;
      }
      WrittenFile(files0, path, features, k);
      done := Serialize(features[..k + 1]);
      k := k + 1;
    }
    assert features[..k] == features;
    assert done[..|done|] == done;
    return true;
  }
}
