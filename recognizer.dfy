/**
 * The recogniser (face_recognizer.py): the known-face lists rebuilt from the
 * folder of reference images, and the post-processing of one frame: matching
 * each detected face against the known encodings and scaling its box back to
 * the full frame.  Image decoding, face detection, encodings and distances are
 * computed by libraries outside this model and enter as given values.
 */
module Recognizer {
  import opened Wrappers
  import opened Text
  import opened Geometry

  const KnownFacesFolder := "static/image/faces"
  const AllowedExtensions := [".png", ".jpg", ".jpeg", ".bmp", ".tiff", ".webp"]
  /** A known face matches only when its distance is strictly below this. */
  const Tolerance: real := 0.6
  /** The name given to faces that match nobody. */
  const UnknownName := "Desconhecido"
  const UndecodableMessage := "Não foi possível decodificar a imagem."
  /** Detection runs on a frame resized by 0.25, so boxes are scaled back by this factor. */
  const BoxScale := 4

  /** A face encoding (a vector of 128 numbers); only compared through a distance. */
  type Encoding = seq<real>

  /** What loading one image and encoding its faces gave: an exception, or the encodings found. */
  datatype LoadResult = LoadFailed | Loaded(encodings: seq<Encoding>)

  /** One directory entry of the known-faces folder, with the outcome of loading it. */
  datatype KnownFile = KnownFile(name: string, isFile: bool, load: LoadResult)

  /** `filename.lower().endswith(ALLOWED_EXTENSIONS)`. */
  predicate IsFaceImage(name: string) {
    exists e :: e in AllowedExtensions && EndsWith(ToLower(name), e)
  }

  /** A regular image file in which at least one face was encoded. */
  predicate Contributes(f: KnownFile) {
    f.isFile && IsFaceImage(f.name) && f.load.Loaded? && f.load.encodings != []
  }

  /** The name a file contributes: its name without the extension. */
  function Stem(name: string): string {
    SplitExt(name).0
  }

  /** The encodings list after a rebuild from `files`: the first encoding of each contributing file. */
  function KnownEncodings(files: seq<KnownFile>): seq<Encoding> {
    if files == [] then []
    else
      var last := files[|files| - 1];
      KnownEncodings(files[..|files| - 1]) + (if Contributes(last) then [last.load.encodings[0]] else [])
  }

  /** The names list after a rebuild from `files`: the stem of each contributing file. */
  function KnownNames(files: seq<KnownFile>): seq<string> {
    if files == [] then []
    else
      var last := files[|files| - 1];
      KnownNames(files[..|files| - 1]) + (if Contributes(last) then [Stem(last.name)] else [])
  }

  /** The contributing files, in folder order. */
  function Contributing(files: seq<KnownFile>): (r: seq<KnownFile>)
    ensures forall f :: f in r ==> f in files
    ensures forall i :: 0 <= i < |r| ==> Contributes(r[i])
  {
    if files == [] then []
    else
      var last := files[|files| - 1];
      Contributing(files[..|files| - 1]) + (if Contributes(last) then [last] else [])
  }

  /**
   * The two lists stay parallel: both have one entry per contributing file, and
   * the entries at one index come from the same file.
   */
  lemma {:induction false} KnownListsParallel(files: seq<KnownFile>)
    ensures |KnownEncodings(files)| == |KnownNames(files)| == |Contributing(files)|
    ensures forall i :: 0 <= i < |Contributing(files)| ==>
              && KnownEncodings(files)[i] == Contributing(files)[i].load.encodings[0]
              && KnownNames(files)[i] == Stem(Contributing(files)[i].name)
  {
    if files != [] {
      var init := files[..|files| - 1];
      KnownListsParallel(init);
      var cs, encs, names := Contributing(files), KnownEncodings(files), KnownNames(files);
      var cs0, encs0, names0 := Contributing(init), KnownEncodings(init), KnownNames(init);
      assert cs[..|cs0|] == cs0 && encs[..|encs0|] == encs0 && names[..|names0|] == names0;
    }
  }

  /** Every contributing file of the folder is among the contributing files. */
  lemma {:induction false} ContributingComplete(files: seq<KnownFile>, j: int)
    requires 0 <= j < |files| && Contributes(files[j])
    ensures files[j] in Contributing(files)
  {
    var init := files[..|files| - 1];
    if j < |files| - 1 {
      assert files[j] == init[j];
      ContributingComplete(init, j);
    }
  }

  datatype Detection = Detection(name: string, box: Box)

  /** What `recognize_faces_in_frame` returns: an error dictionary or the list of detections. */
  datatype FrameResult = Undecodable(error: string) | Detected(faces: seq<Detection>)

  /** The detector's output on the quarter-size frame: face locations and, paired with them, encodings. */
  datatype SmallFrame = SmallFrame(locations: seq<Box>, encodings: seq<Encoding>)

  /** A box found on the quarter-size frame, in full-frame coordinates: every coordinate times 4. */
  function ScaleBox(b: Box): (r: Box)
    ensures r.right - r.left == BoxScale * (b.right - b.left) && r.bottom - r.top == BoxScale * (b.bottom - b.top)
    ensures b.left <= b.right && b.top <= b.bottom ==> r.left <= r.right && r.top <= r.bottom
    ensures r.top == BoxScale * b.top && r.left == BoxScale * b.left
  {
    Box(BoxScale * b.top, BoxScale * b.right, BoxScale * b.bottom, BoxScale * b.left)
  }

  /** `face_distance(known, e)`: the distance from `e` to each known encoding, in order. */
  function Distances(known: seq<Encoding>, e: Encoding, distance: (Encoding, Encoding) -> real): (ds: seq<real>)
    ensures |ds| == |known| && forall j :: 0 <= j < |known| ==> ds[j] == distance(known[j], e)
  {
    seq(|known|, j requires 0 <= j < |known| => distance(known[j], e))
  }

  /** `i` is the first index at which `ds` takes its minimum. */
  predicate IsFirstMin(ds: seq<real>, i: int) {
    && 0 <= i < |ds|
    && (forall k :: 0 <= k < |ds| ==> ds[i] <= ds[k])
    && (forall k :: 0 <= k < i ==> ds[i] < ds[k])
  }

  /** `np.argmin(ds)`: the first index of the minimum. */
  function FirstArgMin(ds: seq<real>): (i: nat)
    requires ds != []
    ensures IsFirstMin(ds, i)
  {
    if |ds| == 1 then 0
    else
      var j := FirstArgMin(ds[..|ds| - 1]);
      assert forall k :: 0 <= k < |ds| - 1 ==> ds[..|ds| - 1][k] == ds[k];
      if ds[|ds| - 1] < ds[j] then |ds| - 1 else j
  }

  /** The name given to a face whose distances to the known encodings are `ds`. */
  function MatchName(names: seq<string>, ds: seq<real>): (r: string)
    requires |ds| == |names| > 0
    ensures (exists k :: 0 <= k < |ds| && ds[k] < Tolerance) ==> r == names[FirstArgMin(ds)]
    ensures (forall k :: 0 <= k < |ds| ==> Tolerance <= ds[k]) ==> r == UnknownName
    ensures r == UnknownName || r in names
  {
    var best := FirstArgMin(ds);
    if ds[best] < Tolerance then names[best] else UnknownName
  }

  /**
   * The matching rule: the known name at the first index of the minimum distance
   * when that distance is below the tolerance, the unknown name otherwise.
   */
  lemma MatchRule(names: seq<string>, ds: seq<real>, i: int)
    requires |ds| == |names| > 0
    requires IsFirstMin(ds, i)
    ensures MatchName(names, ds) == (if ds[i] < Tolerance then names[i] else UnknownName)
    ensures ds[i] < Tolerance <==> exists k :: 0 <= k < |ds| && ds[k] < Tolerance
  {
  }

  /** The known faces: the two global lists, rebuilt together. */
  class KnownFaces {
    var encodings: seq<Encoding>
    var names: seq<string>

    ghost predicate Valid()
      reads this
    {
      |encodings| == |names|
    }

    constructor ()
      ensures Valid() && encodings == [] && names == []
    {
      encodings := [];
      names := [];
    }

    /**
     * `initialize_recognizer` over the folder's entries: both lists are emptied,
     * then each regular image file with at least one face adds its first
     * encoding and its stem; other entries and failed loads add nothing.
     */
    method Initialize(folder: seq<KnownFile>)
      modifies this
      ensures Valid()
      ensures encodings == KnownEncodings(folder) && names == KnownNames(folder)
    {
      encodings := [];
      names := [];
      var i := 0;
      while i < |folder|
        invariant 0 <= i <= |folder|
        invariant encodings == KnownEncodings(folder[..i]) && names == KnownNames(folder[..i])
      {
        var f := folder[i];
        assert folder[..i + 1][..i] == folder[..i];
        if f.isFile && IsFaceImage(f.name) {
          match f.load {
            case Loaded(found) =>
              if found != [] {
                encodings := encodings + [found[0]];
                names := names + [Stem(f.name)];
              }
            case LoadFailed =>
          }
        }
        i := i + 1;
      }
      assert folder[..|folder|] == folder;
      KnownListsParallel(folder);
    }

    /**
     * `recognize_faces_in_frame`: `frame` is None when the bytes do not decode;
     * `distance` stands for the library's face distance.
     */
    method RecognizeFacesInFrame(frame: Option<SmallFrame>, distance: (Encoding, Encoding) -> real)
      returns (r: FrameResult)
      requires Valid()
      ensures frame.None? <==> r.Undecodable?
      ensures frame.None? ==> r.error == UndecodableMessage
      ensures frame.Some? && encodings == [] ==>
                && |r.faces| == |frame.value.locations|
                && forall i :: 0 <= i < |r.faces| ==>
                     r.faces[i] == Detection(UnknownName, ScaleBox(frame.value.locations[i]))
      ensures frame.Some? && encodings != [] ==>
                && |r.faces| == (if |frame.value.locations| < |frame.value.encodings|
                                 then |frame.value.locations| else |frame.value.encodings|)
                && forall i :: 0 <= i < |r.faces| ==>
                     r.faces[i] == Detection(MatchName(names, Distances(encodings, frame.value.encodings[i], distance)),
                                             ScaleBox(frame.value.locations[i]))
    {
      if frame.None? {
        return Undecodable(UndecodableMessage);
      }
      var results;
      if encodings == [] {
        results := AllUnknown(frame.value.locations);
      } else {
        results := MatchAll(frame.value.locations, frame.value.encodings, distance);
      }
      return Detected(results);
    }

    /** The first loop: with no known encodings every location is reported unknown. */
    method AllUnknown(locations: seq<Box>) returns (results: seq<Detection>)
      ensures |results| == |locations|
      ensures forall k :: 0 <= k < |locations| ==> results[k] == Detection(UnknownName, ScaleBox(locations[k]))
    {
      results := [];
      var i := 0;
      while i < |locations|
        invariant 0 <= i <= |locations| && |results| == i
        invariant forall k :: 0 <= k < i ==> results[k] == Detection(UnknownName, ScaleBox(locations[k]))
      {
        var loc := locations[i];
        var top, right, bottom, left := loc.top, loc.right, loc.bottom, loc.left;
        top, right, bottom, left := top * 4, right * 4, bottom * 4, left * 4;
        results := results + [Detection(UnknownName, Box(top, right, bottom, left))];
        i := i + 1;
      }
    }

    /** The second loop: each location paired with its encoding is matched against the known faces. */
    method MatchAll(locations: seq<Box>, found: seq<Encoding>, distance: (Encoding, Encoding) -> real)
      returns (results: seq<Detection>)
      requires Valid() && encodings != []
      ensures |results| == (if |locations| < |found| then |locations| else |found|)
      ensures forall k :: 0 <= k < |results| ==>
                results[k] == Detection(MatchName(names, Distances(encodings, found[k], distance)), ScaleBox(locations[k]))
    {
      results := [];
      var n := if |locations| < |found| then |locations| else |found|;
      var i := 0;
      while i < n
        invariant 0 <= i <= n && |results| == i
        invariant forall k :: 0 <= k < i ==>
                    results[k] == Detection(MatchName(names, Distances(encodings, found[k], distance)), ScaleBox(locations[k]))
      {
        var name := UnknownName;
        var faceDistances := Distances(encodings, found[i], distance);
        var bestMatchIndex := FirstArgMin(faceDistances);
        if faceDistances[bestMatchIndex] < Tolerance {
          name := names[bestMatchIndex];
        }
        var loc := locations[i];
        var top, right, bottom, left := loc.top, loc.right, loc.bottom, loc.left;
        top, right, bottom, left := top * 4, right * 4, bottom * 4, left * 4;
        results := results + [Detection(name, Box(top, right, bottom, left))];
        i := i + 1;
      }
    }
  }
}
