/**
 * The web server (app.py): the extension rule, the frame endpoint's data-URI
 * handling, the upload endpoint's ladder of checks, the listing of registered
 * faces and the delete endpoint's ladder of errors.  Requests and replies are
 * values; the folder is the list of its entries; libraries whose code is not
 * part of this model (base64 decoding, image inspection, `secure_filename`) are
 * parameters.
 */
module Server {
  import opened Wrappers
  import opened Text
  import opened Checks
  import Recognizer

  const UploadFolder := "static/uploads/faces"
  const AllowedExtensions: set<string> := {"png", "jpg", "jpeg", "bmp", "tiff", "webp"}
  const MaxFileSize := 16 * 1024 * 1024
  const MinFileSize := 1024
  const MinNameLength := 2
  const MaxNameLength := 50

  /** `allowed_file`: there is a '.' and the lower-cased text after the last one is an allowed extension. */
  function AllowedFile(filename: string): (ok: bool)
    ensures ok ==> '.' in filename && 3 <= |AfterLastDot(filename)| <= 4 && 4 <= |filename|
    ensures '.' !in filename ==> !ok
  {
    '.' in filename && ToLower(AfterLastDot(filename)) in AllowedExtensions
  }

  // ------------------------------------------------------------ process_frame

  const DataImagePrefix := "data:image"

  /**
   * The payload of the `image` field: a string starting with "data:image" is
   * replaced by `split(',')[1]`, the text between its first and second comma;
   * without a comma that indexing fails, with the message of Python's IndexError.
   */
  function StripDataUri(image: string): (r: Result<string, string>)
    ensures !StartsWith(image, DataImagePrefix) ==> r == Ok(image)
    ensures StartsWith(image, DataImagePrefix) && ',' !in image ==> r == Err("list index out of range")
    ensures StartsWith(image, DataImagePrefix) && ',' in image ==>
              && r.Ok? && ',' !in r.value
              && var rest := image[FirstIndex(image, ',') + 1..];
                 StartsWith(rest, r.value) && (|r.value| == |rest| || rest[|r.value|] == ',')
  {
    if !StartsWith(image, DataImagePrefix) then Ok(image)
    else if ',' !in image then Err("list index out of range")
    else
      var rest := image[FirstIndex(image, ',') + 1..];
      if ',' in rest then Ok(rest[..FirstIndex(rest, ',')]) else Ok(rest)
  }

  /** What a browser's `toDataURL` produces, a comma-free header and a base64 payload, gives back the payload. */
  lemma DataUriRoundTrip(header: string, payload: string)
    requires StartsWith(header, DataImagePrefix) && ',' !in header && ',' !in payload
    ensures StripDataUri(header + "," + payload) == Ok(payload)
  {
    var image := header + "," + payload;
    assert image[..|DataImagePrefix|] == header[..|DataImagePrefix|];
    assert image[|header|] == ',';
    assert image[..|header|] == header;
    assert FirstIndex(image, ',') == |header|;
    assert image[|header| + 1..] == payload;
  }

  /** The reply of `/api/process-frame`. */
  datatype FrameResponse =
    | FrameFailed(status: nat, error: string)
    | FrameOk(faces: seq<Recognizer.Detection>, count: nat)

  /**
   * `process_frame`: `image` is None when the body is missing or has no
   * `image` key; `decode` stands for `base64.b64decode`, whose failure is
   * caught like any other exception; `recognise` stands for
   * `recognize_faces_in_frame` on the decoded bytes, `Err` being an exception
   * raised inside it (by the image or face libraries), which the same handler
   * catches.
   */
  function ProcessFrame(image: Option<string>, decode: string -> Result<seq<bv8>, string>,
                        recognise: seq<bv8> -> Result<Recognizer.FrameResult, string>): (r: FrameResponse)
    ensures image.None? ==> r == FrameFailed(400, "No image data provided")
    ensures r.FrameFailed? && r.status != 400 ==> r.status == 500
    ensures image.Some? && StripDataUri(image.value).Err? ==>
              r == FrameFailed(500, "Frame processing failed: " + StripDataUri(image.value).error)
    ensures image.Some? && StripDataUri(image.value).Ok? && decode(StripDataUri(image.value).value).Err? ==>
              r == FrameFailed(500, "Frame processing failed: " + decode(StripDataUri(image.value).value).error)
    ensures image.Some? && StripDataUri(image.value).Ok? && decode(StripDataUri(image.value).value).Ok? ==>
              var found := recognise(decode(StripDataUri(image.value).value).value);
              && (found.Err? ==> r == FrameFailed(500, "Frame processing failed: " + found.error))
              && (found.Ok? && found.value.Undecodable? ==> r == FrameFailed(500, found.value.error))
              && (found.Ok? && found.value.Detected? ==> r == FrameOk(found.value.faces, |found.value.faces|))
    ensures r.FrameOk? ==>
              && image.Some? && StripDataUri(image.value).Ok? && decode(StripDataUri(image.value).value).Ok?
              && recognise(decode(StripDataUri(image.value).value).value) == Ok(Recognizer.Detected(r.faces))
              && r.count == |r.faces|
  {
    if image.None? then FrameFailed(400, "No image data provided")
    else match StripDataUri(image.value)
      case Err(e) => FrameFailed(500, "Frame processing failed: " + e)
      case Ok(payload) =>
        match decode(payload)
        case Err(e) => FrameFailed(500, "Frame processing failed: " + e)
        case Ok(bytes) =>
          match recognise(bytes)
          case Err(e) => FrameFailed(500, "Frame processing failed: " + e)
          case Ok(Undecodable(e)) => FrameFailed(500, e)
          case Ok(Detected(fs)) => FrameOk(fs, |fs|)
  }

  // -------------------------------------------------------------- upload_face

  /** The uploaded file part: its client-side file name and its size in bytes. */
  datatype UploadedFile = UploadedFile(filename: string, size: nat)

  /** The multipart request: the `file` part and the `name` field, each possibly absent. */
  datatype UploadRequest = UploadRequest(file: Option<UploadedFile>, name: Option<string>)

  /** The upload checks that answer 400, in the order the endpoint makes them. */
  datatype UploadCheck =
    | NoFile | NoName | EmptyName | NameTooShort | NameTooLong
    | NoFileSelected | InvalidType | FileTooLarge | FileTooSmall

  const UploadOrder := [NoFile, NoName, EmptyName, NameTooShort, NameTooLong,
                        NoFileSelected, InvalidType, FileTooLarge, FileTooSmall]

  /**
   * Whether check `c` fails, each check on its own, for a request whose name
   * has already been stripped.
   */
  predicate UploadFails(c: UploadCheck, req: UploadRequest) {
    match c
    case NoFile => req.file.None?
    case NoName => req.name.None?
    case EmptyName => req.name.Some? && req.name.value == ""
    case NameTooShort => req.name.Some? && |req.name.value| < MinNameLength
    case NameTooLong => req.name.Some? && |req.name.value| > MaxNameLength
    case NoFileSelected => req.file.Some? && req.file.value.filename == ""
    case InvalidType => req.file.Some? && !AllowedFile(req.file.value.filename)
    case FileTooLarge => req.file.Some? && req.file.value.size > MaxFileSize
    case FileTooSmall => req.file.Some? && req.file.value.size < MinFileSize
  }

  function CheckMessage(c: UploadCheck): string {
    match c
    case NoFile => "No file provided"
    case NoName => "No name provided"
    case EmptyName => "Name cannot be empty"
    case NameTooShort => "Name must be at least 2 characters long"
    case NameTooLong => "Name must be less than 50 characters"
    case NoFileSelected => "No file selected"
    case InvalidType => "Invalid file type. Please upload PNG, JPEG, BMP, TIFF, or WEBP images"
    case FileTooLarge => "File too large. Maximum size is 16MB"
    case FileTooSmall => "File too small. Please upload a valid image"
  }

  /** The request as the checks see it: the `name` field stripped of surrounding whitespace. */
  function Stripped(req: UploadRequest): UploadRequest {
    req.(name := if req.name.Some? then Some(PyStrip(req.name.value)) else None)
  }

  /** The ladder of early returns over a stripped request. */
  function CheckUpload(req: UploadRequest): (r: Result<(string, UploadedFile), UploadCheck>)
    ensures r.Ok? ==> req.name == Some(r.value.0) && req.file == Some(r.value.1)
    ensures r.Ok? ==> MinNameLength <= |r.value.0| <= MaxNameLength
    ensures r.Ok? ==> AllowedFile(r.value.1.filename) && MinFileSize <= r.value.1.size <= MaxFileSize
  {
    if req.file.None? then Err(NoFile)
    else if req.name.None? then Err(NoName)
    else
      var file, name := req.file.value, req.name.value;
      if name == "" then Err(EmptyName)
      else if |name| < MinNameLength then Err(NameTooShort)
      else if |name| > MaxNameLength then Err(NameTooLong)
      else if file.filename == "" then Err(NoFileSelected)
      else if !AllowedFile(file.filename) then Err(InvalidType)
      else if file.size > MaxFileSize then Err(FileTooLarge)
      else if file.size < MinFileSize then Err(FileTooSmall)
      else Ok((name, file))
  }

  /** The checks of `upload_face`: the stripped name and the file, or the check that refused them. */
  function ValidateUpload(req: UploadRequest): (r: Result<(string, UploadedFile), UploadCheck>)
    ensures r.Ok? ==> req.name.Some? && r.value.0 == PyStrip(req.name.value) && req.file == Some(r.value.1)
    ensures r.Ok? ==> MinNameLength <= |r.value.0| <= MaxNameLength
    ensures r.Ok? ==> AllowedFile(r.value.1.filename) && MinFileSize <= r.value.1.size <= MaxFileSize
  {
    CheckUpload(Stripped(req))
  }

  /** The checks as one predicate over `UploadCheck`, to hand to `FirstFailing`. */
  function UploadChecksOf(req: UploadRequest): UploadCheck -> bool {
    c => UploadFails(c, Stripped(req))
  }

  /** The endpoint answers with exactly the first check, in `UploadOrder`, that fails. */
  lemma ValidateUploadIsFirstFailing(req: UploadRequest)
    ensures ValidateUpload(req).Ok? <==> FirstFailing(UploadOrder, UploadChecksOf(req)).None?
    ensures ValidateUpload(req).Err? ==>
              FirstFailing(UploadOrder, UploadChecksOf(req)) == Some(ValidateUpload(req).error)
  {
    var s := Stripped(req);
    if CheckUpload(s).Ok? {
      assert forall c :: !UploadFails(c, s);
    } else {
      var c := CheckUpload(s).error;
      RefusalFollowsPassingChecks(s, c);
      FirstFailingAt(UploadOrder, UploadChecksOf(req), Rank(c));
    }
  }

  /** The position of a check in `UploadOrder`. */
  function Rank(c: UploadCheck): (k: nat)
    ensures k < |UploadOrder| && UploadOrder[k] == c
  {
    match c
    case NoFile => 0 case NoName => 1 case EmptyName => 2 case NameTooShort => 3 case NameTooLong => 4
    case NoFileSelected => 5 case InvalidType => 6 case FileTooLarge => 7 case FileTooSmall => 8
  }

  /** The check the ladder refuses with fails, and every check before it passes. */
  lemma RefusalFollowsPassingChecks(req: UploadRequest, c: UploadCheck)
    requires CheckUpload(req) == Err(c)
    ensures UploadFails(c, req)
    ensures forall j :: 0 <= j < Rank(c) ==> !UploadFails(UploadOrder[j], req)
  {}

  /** With an acceptable file, a non-blank name passes exactly when it is 2 to 50 characters long. */
  lemma UploadNameBounds(name: string, file: UploadedFile)
    requires PyStrip(name) != ""
    requires file.filename != "" && AllowedFile(file.filename) && MinFileSize <= file.size <= MaxFileSize
    ensures ValidateUpload(UploadRequest(Some(file), Some(name))).Ok? <==> 2 <= |PyStrip(name)| <= 50
    ensures |PyStrip(name)| == 1 ==> ValidateUpload(UploadRequest(Some(file), Some(name))) == Err(NameTooShort)
    ensures |PyStrip(name)| == 51 ==> ValidateUpload(UploadRequest(Some(file), Some(name))) == Err(NameTooLong)
  {}

  /** The file name the face is stored under, before `secure_filename`: the name and the lower-cased extension. */
  function StoredName(name: string, filename: string): (r: string)
    requires '.' in filename
    ensures |r| == |name| + 1 + |AfterLastDot(filename)|
    ensures r[..|name|] == name && r[|name|] == '.' && '.' !in r[|name| + 1..]
  {
    name + "." + ToLower(AfterLastDot(filename))
  }

  /**
   * The stored name passes the extension rule again, and, for a name without
   * '/' that is not made of dots only, splitting off its extension gives the
   * name back, as the listing does.
   */
  lemma StoredNameRoundTrip(name: string, filename: string)
    requires AllowedFile(filename)
    requires '/' !in name && exists k :: 0 <= k < |name| && name[k] != '.'
    ensures AllowedFile(StoredName(name, filename))
    ensures SplitExt(StoredName(name, filename)).0 == name
  {
    var ext := ToLower(AfterLastDot(filename));
    var stored := StoredName(name, filename);
    StoredNameExtension(name, filename);
    ToLowerIdempotent(AfterLastDot(filename));
    assert ToLower(AfterLastDot(stored)) == ext && ext in AllowedExtensions;
    ExtensionIsPlain(ext);
    SplitExtOfStemAndExt(name, ext);
  }

  /** An allowed extension holds neither '.' nor '/'. */
  lemma ExtensionIsPlain(x: string)
    requires x in AllowedExtensions
    ensures '.' !in x && '/' !in x
  {
    assert x == "png" || x == "jpg" || x == "jpeg" || x == "bmp" || x == "tiff" || x == "webp";
  }

  /** The stored name is the name, a '.', and the lower-cased extension, which is what `rsplit` finds again. */
  lemma StoredNameExtension(name: string, filename: string)
    requires '.' in filename
    ensures var ext := ToLower(AfterLastDot(filename));
      && '.' !in ext
      && StoredName(name, filename) == name + "." + ext
      && AfterLastDot(StoredName(name, filename)) == ext
  {
    var ext := ToLower(AfterLastDot(filename));
    var stored := StoredName(name, filename);
    assert '.' !in ext;
    assert stored[|name|] == '.';
    assert forall k :: |name| < k < |stored| ==> stored[k] == ext[k - |name| - 1];
    assert LastIndex(stored, '.') == |name|;
  }

  const NoFaceMessage := "No face detected in the image. Please upload a clear photo with a visible face."
  const MultipleFacesMessage := "Multiple faces detected. Please upload an image with only one face."

  /** What the image library made of the upload: an error, or the number of faces it encoded. */
  datatype ImageInspection = Unreadable(reason: string) | FacesFound(count: nat)

  datatype UploadResponse =
    | UploadRejected(status: nat, error: string)
    | Added(message: string, filename: string)

  /**
   * The part of `upload_face` after the checks: refuse a name already known,
   * then an image that cannot be read or does not show exactly one face;
   * otherwise the face is stored under `secure` (standing for
   * `secure_filename`) of its stored name.
   */
  function AdmitFace(name: string, file: UploadedFile, knownNames: seq<string>,
                     image: ImageInspection, secure: string -> string): (r: UploadResponse)
    requires AllowedFile(file.filename)
    ensures name in knownNames ==> r.UploadRejected? && r.status == 400
    ensures r.UploadRejected? ==> r.status == 400
    ensures r.Added? <==> name !in knownNames && image == FacesFound(1)
    ensures r.Added? ==>
              && r.filename == secure(StoredName(name, file.filename))
              && r.message == "Face for \"" + name + "\" added successfully!"
  {
    var filename := secure(StoredName(name, file.filename));
    if name in knownNames then
      UploadRejected(400, "A face with the name \"" + name + "\" already exists. Please use a different name.")
    else match image
      case Unreadable(reason) => UploadRejected(400, "Invalid image file: " + reason)
      case FacesFound(n) =>
        if n == 0 then
          UploadRejected(400, NoFaceMessage)
        else if n > 1 then
          UploadRejected(400, MultipleFacesMessage)
        else Added("Face for \"" + name + "\" added successfully!", filename)
  }

  /**
   * `upload_face`: `recognizerReady` is whether (re)initialising the recogniser
   * succeeded; `knownNames` is what the known-face lookup returns; `image` is
   * what image validation and encoding found.
   */
  function UploadFace(recognizerReady: bool, req: UploadRequest, knownNames: seq<string>,
                      image: ImageInspection, secure: string -> string): (r: UploadResponse)
    ensures !recognizerReady ==> r == UploadRejected(500, "Face recognition system not available")
    ensures recognizerReady && ValidateUpload(req).Err? ==>
              r == UploadRejected(400, CheckMessage(ValidateUpload(req).error))
    ensures r.Added? ==>
              && recognizerReady && ValidateUpload(req).Ok?
              && PyStrip(req.name.value) !in knownNames && image == FacesFound(1)
    ensures recognizerReady && ValidateUpload(req).Ok? ==>
              var (name, file) := ValidateUpload(req).value;
              r == AdmitFace(name, file, knownNames, image, secure)
  {
    if !recognizerReady then UploadRejected(500, "Face recognition system not available")
    else match ValidateUpload(req)
      case Err(c) => UploadRejected(400, CheckMessage(c))
      case Ok((name, file)) => AdmitFace(name, file, knownNames, image, secure)
  }

  // ---------------------------------------------------------------- get_faces

  /** One entry of a folder listing: its name and whether it is a regular file. */
  datatype DirEntry = DirEntry(name: string, isFile: bool)

  /** One listed face: the display name and the file name that identifies it. */
  datatype FaceEntry = FaceEntry(name: string, filename: string)

  /** The entries `get_faces` reports: not hidden, a regular file, an allowed extension. */
  predicate Listable(e: DirEntry) {
    !StartsWith(e.name, ".") && e.isFile && AllowedFile(e.name)
  }

  function EntryOf(e: DirEntry): FaceEntry {
    FaceEntry(SplitExt(e.name).0, e.name)
  }

  /** The listing of `entries`, in listing order. */
  function ListedFaces(entries: seq<DirEntry>): seq<FaceEntry> {
    if entries == [] then []
    else
      var last := entries[|entries| - 1];
      ListedFaces(entries[..|entries| - 1]) + (if Listable(last) then [EntryOf(last)] else [])
  }

  /** Every listed face comes from a listable entry, and every listable entry is listed. */
  lemma {:induction false} ListedFacesExact(entries: seq<DirEntry>)
    ensures forall f :: f in ListedFaces(entries) ==>
              exists e :: e in entries && Listable(e) && f == EntryOf(e)
    ensures forall e :: e in entries && Listable(e) ==> EntryOf(e) in ListedFaces(entries)
  {
    if entries != [] {
      var init := entries[..|entries| - 1];
      ListedFacesExact(init);
      forall e | e in entries && Listable(e) ensures EntryOf(e) in ListedFaces(entries) {
        if e != entries[|entries| - 1] {
          var k :| 0 <= k < |entries| && entries[k] == e;
          assert init[k] == e;
        }
      }
      forall f | f in ListedFaces(entries) ensures exists e :: e in entries && Listable(e) && f == EntryOf(e) {
        if f in ListedFaces(init) {
          var e :| e in init && Listable(e) && f == EntryOf(e);
          assert e in entries;
        }
      }
    }
  }

  lemma ListedFacesStep(entries: seq<DirEntry>, i: nat)
    requires i < |entries|
    ensures ListedFaces(entries[..i + 1])
            == ListedFaces(entries[..i]) + (if Listable(entries[i]) then [EntryOf(entries[i])] else [])
  {
    assert entries[..i + 1][..i] == entries[..i];
  }

  /**
   * When `secure_filename` leaves the stored name as it is, the file an
   * accepted upload writes is listed under the name it was uploaded with.
   */
  lemma AddedFaceIsListed(name: string, file: UploadedFile, knownNames: seq<string>,
                          secure: string -> string, entries: seq<DirEntry>)
    requires AllowedFile(file.filename)
    requires name != [] && name[0] != '.' && '/' !in name
    requires secure(StoredName(name, file.filename)) == StoredName(name, file.filename)
    requires AdmitFace(name, file, knownNames, FacesFound(1), secure).Added?
    ensures var saved := AdmitFace(name, file, knownNames, FacesFound(1), secure).filename;
            ListedFaces(entries + [DirEntry(saved, true)]) == ListedFaces(entries) + [FaceEntry(name, saved)]
  {
    var saved := StoredName(name, file.filename);
    StoredNameIsListable(name, file.filename);
    ListedFacesSnoc(entries, DirEntry(saved, true));
  }

  /** A stored upload name is a visible file name with an allowed extension, and it lists as `name`. */
  lemma StoredNameIsListable(name: string, filename: string)
    requires AllowedFile(filename)
    requires name != [] && name[0] != '.' && '/' !in name
    ensures Listable(DirEntry(StoredName(name, filename), true))
    ensures EntryOf(DirEntry(StoredName(name, filename), true)) == FaceEntry(name, StoredName(name, filename))
  {
    StoredNameRoundTrip(name, filename);
    assert StoredName(name, filename)[0] == name[0];
  }

  /** Appending a listable entry appends its face to the listing. */
  lemma ListedFacesSnoc(entries: seq<DirEntry>, e: DirEntry)
    requires Listable(e)
    ensures ListedFaces(entries + [e]) == ListedFaces(entries) + [EntryOf(e)]
  {
    var all := entries + [e];
    assert all[..|all| - 1] == entries;
  }

  /** `get_faces`: `folder` is None when the upload folder does not exist. */
  method GetFaces(folder: Option<seq<DirEntry>>) returns (faces: seq<FaceEntry>, count: nat)
    ensures faces == (if folder.None? then [] else ListedFaces(folder.value))
    ensures count == |faces|
  {
    faces := [];
    count := 0;
    if folder.Some? {
      var entries := folder.value;
      var i := 0;
      while i < |entries|
        invariant 0 <= i <= |entries|
        invariant faces == ListedFaces(entries[..i]) && count == |faces|
      {
        var entry := entries[i];
        ListedFacesStep(entries, i);
        if StartsWith(entry.name, ".") {
          i := i + 1;
          continue;
        }
        if entry.isFile && AllowedFile(entry.name) {
          var name := SplitExt(entry.name).0;
          faces := faces + [FaceEntry(name, entry.name)];
          count := count + 1;
        }
        i := i + 1;
      }
      assert entries[..|entries|] == entries;
    }
  }

  // -------------------------------------------------------------- delete_face

  /** Whether the folder has an entry called `name`. */
  predicate Present(folder: seq<DirEntry>, name: string) {
    exists e :: e in folder && e.name == name
  }

  /** The folder after removing the entries called `name`. */
  function Without(folder: seq<DirEntry>, name: string): (r: seq<DirEntry>)
    ensures forall e :: e in r <==> e in folder && e.name != name
  {
    if folder == [] then []
    else
      var rest := Without(folder[1..], name);
      assert forall e :: e in folder <==> e == folder[0] || e in folder[1..];
      if folder[0].name == name then rest else [folder[0]] + rest
  }

  datatype DeleteResponse =
    | DeleteFailed(status: nat, error: string)
    | Deleted(message: string, remaining: seq<DirEntry>)

  /**
   * `delete_face`: `filename` is None when the body is missing or has no
   * `filename` key; `removeError` is the operating system's message when the
   * entry cannot be removed because it is not a file.
   */
  function DeleteFace(filename: Option<string>, folder: seq<DirEntry>, removeError: string): (r: DeleteResponse)
    ensures filename.None? ==> r == DeleteFailed(400, "No filename provided")
    ensures filename.Some? && !Present(folder, filename.value) ==> r == DeleteFailed(404, "Face not found")
    ensures filename.Some? && Present(folder, filename.value) ==>
              (r.Deleted? <==> exists e :: e in folder && e.name == filename.value && e.isFile)
    ensures r.DeleteFailed? && r.status != 400 && r.status != 404 ==>
              r == DeleteFailed(500, "Delete failed: " + removeError)
    ensures r.Deleted? ==>
              && filename.Some? && Present(folder, filename.value)
              && !Present(r.remaining, filename.value)
              && (forall e :: e in folder && e.name != filename.value ==> e in r.remaining)
              && (forall e :: e in r.remaining ==> e in folder)
              && r.remaining == Without(folder, filename.value)
              && r.message == "Face \"" + SplitExt(filename.value).0 + "\" deleted successfully!"
  {
    if filename.None? then DeleteFailed(400, "No filename provided")
    else
      var name := filename.value;
      if !Present(folder, name) then DeleteFailed(404, "Face not found")
      else if !(exists e :: e in folder && e.name == name && e.isFile) then DeleteFailed(500, "Delete failed: " + removeError)
      else Deleted("Face \"" + SplitExt(name).0 + "\" deleted successfully!", Without(folder, name))
  }
}
