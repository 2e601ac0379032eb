/**
 * The browser client `FaceRecognitionApp` (static/js/app.js): the recognition
 * loop with its busy flag and throttle, the mirrored overlay, the summary of the
 * last recognition, the upload form's checks and the delete handler.
 *
 * Time is the parameter `now` (milliseconds), the animation-frame callback is a
 * call to `Tick`, and the completion of the asynchronous request is a call to
 * `EndFrame` with the reply the network delivered.
 */
module ClientApp {
  import opened Wrappers
  import opened Text
  import opened Checks
  import opened Geometry
  import opened ClientCommon

  // ---------------------------------------------------------------- overlay

  /** One detection as the client reads it from the recognition reply. */
  datatype Face = Face(box: Box, name: string, confidence: Option<real>)

  /** The name the client treats as "not recognised". */
  const UnknownName := "Unknown"

  const WarningColour := "#ffc107"
  const SuccessColour := "#28a745"
  const WarningFill := "rgba(255, 193, 7, 0.1)"
  const SuccessFill := "rgba(40, 167, 69, 0.1)"
  const DarkText := "#212529"
  const LightText := "white"

  /** Stroke, translucent fill, label background and label text colours of one box. */
  datatype Palette = Palette(stroke: string, fill: string, labelBackground: string, text: string)

  /** Warning colours for the unknown sentinel, success colours for every other name. */
  function PaletteFor(name: string): (p: Palette)
    ensures p.stroke == WarningColour <==> name == UnknownName
    ensures p.stroke == SuccessColour <==> name != UnknownName
    ensures p.fill == WarningFill <==> name == UnknownName
    ensures p.fill == SuccessFill <==> name != UnknownName
    ensures p.labelBackground == p.stroke
    ensures p.text == (if p.stroke == WarningColour then DarkText else LightText)
  {
    if name == UnknownName then Palette(WarningColour, WarningFill, WarningColour, DarkText)
    else Palette(SuccessColour, SuccessFill, SuccessColour, LightText)
  }

  /** `face.confidence || 0`. */
  function ConfidenceOrZero(f: Face): real {
    f.confidence.GetOr(0.0)
  }

  /**
   * The label: the name, followed by " (p%)" only when the confidence is positive;
   * `percent` is the rounded percentage the browser computes.
   */
  function LabelText(name: string, confidence: real, percent: nat): (r: string)
    ensures StartsWith(r, name)
    ensures r == name <==> confidence <= 0.0
    ensures confidence > 0.0 ==> StartsWith(r, name + " (") && EndsWith(r, "%)")
  {
    if confidence > 0.0 then name + " (" + NatToString(percent) + "%)" else name
  }

  /**
   * The outline of a box on the mirrored display: both horizontal edges are
   * reflected (`adjustedLeft = width - right`, `adjustedRight = width - left`).
   */
  function MirroredRect(width: int, b: Box): (r: Rect)
    ensures r.x == width - b.right && r.x + r.w == width - b.left
    ensures r.y == b.top && r.y + r.h == b.bottom
  {
    var adjustedLeft := width - b.right;
    var adjustedRight := width - b.left;
    Rect(adjustedLeft, b.top, adjustedRight - adjustedLeft, b.bottom - b.top)
  }

  /** On a 300-pixel-wide canvas the box 20..110 is drawn at 190..280. */
  lemma MirroredRectExample()
    ensures MirroredRect(300, Box(10, 110, 60, 20)) == Rect(190, 10, 90, 50)
  {}

  /** A box inside the frame stays inside the frame, with the same width, once mirrored. */
  lemma MirroredRectInsideCanvas(width: int, b: Box)
    requires 0 <= b.left <= b.right <= width
    ensures var r := MirroredRect(width, b);
      0 <= r.x && r.x + r.w <= width && r.w == b.right - b.left
  {}

  /** Everything drawn for one face. */
  datatype FaceOverlay = FaceOverlay(
    outline: Rect, palette: Palette, caption: string, labelBackground: Rect, labelAt: Point)

  /**
   * The drawing of one face; `percentOf` stands for `Math.round(c * 100)` and
   * `measure` for the canvas's `measureText(...).width`.
   */
  function OverlayOf(width: int, f: Face, percentOf: real -> nat, measure: string -> int): (o: FaceOverlay)
    ensures o.outline == MirroredRect(width, f.box)
    ensures o.palette == PaletteFor(f.name)
    ensures o.caption == LabelText(f.name, ConfidenceOrZero(f), percentOf(ConfidenceOrZero(f)))
    ensures o.labelBackground.x == o.outline.x && o.labelAt.x == o.outline.x + 8
    ensures o.labelBackground.y + o.labelBackground.h == o.outline.y - 4
    ensures o.labelBackground.w == measure(o.caption) + 16
    ensures o.labelBackground.h == 24 && o.labelAt.y == o.outline.y - 10
    ensures o.labelBackground.y < o.labelAt.y < o.labelBackground.y + o.labelBackground.h
  {
    var outline := MirroredRect(width, f.box);
    var c := ConfidenceOrZero(f);
    var caption := LabelText(f.name, c, percentOf(c));
    FaceOverlay(outline, PaletteFor(f.name), caption,
                Rect(outline.x, f.box.top - 28, measure(caption) + 16, 24),
                Point(outline.x + 8, f.box.top - 10))
  }

  /** The faces' names, in reply order. */
  function Names(faces: seq<Face>): seq<string> {
    NamesOf(faces, (f: Face) => f.name)
  }

  const NoFacesText := "No faces detected"

  /** The "last recognition" text of a reply. */
  function Summary(faces: seq<Face>): string {
    SummaryText(Names(faces), NoFacesText)
  }

  /**
   * `drawFaceDetections`: draws every face in reply order while collecting the
   * names, then sets the summary.
   */
  method DrawFaceDetections(width: int, faces: seq<Face>, percentOf: real -> nat, measure: string -> int)
    returns (overlays: seq<FaceOverlay>, summary: string)
    ensures |overlays| == |faces|
    ensures forall i :: 0 <= i < |faces| ==> overlays[i] == OverlayOf(width, faces[i], percentOf, measure)
    ensures summary == Summary(faces)
  {
    overlays := [];
    if |faces| > 0 {
      var recognizedNames: seq<string> := [];
      var i := 0;
      while i < |faces|
        invariant 0 <= i <= |faces|
        invariant |overlays| == i && recognizedNames == Names(faces[..i])
        invariant forall k :: 0 <= k < i ==> overlays[k] == OverlayOf(width, faces[k], percentOf, measure)
      {
        var overlay := OverlayOf(width, faces[i], percentOf, measure);
        overlays := overlays + [overlay];
        recognizedNames := recognizedNames + [faces[i].name];
        assert recognizedNames == Names(faces[..i + 1]);
        i := i + 1;
      }
      assert faces[..i] == faces;
      summary := Join(recognizedNames, ", ");
    } else {
      summary := NoFacesText;
    }
  }

  // ------------------------------------------------------- recognition loop

  /** What the network delivers for one `POST /api/process-frame`. */
  datatype FrameReply =
    | Received(faces: Option<seq<Face>>)   // `response.ok`; `faces` is None when the field is missing
    | HttpFailure(status: nat, text: string)
    | NetworkFailure

  /** `data.faces || []`. */
  function FacesOrEmpty(faces: Option<seq<Face>>): (fs: seq<Face>)
    ensures faces.Some? ==> fs == faces.value
    ensures faces.None? ==> fs == []
  {
    faces.GetOr([])
  }

  const ActiveStatus := "Camera active. Detecting faces..."
  const FrameErrorStatus := "Error processing frame!"
  const CommunicationError := "Server communication error"

  /**
   * The recognition state of one page: the busy flag, the time of the last
   * request start, and what the page shows.  The ghost fields record every
   * request start, how many requests have completed, and how many animation
   * frames have been requested.
   */
  class RecognitionLoop {
    const videoWidth: int
    const videoHeight: int
    const canvasWidth: int

    var isProcessing: bool
    var lastRecognitionTime: int
    var overlays: seq<FaceOverlay>
    var lastRecognition: string
    var detectedFaces: nat
    var status: string

    ghost var requestTimes: seq<int>
    ghost var completed: nat
    ghost var ticks: nat

    /** Requests started and not yet completed. */
    ghost function InFlight(): int
      reads this
    {
      |requestTimes| - completed
    }

    ghost predicate Valid()
      reads this
    {
      && canvasWidth == videoWidth
      && 0 <= InFlight() <= 1
      && (isProcessing <==> InFlight() == 1)
      && Spaced(requestTimes)
      && (requestTimes != [] ==> requestTimes[|requestTimes| - 1] <= lastRecognitionTime)
    }

    /** The state once the camera's metadata is loaded: the canvas takes the video's size. */
    constructor (videoWidth: int, videoHeight: int)
      ensures Valid()
      ensures this.videoWidth == videoWidth && this.videoHeight == videoHeight
      ensures !isProcessing && lastRecognitionTime == 0
      ensures overlays == [] && lastRecognition == "" && detectedFaces == 0 && status == ActiveStatus
      ensures requestTimes == [] && completed == 0 && ticks == 0
    {
      this.videoWidth := videoWidth;
      this.videoHeight := videoHeight;
      canvasWidth := videoWidth;
      isProcessing := false;
      lastRecognitionTime := 0;
      overlays := [];
      lastRecognition := "";
      detectedFaces := 0;
      status := ActiveStatus;
      requestTimes := [];
      completed := 0;
      ticks := 0;
    }

    /**
     * One animation-frame callback (`processFrame`) at time `now`: skipped while
     * busy, throttled to one start per interval, otherwise records `now` and calls
     * `processCurrentFrame`.  Every path requests the next animation frame.
     */
    method Tick(now: int) returns (started: bool)
      requires Valid()
      modifies this
      ensures Valid()
      ensures ticks == old(ticks) + 1
      ensures old(isProcessing) ==> !started && lastRecognitionTime == old(lastRecognitionTime)
      ensures !old(isProcessing) && now - old(lastRecognitionTime) < RecognitionInterval ==>
                !started && lastRecognitionTime == old(lastRecognitionTime)
      ensures !old(isProcessing) && now - old(lastRecognitionTime) >= RecognitionInterval ==>
                lastRecognitionTime == now
      ensures started <==> !old(isProcessing) && now - old(lastRecognitionTime) >= RecognitionInterval
                           && videoWidth != 0 && videoHeight != 0
      ensures isProcessing == (old(isProcessing) || started)
      ensures requestTimes == old(requestTimes) + (if started then [now] else [])
      ensures completed == old(completed)
      ensures overlays == (if started then [] else old(overlays))
      ensures lastRecognition == old(lastRecognition) && detectedFaces == old(detectedFaces)
      ensures status == old(status)
    {
      ticks := ticks + 1;
      if isProcessing {
        return false;
      }
      if now - lastRecognitionTime < RecognitionInterval {
        return false;
      }
      lastRecognitionTime := now;
      started := BeginFrame();
    }

    /**
     * The synchronous part of `processCurrentFrame`: nothing without video
     * dimensions; otherwise the busy flag is set and the base frame is redrawn
     * (which removes the previous boxes) before the request goes out.
     */
    method BeginFrame() returns (started: bool)
      requires Valid() && !isProcessing
      requires requestTimes != [] ==> requestTimes[|requestTimes| - 1] + RecognitionInterval <= lastRecognitionTime
      modifies this`isProcessing, this`requestTimes, this`overlays
      ensures Valid()
      ensures started <==> videoWidth != 0 && videoHeight != 0
      ensures isProcessing == started
      ensures requestTimes == old(requestTimes) + (if started then [lastRecognitionTime] else [])
      ensures overlays == (if started then [] else old(overlays))
    {
      if videoWidth == 0 || videoHeight == 0 {
        return false;
      }
      isProcessing := true;
      SpacedSnoc(requestTimes, lastRecognitionTime);
      requestTimes := requestTimes + [lastRecognitionTime];
      overlays := [];
      started := true;
    }

    /**
     * The completion of `processCurrentFrame` with `reply`: a reply draws the
     * faces and updates the summary and the count; a failure shows the error
     * texts.  Either way the `finally` clause clears the busy flag.
     */
    method EndFrame(reply: FrameReply, percentOf: real -> nat, measure: string -> int)
      requires Valid() && isProcessing
      modifies this
      ensures Valid()
      ensures !isProcessing && completed == old(completed) + 1
      ensures requestTimes == old(requestTimes) && lastRecognitionTime == old(lastRecognitionTime)
      ensures ticks == old(ticks)
      ensures reply.Received? ==>
                && |overlays| == |FacesOrEmpty(reply.faces)|
                && (forall i :: 0 <= i < |overlays| ==>
                      overlays[i] == OverlayOf(canvasWidth, FacesOrEmpty(reply.faces)[i], percentOf, measure))
                && lastRecognition == Summary(FacesOrEmpty(reply.faces))
                && detectedFaces == |FacesOrEmpty(reply.faces)|
                && status == old(status)
      ensures !reply.Received? ==>
                && overlays == old(overlays) && detectedFaces == old(detectedFaces)
                && lastRecognition == CommunicationError && status == FrameErrorStatus
    {
      match reply {
        case Received(faces) =>
          var fs := FacesOrEmpty(faces);
          var drawn, summary := DrawFaceDetections(canvasWidth, fs, percentOf, measure);
          overlays := drawn;
          lastRecognition := summary;
          detectedFaces := |fs|;
        case _ =>
          status := FrameErrorStatus;
          lastRecognition := CommunicationError;
      }
      isProcessing := false;
      completed := completed + 1;
    }
  }

  /**
   * A tick while a request is in flight starts nothing, even long after the
   * throttle interval; once the reply is handled the next tick starts again.
   */
  method BusyTickIsSkipped() returns (first: bool, second: bool, third: bool)
    ensures first && !second && third
  {
    var loop := new RecognitionLoop(640, 480);
    first := loop.Tick(1000);
    second := loop.Tick(5000);
    loop.EndFrame(NetworkFailure, _ => 0, _ => 0);
    third := loop.Tick(5001);
  }

  /** `{faces: []}` gives "No faces detected" and a count of 0. */
  method EmptyReplyShowsNoFaces() returns (text: string, count: nat)
    ensures text == NoFacesText && count == 0
  {
    var loop := new RecognitionLoop(640, 480);
    var started := loop.Tick(1000);
    loop.EndFrame(Received(Some([])), _ => 0, _ => 0);
    text, count := loop.lastRecognition, loop.detectedFaces;
  }

  // ------------------------------------------------------------ upload form

  /** The picked file: its name, size in bytes and MIME type. */
  datatype PickedFile = PickedFile(name: string, size: nat, mimeType: string)

  /** The upload form's checks, in the order the submit handler makes them. */
  datatype UploadError =
    | MissingInput | NameTooShort | NameTooLong | FileTooLarge | FileTooSmall | InvalidType

  const UploadOrder := [MissingInput, NameTooShort, NameTooLong, FileTooLarge, FileTooSmall, InvalidType]

  const MinNameLength := 2
  const MaxNameLength := 50
  const MaxFileSize := 16 * 1024 * 1024
  const MinFileSize := 1024
  const AllowedTypes := ["image/png", "image/jpeg", "image/jpg", "image/bmp", "image/tiff", "image/webp"]
  const AllowedExtensions := [".png", ".jpg", ".jpeg", ".bmp", ".tiff", ".webp"]

  /** The lower-cased file name ends with one of the allowed extensions. */
  predicate HasValidExtension(fileName: string) {
    exists e :: e in AllowedExtensions && EndsWith(ToLower(fileName), e)
  }

  /** Whether check `e` fails for the trimmed name and the picked file, each check on its own. */
  predicate UploadFails(e: UploadError, name: string, file: Option<PickedFile>) {
    match e
    case MissingInput => name == "" || file.None?
    case NameTooShort => Utf16Length(name) < MinNameLength
    case NameTooLong => Utf16Length(name) > MaxNameLength
    case FileTooLarge => file.Some? && file.value.size > MaxFileSize
    case FileTooSmall => file.Some? && file.value.size < MinFileSize
    case InvalidType => file.Some? && (file.value.mimeType !in AllowedTypes || !HasValidExtension(file.value.name))
  }

  function UploadMessage(e: UploadError): string {
    match e
    case MissingInput => "Please provide both name and image."
    case NameTooShort => "Name must be at least 2 characters long."
    case NameTooLong => "Name must be less than 50 characters."
    case FileTooLarge => "File too large. Maximum size is 16MB."
    case FileTooSmall => "File too small. Please upload a valid image."
    case InvalidType => "Invalid file type. Please upload PNG, JPEG, BMP, TIFF, or WEBP images."
  }

  /** The ladder of early returns over the trimmed name. */
  function CheckUpload(name: string, file: Option<PickedFile>): (r: Result<(string, PickedFile), UploadError>)
    ensures r.Ok? ==> r.value.0 == name && file == Some(r.value.1)
    ensures r.Ok? ==> MinNameLength <= Utf16Length(r.value.0) <= MaxNameLength
    ensures r.Ok? ==> MinFileSize <= r.value.1.size <= MaxFileSize
    ensures r.Ok? ==> r.value.1.mimeType in AllowedTypes && HasValidExtension(r.value.1.name)
  {
    if name == "" || file.None? then Err(MissingInput)
    else if Utf16Length(name) < MinNameLength then Err(NameTooShort)
    else if Utf16Length(name) > MaxNameLength then Err(NameTooLong)
    else if file.value.size > MaxFileSize then Err(FileTooLarge)
    else if file.value.size < MinFileSize then Err(FileTooSmall)
    else if file.value.mimeType !in AllowedTypes || !HasValidExtension(file.value.name) then Err(InvalidType)
    else Ok((name, file.value))
  }

  /**
   * `handleUpload` up to the request: the trimmed name and the file to send, or
   * the check that refuses them (no request is made then).
   */
  function ValidateUpload(rawName: string, file: Option<PickedFile>): (r: Result<(string, PickedFile), UploadError>)
    ensures r.Ok? ==> r.value.0 == JsTrim(rawName) && file == Some(r.value.1)
    ensures r.Ok? ==> MinNameLength <= Utf16Length(r.value.0) <= MaxNameLength
    ensures r.Ok? ==> MinFileSize <= r.value.1.size <= MaxFileSize
    ensures r.Ok? ==> r.value.1.mimeType in AllowedTypes && HasValidExtension(r.value.1.name)
  {
    CheckUpload(JsTrim(rawName), file)
  }

  /** The checks as one predicate over `UploadError`, to hand to `FirstFailing`. */
  function UploadChecksOf(name: string, file: Option<PickedFile>): UploadError -> bool {
    e => UploadFails(e, name, file)
  }

  /** The position of a check in `UploadOrder`. */
  function Rank(e: UploadError): (k: nat)
    ensures k < |UploadOrder| && UploadOrder[k] == e
  {
    match e
    case MissingInput => 0 case NameTooShort => 1 case NameTooLong => 2
    case FileTooLarge => 3 case FileTooSmall => 4 case InvalidType => 5
  }

  /** The handler refuses with exactly the first check, in `UploadOrder`, that fails for the trimmed name. */
  lemma ValidateUploadIsFirstFailing(rawName: string, file: Option<PickedFile>)
    ensures var first := FirstFailing(UploadOrder, UploadChecksOf(JsTrim(rawName), file));
      && (ValidateUpload(rawName, file).Ok? <==> first.None?)
      && (first.Some? ==> ValidateUpload(rawName, file) == Err(first.value))
  {
    var name := JsTrim(rawName);
    if CheckUpload(name, file).Ok? {
      assert forall e :: !UploadFails(e, name, file);
    } else {
      var e := CheckUpload(name, file).error;
      RefusalFollowsPassingChecks(name, file, e);
      FirstFailingAt(UploadOrder, UploadChecksOf(name, file), Rank(e));
    }
  }

  /** The check the ladder refuses with fails, and every check before it passes. */
  lemma RefusalFollowsPassingChecks(name: string, file: Option<PickedFile>, e: UploadError)
    requires CheckUpload(name, file) == Err(e)
    ensures UploadFails(e, name, file)
    ensures forall j :: 0 <= j < Rank(e) ==> !UploadFails(UploadOrder[j], name, file)
  {}

  /** With an acceptable file, a non-blank name passes exactly when it is 2 to 50 UTF-16 units long. */
  lemma UploadNameBounds(rawName: string, file: PickedFile)
    requires JsTrim(rawName) != ""
    requires MinFileSize <= file.size <= MaxFileSize
    requires file.mimeType in AllowedTypes && HasValidExtension(file.name)
    ensures ValidateUpload(rawName, Some(file)).Ok? <==> 2 <= Utf16Length(JsTrim(rawName)) <= 50
    ensures Utf16Length(JsTrim(rawName)) == 1 ==> ValidateUpload(rawName, Some(file)) == Err(NameTooShort)
    ensures Utf16Length(JsTrim(rawName)) == 51 ==> ValidateUpload(rawName, Some(file)) == Err(NameTooLong)
  {}

  /** A file with an allowed extension but a MIME type outside the list is refused as an invalid type. */
  lemma MismatchedTypeRefused(rawName: string, file: PickedFile)
    requires MinNameLength <= Utf16Length(JsTrim(rawName)) <= MaxNameLength
    requires MinFileSize <= file.size <= MaxFileSize
    requires HasValidExtension(file.name) && file.mimeType !in AllowedTypes
    ensures ValidateUpload(rawName, Some(file)) == Err(InvalidType)
  {}

  // ------------------------------------------------------------------ delete

  /** What the delete request produced. */
  datatype ServerReply =
    | HttpError(status: nat, text: string)                       // `!response.ok`
    | Json(success: bool, message: string, error: Option<string>) // parsed body of an OK reply
    | FetchFailed(reason: string)                                // the request itself threw

  const CannotConnectMessage := "Cannot connect to server. Make sure the Flask app is running."

  /** The message the `catch` clause shows for a thrown error's message. */
  function CatchMessage(reason: string): (m: string)
    ensures Contains(reason, "Failed to fetch") ==> m == CannotConnectMessage
    ensures !Contains(reason, "Failed to fetch") ==> StartsWith(m, "Error: ") && EndsWith(m, reason)
  {
    if Contains(reason, "Failed to fetch") then CannotConnectMessage
    else "Error: " + reason
  }

  /** The outcome of `handleDelete` once its request returns: only a successful reply reloads the list. */
  function DeleteFeedback(reply: ServerReply): (f: Feedback)
    ensures f.reloadList <==> reply.Json? && reply.success
    ensures f.isError <==> !f.reloadList
    ensures reply.Json? && reply.success ==> f.message == reply.message
    ensures reply.Json? && !reply.success ==> f.message == ErrorOr(reply.error, "Delete failed")
    ensures reply.HttpError? ==> f.message == CatchMessage("HTTP Error: " + NatToString(reply.status) + " - " + reply.text)
    ensures reply.FetchFailed? ==> f.message == CatchMessage(reply.reason)
  {
    match reply
    case HttpError(status, text) =>
      Feedback(CatchMessage("HTTP Error: " + NatToString(status) + " - " + text), true, false)
    case Json(success, message, error) =>
      if success then Feedback(message, false, true)
      else Feedback(ErrorOr(error, "Delete failed"), true, false)
    case FetchFailed(reason) =>
      Feedback(CatchMessage(reason), true, false)
  }

  const SelectFaceMessage := "Please select a face to delete."

  /** `handleDelete`'s guard: the English prompt for an empty selection. */
  function SelectionFeedback(selected: string, confirmed: bool): (f: Option<Feedback>)
    ensures f.Some? <==> selected == ""
    ensures f.Some? ==> f.value.message == "Please select a face to delete." && f.value.isError && !f.value.reloadList
  {
    ClickFeedback(selected, confirmed, SelectFaceMessage)
  }
}
