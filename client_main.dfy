/**
 * The older browser client (static/js/main.js), kept beside `ClientApp` as a
 * variant with different rules: a throttle without a busy flag, so requests may
 * overlap; boxes drawn as received, without reflection; a name band at the
 * bottom of the box; Portuguese texts.
 */
module ClientMain {
  import opened Wrappers
  import opened Text
  import opened Geometry
  import opened ClientCommon

  /** One detection as this client reads it (it ignores any confidence). */
  datatype Face = Face(box: Box, name: string)

  /** The body of an OK reply: this client expects a bare JSON array of faces. */
  datatype FrameBody =
    | FaceList(faces: seq<Face>)
    | NoPositiveLength          // an object, a number, a boolean or "": `data.length > 0` does not hold
    | BreaksDrawing             // null (reading `length` throws) or a non-empty string (it has no `forEach`)

  /** What the network delivers for one `POST /process_frame`. */
  datatype FrameReply =
    | Received(body: FrameBody)
    | HttpFailure(status: nat, error: Option<string>)   // `errorData.error`, None when absent
    | RequestFailed

  const BandHeight := 35

  /** Everything drawn for one face: outline, name band, name and where it is written. */
  datatype FaceOverlay = FaceOverlay(outline: Rect, band: Rect, caption: string, captionAt: Point)

  /** The outline is the received box as it is, not reflected. */
  function OutlineRect(b: Box): (r: Rect)
    ensures r.x == b.left && r.x + r.w == b.right
    ensures r.y == b.top && r.y + r.h == b.bottom
  {
    Rect(b.left, b.top, b.right - b.left, b.bottom - b.top)
  }

  /** The band `(left, bottom - 35, right - left, 35)` and the name at `(left + 6, bottom - 6)`. */
  function OverlayOf(f: Face): (o: FaceOverlay)
    ensures o.outline == OutlineRect(f.box) && o.caption == f.name
    ensures o.band.x == o.outline.x && o.band.w == o.outline.w
    ensures o.band.y + o.band.h == o.outline.y + o.outline.h && o.band.h == BandHeight
    ensures o.captionAt.x == o.band.x + 6 && o.captionAt.y == o.band.y + o.band.h - 6
  {
    FaceOverlay(OutlineRect(f.box), Rect(f.box.left, f.box.bottom - BandHeight, f.box.right - f.box.left, BandHeight),
                f.name, Point(f.box.left + 6, f.box.bottom - 6))
  }

  /** In a box at least 35 pixels tall the band lies inside the outline. */
  lemma BandInsideOutline(f: Face)
    requires f.box.left <= f.box.right && f.box.top + BandHeight <= f.box.bottom
    ensures var o := OverlayOf(f);
      o.outline.y <= o.band.y && o.band.y + o.band.h <= o.outline.y + o.outline.h
      && o.band.y < o.captionAt.y < o.band.y + o.band.h
  {}

  const NoFacesText := "Nenhum rosto detectado"
  const ActiveStatus := "Câmera ativa. Detectando rostos..."
  const FrameErrorStatus := "Erro ao processar imagem!"
  const CommunicationError := "Erro na comunicação com o servidor."

  /** The faces a reply body makes this client draw. */
  function DrawnFaces(body: FrameBody): (fs: seq<Face>)
    ensures body.FaceList? ==> fs == body.faces
    ensures !body.FaceList? ==> fs == []
  {
    if body.FaceList? then body.faces else []
  }

  /** The faces' names, in reply order. */
  function Names(faces: seq<Face>): seq<string> {
    NamesOf(faces, (f: Face) => f.name)
  }

  /** The last-recognition text of a reply. */
  function Summary(faces: seq<Face>): string {
    SummaryText(Names(faces), NoFacesText)
  }

  /** The reply handler's drawing: every face in order while the names are pushed, then the summary. */
  method DrawDetections(faces: seq<Face>) returns (overlays: seq<FaceOverlay>, summary: string)
    ensures |overlays| == |faces|
    ensures forall i :: 0 <= i < |faces| ==> overlays[i] == OverlayOf(faces[i])
    ensures summary == Summary(faces)
  {
    overlays := [];
    if |faces| > 0 {
      var recognizedNames: seq<string> := [];
      var i := 0;
      while i < |faces|
        invariant 0 <= i <= |faces|
        invariant |overlays| == i && |recognizedNames| == i
        invariant forall k :: 0 <= k < i ==> overlays[k] == OverlayOf(faces[k])
        invariant forall k :: 0 <= k < i ==> recognizedNames[k] == faces[k].name
      {
        overlays := overlays + [OverlayOf(faces[i])];
        recognizedNames := recognizedNames + [faces[i].name];
        i := i + 1;
      }
      assert recognizedNames == Names(faces);
      summary := Join(recognizedNames, ", ");
    } else {
      summary := NoFacesText;
    }
  }

  /**
   * The message of the error raised for a non-OK reply: `errorData.error`
   * when present and non-empty, otherwise "Erro HTTP: <status>".
   */
  function FrameErrorMessage(status: nat, error: Option<string>): (m: string)
    ensures error.Some? && error.value != "" ==> m == error.value
    ensures error.None? || error.value == "" ==>
              StartsWith(m, "Erro HTTP: ") && IsDigits(m[|"Erro HTTP: "|..])
              && DecimalValue(m[|"Erro HTTP: "|..]) == status
  {
    if error.Some? && error.value != "" then error.value
    else
      var m := "Erro HTTP: " + NatToString(status);
      NatToStringRoundTrip(status);
      assert m[|"Erro HTTP: "|..] == NatToString(status);
      m
  }

  /**
   * The page's recognition state: only the time of the last request start, with
   * what the page shows.  Ghost fields record request starts, completions and
   * animation-frame requests.
   */
  class FrameSender {
    var lastRecognitionTime: int
    var overlays: seq<FaceOverlay>
    var lastRecognition: string
    var status: string

    ghost var requestTimes: seq<int>
    ghost var completed: nat
    ghost var ticks: nat

    ghost function InFlight(): int
      reads this
    {
      |requestTimes| - completed
    }

    ghost predicate Valid()
      reads this
    {
      && 0 <= InFlight()
      && Spaced(requestTimes)
      && (requestTimes != [] ==> requestTimes[|requestTimes| - 1] <= lastRecognitionTime)
    }

    constructor ()
      ensures Valid()
      ensures lastRecognitionTime == 0 && overlays == [] && lastRecognition == "" && status == ActiveStatus
      ensures requestTimes == [] && completed == 0 && ticks == 0
    {
      lastRecognitionTime := 0;
      overlays := [];
      lastRecognition := "";
      status := ActiveStatus;
      requestTimes := [];
      completed := 0;
      ticks := 0;
    }

    /**
     * `sendFramePeriodically` at time `now`: first requests the next animation
     * frame, then sends a frame only when an interval has passed since the last
     * send.  Nothing is checked about requests still in flight.
     */
    method Tick(now: int) returns (sent: bool)
      requires Valid()
      modifies this
      ensures Valid()
      ensures ticks == old(ticks) + 1
      ensures sent <==> now - old(lastRecognitionTime) >= RecognitionInterval
      ensures lastRecognitionTime == (if sent then now else old(lastRecognitionTime))
      ensures requestTimes == old(requestTimes) + (if sent then [now] else [])
      ensures completed == old(completed)
      ensures overlays == (if sent then [] else old(overlays))
      ensures lastRecognition == old(lastRecognition) && status == old(status)
    {
      ticks := ticks + 1;
      if now - lastRecognitionTime < RecognitionInterval {
        return false;
      }
      lastRecognitionTime := now;
      overlays := [];
      SpacedSnoc(requestTimes, now);
      requestTimes := requestTimes + [now];
      sent := true;
    }

    /**
     * The completion of one of the requests in flight (they may complete in any
     * order).  A body that breaks the drawing throws after the frame has been
     * redrawn without boxes, into the same `catch` as a failed request.
     */
    method Complete(reply: FrameReply)
      requires Valid() && InFlight() > 0
      modifies this
      ensures Valid()
      ensures completed == old(completed) + 1 && requestTimes == old(requestTimes)
      ensures lastRecognitionTime == old(lastRecognitionTime) && ticks == old(ticks)
      ensures reply.Received? && reply.body.BreaksDrawing? ==>
                overlays == [] && lastRecognition == CommunicationError && status == FrameErrorStatus
      ensures reply.Received? && !reply.body.BreaksDrawing? ==>
                && |overlays| == |DrawnFaces(reply.body)|
                && (forall i :: 0 <= i < |overlays| ==> overlays[i] == OverlayOf(DrawnFaces(reply.body)[i]))
                && lastRecognition == Summary(DrawnFaces(reply.body))
                && status == ActiveStatus
      ensures !reply.Received? ==>
                overlays == old(overlays) && lastRecognition == CommunicationError && status == FrameErrorStatus
    {
      match reply {
        case Received(body) =>
          if body.BreaksDrawing? {
            overlays := [];
            status := FrameErrorStatus;
            lastRecognition := CommunicationError;
          } else {
            var drawn, summary := DrawDetections(DrawnFaces(body));
            overlays := drawn;
            lastRecognition := summary;
            status := ActiveStatus;
          }
        case _ =>
          status := FrameErrorStatus;
          lastRecognition := CommunicationError;
      }
      completed := completed + 1;
    }
  }

  /** Two sends 500 ms apart with no reply in between: both go out, so two requests overlap. */
  method OverlappingRequests() returns (first: bool, second: bool)
    ensures first && second
  {
    var sender := new FrameSender();
    first := sender.Tick(500);
    second := sender.Tick(1000);
    assert sender.InFlight() == 2;
  }

  // ------------------------------------------------------------------ delete

  /** What the delete request produced. */
  datatype DeleteReply =
    | Replied(ok: bool, statusText: string, message: string, error: Option<string>)  // JSON body read
    | Unreachable        // the request failed or the body was not JSON

  const ConnectionError := "Erro ao conectar com o servidor."

  /** The outcome of the delete click handler once its request returns. */
  function DeleteFeedback(reply: DeleteReply): (f: Feedback)
    ensures f.reloadList <==> reply.Replied? && reply.ok
    ensures f.isError <==> !f.reloadList
    ensures reply.Replied? && reply.ok ==> f.message == reply.message
    ensures reply.Replied? && !reply.ok ==> f.message == ErrorOr(reply.error, "Erro: " + reply.statusText)
    ensures reply.Unreachable? ==> f.message == ConnectionError
  {
    match reply
    case Replied(ok, statusText, message, error) =>
      if ok then Feedback(message, false, true)
      else Feedback(ErrorOr(error, "Erro: " + statusText), true, false)
    case Unreachable =>
      Feedback(ConnectionError, true, false)
  }

  const SelectFaceMessage := "Selecione uma imagem para excluir."

  /** The click handler's guard: the Portuguese prompt for an empty selection. */
  function SelectionFeedback(selected: string, confirmed: bool): (f: Option<Feedback>)
    ensures f.Some? <==> selected == ""
    ensures f.Some? ==> f.value.message == "Selecione uma imagem para excluir." && f.value.isError && !f.value.reloadList
  {
    ClickFeedback(selected, confirmed, SelectFaceMessage)
  }
}
