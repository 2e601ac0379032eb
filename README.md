# Face recognition web app: a verified model

The system is a small face-recognition web application, in four parts:

- **`static/js/app.js`**: the browser client (`FaceRecognitionApp`). It grabs a
  mirrored camera frame at most every 500 ms, but never while a request is
  still in flight. It posts the frame to the server and draws the returned
  boxes mirrored, coloured by whether the name is `"Unknown"`. It also checks
  an upload form before sending it and handles deleting a registered face.
- **`static/js/main.js`**: an older variant of the same page. It throttles
  frames by time only, so requests can overlap. It expects a bare list of
  faces, draws the boxes unmirrored with a name band, and shows Portuguese
  texts.
- **`app.py`**: the Flask server. Its endpoints are:
  - process a frame (strip a data-URI header, decode, recognise);
  - upload a reference face (a ladder of 400 checks, a duplicate check, then
    exactly one face);
  - list the upload folder;
  - delete a file from it.
- **`face_recognizer.py`**: the recogniser. It rebuilds two parallel lists,
  known encodings and known names, from a folder of reference images. For
  each face in a frame it picks the nearest known encoding under the
  tolerance 0.6, or `"Desconhecido"`, and scales the box found on the
  quarter-size frame back up by 4.

The model keeps each part's own form:

- **Client code.** Each page's recognition state is a class: `RecognitionLoop`
  for app.js and `FrameSender` for main.js. Their methods model one
  animation-frame callback and one request completion. Ghost fields record
  every request start, so the throttle can be stated as an invariant: request
  starts are at least 500 ms apart.
- **Recogniser.** `Recognizer.KnownFaces` is a class over the two global lists.
  `Initialize` is the loop that rebuilds them. Frame recognition runs over the
  detector's output as given values.
- **Server.** The endpoints are functions from a request to a response value.
  `get_faces` is a method with its loop. The folder is a list of entries.
- **Foreign code.** Libraries whose code is not part of this model become
  parameters or given values:
  - base64 decoding, `secure_filename`, PIL and the face encoder;
  - face distance, `Math.round` of the confidence, `measureText`;
  - the clock (`Date.now()`).

The module `Consistency` states how the parts fit together, or fail to:

- The three extension rules accept the same file names.
- The two clients' outlines are mirror images of each other.
- The recogniser's unknown name `"Desconhecido"` is not the client's
  `"Unknown"`, so an unmatched face is drawn in the "recognised" colour.
- Uploads are stored in `static/uploads/faces`, but the recogniser reads
  `static/image/faces`.
- A name of 26 to 50 astral-plane characters is refused by the client, which
  counts UTF-16 units, and accepted by the server, which counts code points.

The modules are `Wrappers`, `Text`, `Checks`, `Geometry`, `ClientCommon`,
`ClientApp`, `ClientMain`, `Recognizer`, `Server` and `Consistency`.

## Model

| member | source | states |
|---|---|---|
| Text.TrimIsCoreSlice | app.py:104 | `strip()`/`trim()` remove exactly a whitespace prefix and a whitespace suffix, and the result is the slice between them |
| Text.TrimEndsNotBlank | static/js/app.js:310 | the trimmed name neither starts nor ends with whitespace |
| Text.Utf16Length | static/js/app.js:321-329 | the JavaScript `length` is between the code-point count and twice it, equal to it for BMP-only text and twice it for astral-only text |
| Text.ToLowerIdempotent | app.py:30 | lower-casing twice is lower-casing once |
| Text.AfterLastDot | app.py:30 | `rsplit('.', 1)[1]` is the suffix after the last '.', and that suffix holds no '.' |
| Text.FirstIndex | app.py:59 | the first position of a character that occurs: it holds the character and no earlier position does |
| Text.JoinEnds | static/js/app.js:220 | `join(', ')` of a non-empty list starts with its first name and ends with its last |
| Text.NatToStringRoundTrip | static/js/main.js:227 | the decimal text of a status code reads back as that status code |
| Text.SplitExt | app.py:211 | `os.path.splitext` splits a name into stem and extension whose concatenation is the name; the extension is empty or one '.' followed by no '.' or '/' |
| Text.SplitExtOfStemAndExt | app.py:211 | splitting `stem + "." + ext` gives back the stem and ".ext" when the stem has a non-dot character |
| Geometry.FlipRectInvolution | static/js/main.js:210-213 | reflecting a rectangle across the canvas width twice gives it back |
| ClientCommon.SpacedPairwise | static/js/app.js:118-124 | with the throttle, the k-th request after another starts at least k × 500 ms later |
| ClientCommon.AtMostOnePerWindow | static/js/main.js:203-205 | within any 500 ms window at most one request starts |
| ClientCommon.DeleteClick | static/js/app.js:481-493 | an empty selection only warns; a request is sent exactly when something is selected and confirmed, and it names the selection |
| ClientCommon.DeleteButtonDisabled | static/js/app.js:477-479 | the delete button is disabled exactly when nothing is selected, so an enabled click never hits the "please select" branch |
| ClientCommon.ClickFeedback | static/js/app.js:482-486 | the prompt ("Please select a face to delete." in app.js, "Selecione uma imagem para excluir." at main.js:143-146) is shown as an error exactly for an empty selection; with no prompt and a confirmed dialog the delete request goes out |
| ClientCommon.ErrorOr | static/js/app.js:517 | `data.error \|\| fallback`: a present, non-empty server error is shown as it is, otherwise the fallback; with a non-empty fallback the message shown is never empty |
| ClientCommon.SummaryTextEnds | static/js/app.js:220 | the "last recognition" text of a non-empty reply starts with the first face's name and ends with the last one's (main.js:265 joins the same way) |
| ClientCommon.SummaryTextOfOne | static/js/app.js:220 | a reply with one face shows just its name |
| ClientApp.PaletteFor | static/js/app.js:195-214 | warning stroke and fill exactly for the name "Unknown", success stroke and fill for every other name; the label background matches the stroke; the text is dark on warning and white on success |
| ClientApp.LabelText | static/js/app.js:205 | the label is the bare name exactly when the confidence is 0 or absent, otherwise the name followed by " (" … "%)" |
| ClientApp.MirroredRect | static/js/app.js:190-198 | the drawn box spans from width − right to width − left horizontally and top to bottom vertically |
| ClientApp.MirroredRectExample | static/js/app.js:191-192 | a box with left 20 and right 110 on a 300-wide canvas is drawn from x = 190 to x = 280, 90 wide |
| ClientApp.MirroredRectInsideCanvas | static/js/app.js:190-198 | a box inside the frame is drawn inside the canvas with the box's own width |
| ClientApp.OverlayOf | static/js/app.js:186-215 | one face's overlay: the mirrored outline, the palette and the label text; a label background 24 px tall whose bottom is 4 px above the box (so it starts 28 px above), as wide as the text plus 16; the text 8 px right of the box's left edge and 10 px above its top |
| ClientApp.DrawFaceDetections | static/js/app.js:174-224 | one overlay per face, in order, each the face's `OverlayOf`; the summary is the joined names, or "No faces detected" for none |
| ClientApp.RecognitionLoop.constructor | static/js/app.js:29-32 | not busy, last recognition time 0, nothing drawn, no request started |
| ClientApp.RecognitionLoop.Tick | static/js/app.js:111-130 | a busy tick starts nothing; a tick under 500 ms after the last start starts nothing; otherwise the time is recorded and a request starts exactly when the video has dimensions; request starts stay at least 500 ms apart and at most one is in flight |
| ClientApp.RecognitionLoop.BeginFrame | static/js/app.js:132-135 | no video dimensions: nothing happens; otherwise the busy flag is set, the boxes are cleared and one request is recorded |
| ClientApp.RecognitionLoop.EndFrame | static/js/app.js:156-171 | a reply draws `data.faces \|\| []` and sets summary and count; any failure shows the two error texts and keeps the boxes; either way the busy flag is cleared |
| ClientApp.FacesOrEmpty | static/js/app.js:162-163 | `data.faces \|\| []`: the reply's face list when present, the empty list when the field is missing |
| ClientApp.BusyTickIsSkipped | static/js/app.js:113-116 | a tick while a request is in flight starts nothing even 4 s later; after the reply the next tick starts |
| ClientApp.EmptyReplyShowsNoFaces | static/js/app.js:221-223 | an empty face list shows "No faces detected" and a count of 0 |
| ClientApp.CheckUpload | static/js/app.js:315-352 | on an already trimmed name, accepted means: a file exists, 2 to 50 UTF-16 units of name, 1 KiB to 16 MiB, an allowed MIME type and an allowed extension |
| ClientApp.ValidateUpload | static/js/app.js:310-352 | the same checks on the trimmed name; an accepted upload carries the trimmed name and the picked file |
| ClientApp.ValidateUploadIsFirstFailing | static/js/app.js:315-352 | the form is accepted exactly when no check fails; otherwise it reports exactly the first failing check in the handler's order |
| ClientApp.RefusalFollowsPassingChecks | static/js/app.js:315-352 | the check the form refuses with fails, and every check before it passes |
| ClientApp.UploadNameBounds | static/js/app.js:321-329 | with an acceptable file, a non-blank name passes exactly when it is 2 to 50 units long; 1 unit gives "too short", 51 gives "too long" |
| ClientApp.MismatchedTypeRefused | static/js/app.js:343-352 | a file with an allowed extension but a MIME type outside the allowed list (an empty one included) is refused as an invalid type |
| ClientApp.DeleteFeedback | static/js/app.js:506-528 | only a successful JSON reply shows its message and reloads the list; an unsuccessful one shows `data.error \|\| 'Delete failed'`; an HTTP error or a failed fetch shows the catch clause's text |
| ClientApp.SelectionFeedback | static/js/app.js:482-486 | "Please select a face to delete." is shown as an error, without reloading, exactly when nothing is selected |
| ClientApp.CatchMessage | static/js/app.js:520-528 | an error mentioning "Failed to fetch" shows the cannot-connect text; any other shows "Error: " followed by the error's message |
| ClientMain.OutlineRect | static/js/main.js:252 | the outline is the received box unreflected: left to right, top to bottom |
| ClientMain.OverlayOf | static/js/main.js:246-261 | the outline, a 35 px band as wide as the box along its bottom, and the name written 6 px in from the band's left and bottom |
| ClientMain.BandInsideOutline | static/js/main.js:252-256 | for a box at least 35 px tall the band lies inside the outline and the name's baseline inside the band |
| ClientMain.DrawDetections | static/js/main.js:243-270 | one overlay per face, in order, each its `OverlayOf`; the summary is the joined names, or "Nenhum rosto detectado" for none |
| ClientMain.DrawnFaces | static/js/main.js:243-245 | only a bare JSON list is drawn; any other body, such as the server's `{success, faces, count}` object, draws nothing |
| ClientMain.FrameErrorMessage | static/js/main.js:224-228 | a non-OK reply raises the server's `error` when present and non-empty, otherwise "Erro HTTP: " followed by digits that read back as the status |
| ClientMain.FrameSender.constructor | static/js/main.js:197-198 | last recognition time 0, nothing drawn, no request sent |
| ClientMain.FrameSender.Tick | static/js/main.js:200-205 | a frame is sent exactly when 500 ms have passed since the last send, whatever is in flight; sends stay at least 500 ms apart |
| ClientMain.FrameSender.Complete | static/js/main.js:223-278 | a list or a body without a positive `length` draws its faces (none for the latter) and restores the status; a `null` or non-empty string body clears the boxes, then throws into the error texts; a failed request shows the error texts and keeps the boxes |
| ClientMain.OverlappingRequests | static/js/main.js:200-222 | two ticks 500 ms apart both send, with no reply in between |
| ClientMain.DeleteFeedback | static/js/main.js:154-169 | an OK reply shows its message and reloads the list; a non-OK reply shows `data.error \|\| 'Erro: ' + statusText`; an unreachable server or non-JSON body shows the connection error |
| ClientMain.SelectionFeedback | static/js/main.js:143-146 | "Selecione uma imagem para excluir." is shown as an error, without reloading, exactly when nothing is selected |
| Recognizer.Contributing | face_recognizer.py:32-43 | the files that contribute are files of the folder, each a regular image file with at least one encoded face |
| Recognizer.KnownListsParallel | face_recognizer.py:40-43 | the encodings and names lists have one entry per contributing file, and index i of both comes from the same file (first encoding, stem) |
| Recognizer.ContributingComplete | face_recognizer.py:35-43 | every regular image file with a face contributes |
| Recognizer.ScaleBox | face_recognizer.py:95-98 | every coordinate is multiplied by 4, so width and height grow fourfold and a well-formed box stays well-formed |
| Recognizer.FirstArgMin | face_recognizer.py:89 | `argmin` is the first index holding the minimum |
| Recognizer.MatchName | face_recognizer.py:87-92 | when some distance is under 0.6 the name at the first minimum is chosen; when none is, "Desconhecido"; the result is always a known name or "Desconhecido" |
| Recognizer.MatchRule | face_recognizer.py:87-92 | the name is the nearest known name when its distance is under 0.6, else "Desconhecido"; the nearest is under 0.6 exactly when any distance is |
| Recognizer.KnownFaces.constructor | face_recognizer.py:11-12 | both lists start empty |
| Recognizer.KnownFaces.Initialize | face_recognizer.py:15-50 | the lists are rebuilt from scratch to exactly the first encoding and stem of each contributing file, in folder order, and stay the same length |
| Recognizer.KnownFaces.RecognizeFacesInFrame | face_recognizer.py:53-105 | an undecodable frame gives the error; with no known faces every location is "Desconhecido"; otherwise locations and encodings are paired up to the shorter list and each is matched; every box is scaled by 4 |
| Recognizer.KnownFaces.AllUnknown | face_recognizer.py:74-84 | one "Desconhecido" detection per location, its box scaled by 4 |
| Recognizer.KnownFaces.MatchAll | face_recognizer.py:86-103 | as many detections as the shorter of locations and encodings, each named by the match rule, its box scaled by 4 |
| Server.AllowedFile | app.py:27-30 | a file name without '.' is refused; an allowed one has a 3- or 4-letter extension after its last '.' (the rule's agreement with the clients and the recogniser is in the `Consistency` rows) |
| Server.StripDataUri | app.py:58-59 | an image not starting with "data:image" is kept; one without a comma raises IndexError; otherwise the text after the first comma up to the next one |
| Server.DataUriRoundTrip | app.py:58-59 | a comma-free "data:image…" header, a comma and a comma-free payload give back the payload |
| Server.ProcessFrame | app.py:46-80 | no image: 400 "No image data provided"; strip or decode failure, or an exception inside the recogniser: 500 "Frame processing failed: …"; an undecodable frame: 500 with the recogniser's message; otherwise the detections with `count` equal to their number |
| Server.CheckUpload | app.py:95-133 | on a stripped request, accepted means: file and name present, 2 to 50 characters of name, an allowed extension, 1 KiB to 16 MiB |
| Server.ValidateUpload | app.py:95-133 | the same checks after `strip()`; an accepted upload carries the stripped name and the file |
| Server.ValidateUploadIsFirstFailing | app.py:95-133 | the upload passes exactly when no check fails; otherwise the endpoint reports exactly the first failing check in its order |
| Server.RefusalFollowsPassingChecks | app.py:95-133 | the refused check fails, and every check before it passes |
| Server.UploadNameBounds | app.py:109-116 | with an acceptable file, a non-blank stripped name passes exactly when it is 2 to 50 characters; 1 gives "too short", 51 gives "too long" |
| Server.StoredName | app.py:136 | the stored name is the name, one '.', and the uploaded file's extension, with no further '.' after the name |
| Server.StoredNameExtension | app.py:136 | the extension `rsplit` finds in the stored name is the uploaded file's lower-cased extension |
| Server.StoredNameRoundTrip | app.py:136 | the stored name `name.ext`, before `secure_filename`, passes the extension rule again, and `splitext` of it gives the name back |
| Server.AddedFaceIsListed | app.py:204-216 | when `secure_filename` leaves the stored name of line 136 unchanged, the listing of the folder with the saved file appended gains exactly one entry: the uploaded name and that file |
| Server.StoredNameIsListable | app.py:136 | a stored upload name, before `secure_filename`, is a visible file with an allowed extension whose listing entry is the uploaded name |
| Server.ListedFacesSnoc | app.py:204-216 | appending a listable entry to the folder appends exactly its face to the listing |
| Server.AdmitFace | app.py:141-189 | a known name, an unreadable image, no face or several faces give 400; the face is added exactly when the name is new and exactly one face was found, under the secured stored name, with the success message |
| Server.UploadFace | app.py:82-195 | recogniser unavailable: 500; a failing check: 400 with its message; an added face passed every check, has a new name and exactly one face |
| Server.ListedFacesExact | app.py:204-216 | every listed face comes from a visible regular file with an allowed extension, and every such file is listed |
| Server.GetFaces | app.py:197-222 | the faces listed are exactly `ListedFaces` of the folder, or none when it does not exist, and `count` is their number |
| Server.Without | app.py:245 | the remaining entries are exactly those with another name |
| Server.DeleteFace | app.py:230-260 | no filename: 400; absent: 404; present but not a file: 500 "Delete failed: …"; otherwise the remaining folder is exactly the folder without that name, with nothing added, and the message names the stem |
| Consistency.DotExtIsAfterLastDot | static/js/app.js:345-347 | a name whose lower-cased form ends with ".ext" has `rsplit` extension ext |
| Consistency.AfterLastDotIsDotExt | app.py:27-30 | a name with a '.' ends, lower-cased, with "." and its lower-cased `rsplit` extension |
| Consistency.ExtensionListsAgree | app.py:21 | the server's extension set, the client's list and the recogniser's tuple name the same six extensions |
| Consistency.ExtensionRulesAgree | app.py:27-30 | `allowed_file`, the client's extension check and the recogniser's `endswith` accept the same file names |
| Consistency.ServerExtensionPassesClient | app.py:27-30 | a name the server allows passes the client's extension check |
| Consistency.ClientExtensionPassesServer | static/js/app.js:344-349 | a name passing the client's extension check is allowed by the server |
| Consistency.OverlaysDifferByReflection | static/js/app.js:190-198 | app.js draws each box as main.js's outline reflected across the canvas width, and conversely |
| Consistency.UnmatchedFaceLooksRecognised | face_recognizer.py:87 | the recogniser's "Desconhecido" is not app.js's "Unknown", so an unmatched face gets the success colour |
| Consistency.UploadsAreNotKnownFaces | face_recognizer.py:7 | the upload folder is not the folder the recogniser reads |
| Consistency.AstralNamesSplitTheLengthRules | static/js/app.js:321-329 | a name of 26 to 50 astral characters is refused by the client as too long and accepted by the server |
| Consistency.AstralNameIsUntouched | app.py:104 | astral characters are never trimmed, and each counts as two UTF-16 units |

## Left out

- Camera access, `requestAnimationFrame`, `Date.now()`, `fetch`, the DOM and canvas painting are not modelled as effects. Time is a parameter of `Tick`. Drawing is the list of overlays a frame would paint. `measureText` and `Math.round(confidence * 100)` are parameters.
- The mirrored redraw of the video frame and `toDataURL` are left out; the image sent is not modelled on the client side.
- main.js requests `/process_frame`, `/delete_face` (with POST) and `/list_faces`. The server routes are `/api/process-frame`, `/api/delete-face` (DELETE) and `/api/faces`. Routing is not part of this model, so the two sides are modelled separately.
- Not modelled, because they are only form state and DOM updates:
  - app.js: `loadKnownFaces`, `validateForm`, the live file-input styling, the response handling after a successful upload check, `showFeedback` and `updateStatus`;
  - main.js: its `loadKnownFaces` and upload handler.
- Lower-casing covers ASCII letters only; Unicode case folding is not modelled. The extension lists are ASCII, so only file names with non-ASCII letters in the extension could differ.
- `base64.b64decode`, `secure_filename`, PIL's verification, `face_recognition` (detection, encodings, distances), `cv2` decoding and resizing, and numpy are code outside this model. They enter as parameters or given values: `decode`, `secure`, `ImageInspection`, `SmallFrame`, `LoadResult`, `distance`.
- `get_known_faces` and `get_face_count` are imported by app.py but not defined in face_recognizer.py. The known names are therefore a parameter of `Server.UploadFace`.
- Re-running `initialize_recognizer` after an upload or a delete, and `ensure_recognizer_initialized`, are file-system I/O. Whether initialisation succeeded is the parameter `recognizerReady`.
- The folders are flat lists of entries. Path joining, path traversal in a delete request, and the folder creation at start-up are not modelled.
- The generic exception handlers ("Upload failed: …", "Failed to get faces: …") and the 404/500 error handlers of app.py are not modelled. They catch failures of code outside this model.
- Server.ProcessFrame: treats the `image` field as a string; a JSON body whose `image` has another type raises before any check, and that is not modelled.
- Server.AdmitFace: writing the file is not modelled; an `Added` reply stands for the file having been saved.
- Recognizer.KnownFaces.Initialize: the warning printed when no face file is found is left out, like every log line.
- ClientApp.DeleteFeedback: for an HTTP error or a failed fetch the message is stated through `CatchMessage`. The contract does not settle whether the server's error text contains "Failed to fetch".
- ClientMain.OverlappingRequests: states that both ticks send; that two requests are then in flight is a ghost fact, asserted inside its body.
