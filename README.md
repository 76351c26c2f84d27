# Visitor check-in core, modelled in Dafny

This project models the decision logic of the MAB Office visitor kiosk. A
visitor fills in a form, gives POPIA consent, takes or uploads a selfie and
signs on a canvas. The page then validates the form and posts one check-in
record. A second page lists the saved visitors and deletes them by id.

The model covers five pieces, each proved against a pure specification:

- **The form.** `isFormValid`, `validateForm` and the decision sequence of
  `onSubmit` are functions over a `Form` value (`visitor_form.dfy`). The
  page class performs `onSubmit` on its own fields and is proved to agree
  with those functions (`visitor_page.dfy`).
- **The signature pad.** It is a state machine: the `isDrawing` flag, the
  canvas's current path, and the strokes painted so far
  (`signature_pad.dfy`). The visitor page stores each export in
  `signature`. The canvas service passes it to a callback instead
  (`canvas_service.dfy`).
- **The capture session.** Its state is the `tracking` flag, the video
  source and `selfie`. Each run of the detection callback is one
  transition, and the loop of callbacks is a fold over camera ticks
  (`capture.dfy`).
- **The uploaded-selfie path.** It has a MIME guard and face detection on
  the picture.
- **The saved-visitor list.** Records are prepared for display, and
  entries are filtered out by `_id` (`saved_details.dfy`).

The face detector is reduced to a face count, or a failure. Images are
opaque values: a MIME type plus a description of what was painted. Camera
grants, file reads and HTTP outcomes are parameters of the methods that
wait for them. JavaScript's `trim`, `startsWith`, `substring` and `join`
are in `text.dfy`.

The model follows the code, including what the code does not enforce:

- Submission does not require a signature or a selfie. The comments "Make
  sure signatureImage is captured" and "Make sure selfieImage is captured"
  (visitor-page.component.ts lines 321-322) are not backed by a check, and a
  null image is posted as null.
- The detection loop retries after a detector failure with no bound.
- A failed submission is not classified by HTTP status.
- Every pointer-out, even with no stroke in progress, replaces `signature`
  with an export of the current canvas.
- `onSubmit` checks the raw contact length. Its message list does not check
  the id length. So it can post a form that `isFormValid` rejects
  (`PostedFormNeedNotBeValid`).

## Model

| member | source | states |
|---|---|---|
| `Text.Trim` | src/app/visitor-page/visitor-page.component.ts:272-279 | `trim` never lengthens its input, and what it returns neither starts nor ends with white space |
| `Text.TrimEmptyIff` | src/app/visitor-page/visitor-page.component.ts:356-363 | `s.trim()` is empty exactly when every character of `s` is white space |
| `Text.TrimIsSlice` | src/app/visitor-page/visitor-page.component.ts:272-279 | `trim` returns a contiguous piece of the input with only white space cut from either side and none left at its ends |
| `Text.TrimIdempotent` | src/app/visitor-page/visitor-page.component.ts:272-279 | trimming twice gives the same as trimming once |
| `Text.Take` | src/app/visitor-page/visitor-page.component.ts:293-294 | `substring(0, n)` keeps a prefix of length min(n, length) |
| `Text.JoinSnoc` | src/app/visitor-page/visitor-page.component.ts:303 | joining a non-empty list with one more part pushed at the end is the old join, one separator, then that part: each further failing rule adds " " and its message |
| `VisitorForm.IsFormValid` | src/app/visitor-page/visitor-page.component.ts:270-283 | a form `isFormValid` accepts draws no message from `validateForm` |
| `VisitorForm.ValidateForm` | src/app/visitor-page/visitor-page.component.ts:354-365 | never more than seven messages (one message per failing rule is `ValidateFormFollowsRules`) |
| `VisitorForm.IsFormValidIff` | src/app/visitor-page/visitor-page.component.ts:270-283 | valid iff name, surname, email, purpose and organization each hold a non-white-space character; trimmed contact has 10 characters and trimmed id 13; "Other" comes with a reason; consent given |
| `VisitorForm.ValidateFormFollowsRules` | src/app/visitor-page/visitor-page.component.ts:354-365 | the messages are exactly those of the failing rules, in the fixed order name, surname, email, id, purpose, other reason, organization |
| `VisitorForm.FailedMessagesHas` | src/app/visitor-page/visitor-page.component.ts:354-365 | a rule's message is listed iff the rule fails; no rule masks another |
| `VisitorForm.ValidateFormEmptyIff` | src/app/visitor-page/visitor-page.component.ts:354-365 | the message list is empty iff no rule fails |
| `VisitorForm.PurposeExcludesOtherReason` | src/app/visitor-page/visitor-page.component.ts:360-362 | the purpose and other-reason rules never fail together |
| `VisitorForm.ValidateFormAtMostSix` | src/app/visitor-page/visitor-page.component.ts:354-365 | at most six messages are ever returned |
| `VisitorForm.ValidateFormIgnoresContact` | src/app/visitor-page/visitor-page.component.ts:354-365 | the contact field does not affect the message list |
| `VisitorForm.ValidFormHasNoMessages` | src/app/visitor-page/visitor-page.component.ts:270-283 | a valid form has no messages; no messages plus both length checks and consent make a valid form |
| `VisitorForm.Submit` | src/app/visitor-page/visitor-page.component.ts:286-324 | the stored contact is a prefix of the typed one; a posted record needs consent and a raw contact of at least 10 characters, and carries the 10-character contact that is kept |
| `VisitorForm.SubmitNeedsConsent` | src/app/visitor-page/visitor-page.component.ts:288-291 | without consent the submit is rejected with the consent message, nothing is sent and contact is unchanged |
| `VisitorForm.SubmitContact` | src/app/visitor-page/visitor-page.component.ts:293-298 | with consent, a raw contact over 10 characters is cut to its first 10; one under 10 is rejected unchanged; the stored contact is always a prefix of the old one |
| `VisitorForm.SubmitSettlesContact` | src/app/visitor-page/visitor-page.component.ts:293-298 | a second submit never shortens the contact again |
| `VisitorForm.SubmitPostsIff` | src/app/visitor-page/visitor-page.component.ts:286-305 | a record is posted iff consent, raw contact length at least 10 and no failing rule; otherwise the failing messages are joined with single spaces |
| `VisitorForm.PostedPayload` | src/app/visitor-page/visitor-page.component.ts:307-324 | a posted record has a 10-character prefix of the contact, purpose = otherReason when "Other" else purpose, and every other field (null signature or selfie included) copied |
| `VisitorForm.ValidFormIsPosted` | src/app/visitor-page/visitor-page.component.ts:286-324 | every form `isFormValid` accepts is posted |
| `VisitorForm.PostedFormNeedNotBeValid` | src/app/visitor-page/visitor-page.component.ts:293-305 | some posted form is not accepted by `isFormValid` (a one-character id number) |
| `VisitorPage.VisitorPage.constructor` | src/app/visitor-page/visitor-page.component.ts:31-50 | fields start empty, images null, consent and tracking off |
| `VisitorPage.VisitorPage.OnPOPIAAccepted` | src/app/visitor-page/visitor-page.component.ts:78-85 | consent takes the given answer; accepting enables the inputs |
| `VisitorPage.VisitorPage.OnPurposeChange` | src/app/visitor-page/visitor-page.component.ts:265-267 | the reason input is visible iff purpose is "Other" |
| `VisitorPage.VisitorPage.OnSubmit` | src/app/visitor-page/visitor-page.component.ts:286-351 | outcome and new contact equal `Submit` of the old fields; exactly one request is recorded iff the outcome is `Posted`; nothing else changes |
| `VisitorPage.VisitorPage.SetupCanvas` | src/app/visitor-page/visitor-page.component.ts:472-484 | the signature canvas becomes 340 by 150 and is wiped |
| `VisitorPage.VisitorPage.StartDrawing` | src/app/visitor-page/visitor-page.component.ts:507-514 | drawing starts with a new path at the pointer |
| `VisitorPage.VisitorPage.Draw` | src/app/visitor-page/visitor-page.component.ts:517-526 | a no-op unless drawing; otherwise extends and strokes the path |
| `VisitorPage.VisitorPage.StopDrawing` | src/app/visitor-page/visitor-page.component.ts:529-535 | drawing stops whatever the state, and `signature` becomes a fresh PNG export |
| `VisitorPage.VisitorPage.ClearCanvas` | src/app/visitor-page/visitor-page.component.ts:547-549 | the canvas is wiped and `signature` is unchanged |
| `VisitorPage.VisitorPage.OnPointer` | src/app/visitor-page/visitor-page.component.ts:486-491 | pointer events follow `SignaturePad.Handle`; up and out both store an export |
| `VisitorPage.VisitorPage.StartTracking` | src/app/visitor-page/visitor-page.component.ts:168-192 | nothing without support or a grant; else the stream is the video source and tracking is on |
| `VisitorPage.VisitorPage.StopTracking` | src/app/visitor-page/visitor-page.component.ts:245-262 | tracking off, video source null, selfie kept |
| `VisitorPage.VisitorPage.CaptureImageFromCamera` | src/app/visitor-page/visitor-page.component.ts:224-242 | selfie becomes the JPEG of the frame, then tracking stops |
| `VisitorPage.VisitorPage.DetectFaceAndCaptureImage` | src/app/visitor-page/visitor-page.component.ts:195-221 | one callback follows `Capture.Detect`, and reschedules iff still tracking |
| `VisitorPage.VisitorPage.RunDetectionLoop` | src/app/visitor-page/visitor-page.component.ts:183-221 | the chained callbacks end in `Capture.Loop` of the ticks; stopping early means tracking is off |
| `VisitorPage.VisitorPage.ProcessSelfie` | src/app/visitor-page/visitor-page.component.ts:124-165 | selfie follows `Capture.ProcessSelfie` |
| `VisitorPage.VisitorPage.HandleSelfieChange` | src/app/visitor-page/visitor-page.component.ts:99-121 | camera started first; a non-image file is refused and the selfie kept; a decoded image goes to `processSelfie` |
| `SignaturePad.StartDrawing` | src/app/services/canvas.service.ts:52-59 | drawing is on, the path restarts at the pointer, nothing painted |
| `SignaturePad.Draw` | src/app/services/canvas.service.ts:62-71 | identity when not drawing; else the extended path is painted once more |
| `SignaturePad.StopDrawing` | src/app/services/canvas.service.ts:74-80 | drawing off, pixels unchanged |
| `SignaturePad.ClearCanvas` | src/app/visitor-page/visitor-page.component.ts:547-549 | pixels wiped; flag and path untouched |
| `SignaturePad.Handle` | src/app/services/canvas.service.ts:26-36 | exactly up and out export, and they export the current canvas; a move when not drawing changes nothing |
| `SignaturePad.UpAndOutAgree` | src/app/services/canvas.service.ts:31-36 | pointer-out does exactly what pointer-up does |
| `SignaturePad.RunExportsOncePerStop` | src/app/services/canvas.service.ts:26-80 | over any event sequence, the number of exports equals the number of ups and outs |
| `SignaturePad.NoDrawWithoutStart` | src/app/services/canvas.service.ts:52-71 | with no pointer-down, an idle pad paints nothing and every export shows the same canvas |
| `SignaturePad.StrokeIsVisible` | src/app/visitor-page/visitor-page.component.ts:507-549 | down, moves, up yields exactly one export showing the painted stroke; a cleared canvas exports blank, so they differ |
| `Capture.StartTracking` | src/app/visitor-page/visitor-page.component.ts:168-192 | the selfie is never touched; without support or a grant nothing changes; with both, tracking is on and the granted stream is the video source |
| `Capture.StopTracking` | src/app/visitor-page/visitor-page.component.ts:245-262 | tracking off and no video source, selfie kept |
| `Capture.CaptureImage` | src/app/visitor-page/visitor-page.component.ts:224-242 | the session afterwards is the frame's JPEG as selfie, not tracking, no video source, whatever it was before |
| `Capture.Detect` | src/app/visitor-page/visitor-page.component.ts:195-221 | rescheduled iff still tracking afterwards |
| `Capture.DetectWhenIdle` | src/app/visitor-page/visitor-page.component.ts:196 | not tracking: nothing changes and no reschedule |
| `Capture.DetectFailureContinues` | src/app/visitor-page/visitor-page.component.ts:207-219 | a detector error or empty frame keeps state and tracking, and reschedules |
| `Capture.DetectCaptures` | src/app/visitor-page/visitor-page.component.ts:207-262 | a face sets selfie to that frame, turns tracking off and drops the video source |
| `Capture.Loop` | src/app/visitor-page/visitor-page.component.ts:183-221 | a session still tracking after the callbacks is unchanged (no face was found); the loop never turns tracking on |
| `Capture.FirstFace` | src/app/visitor-page/visitor-page.component.ts:207-209 | the index found is the first tick with a face, or none has one |
| `Capture.LoopIdle` | src/app/visitor-page/visitor-page.component.ts:196 | once tracking is off, later ticks change nothing |
| `Capture.LoopAppend` | src/app/visitor-page/visitor-page.component.ts:218-220 | running two tick sequences back to back is running their concatenation |
| `Capture.LoopCapturesFirstFace` | src/app/visitor-page/visitor-page.component.ts:195-262 | a tracking session captures at most once: the first frame with a face, tracking off, no video; with no face it ends unchanged |
| `Capture.ProcessSelfie` | src/app/visitor-page/visitor-page.component.ts:124-165 | the selfie is either kept or replaced by the annotated JPEG of the picture, and it is replaced only with a drawing context and a face |
| `Capture.ProcessSelfieOutcome` | src/app/visitor-page/visitor-page.component.ts:139-164 | no face keeps the old selfie; a face with a context sets the annotated JPEG |
| `CanvasService.CanvasService.constructor` | src/app/services/canvas.service.ts:7-9 | the service starts not drawing, blank |
| `CanvasService.CanvasService.SetupCanvas` | src/app/services/canvas.service.ts:12-24 | surface fixed at 340 by 150 and wiped |
| `CanvasService.CanvasService.StartDrawing` | src/app/services/canvas.service.ts:52-59 | follows `SignaturePad.StartDrawing` |
| `CanvasService.CanvasService.Draw` | src/app/services/canvas.service.ts:62-71 | follows `SignaturePad.Draw` |
| `CanvasService.CanvasService.StopDrawing` | src/app/services/canvas.service.ts:74-80 | flag false whatever the prior state; callback called exactly once with a non-null PNG export |
| `CanvasService.CanvasService.OnPointer` | src/app/services/canvas.service.ts:26-36 | up and out each call the callback once; down and move never do |
| `CanvasService.CanvasService.HandleSelfie` | src/app/services/canvas.service.ts:83-95 | exactly one callback; a non-image type gets null and is not read; an image gets its data URL (null if the read failed) |
| `SavedDetails.Prepare` | src/app/saved-details/saved-details.component.ts:37-42 | every original field except date, selfieImage, signatureImage is kept; selfieImage = selfie, signatureImage = signature |
| `SavedDetails.PrepareAll` | src/app/saved-details/saved-details.component.ts:37-42 | same length and order as the response, entry i prepared from response entry i |
| `SavedDetails.WithoutId` | src/app/saved-details/saved-details.component.ts:92-94 | no kept entry has the id; never longer |
| `SavedDetails.WithoutIdKeepsOrder` | src/app/saved-details/saved-details.component.ts:92-94 | the result is a subsequence of the list: relative order kept |
| `SavedDetails.WithoutIdCounts` | src/app/saved-details/saved-details.component.ts:92-94 | each entry with the id is gone; every other entry is kept as often as it occurred |
| `SavedDetails.WithoutIdAbsent` | src/app/saved-details/saved-details.component.ts:92-94 | filtering by an id nobody has leaves the list unchanged |
| `SavedDetails.WithoutIdIdempotent` | src/app/saved-details/saved-details.component.ts:92-94 | deleting the same id twice equals deleting it once |
| `SavedDetails.SavedDetails.constructor` | src/app/saved-details/saved-details.component.ts:15 | the list starts empty |
| `SavedDetails.SavedDetails.LoadVisitorData` | src/app/saved-details/saved-details.component.ts:31-54 | on success the list is the prepared response; on error it is unchanged |
| `SavedDetails.SavedDetails.DeleteVisitor` | src/app/saved-details/saved-details.component.ts:64-86 | on confirm with a valid index, the request is for `visitors[index]._id`; otherwise no request and no change |
| `SavedDetails.SavedDetails.DeleteVisitorFromApi` | src/app/saved-details/saved-details.component.ts:88-105 | one DELETE for the id; success filters by it, error changes nothing |

## Left out

- Face-landmark inference, its model loading (`ngOnInit`) and the mesh overlays are reduced to a face count or a failure, plus an `annotated` flag on the exported picture. They are foreign ML code with float landmarks. `StartTracking`'s `supported` parameter stands for "camera API present and model loaded".
- Camera acquisition, `video.play`, the `loadeddata` listener and `requestAnimationFrame` scheduling are browser I/O. A tick stands for one callback run. The preview canvas sizing (lines 198-199) and clearing (lines 255-260) hold no state the core reads.
- Stopped stream tracks are not tracked; the video source just becomes null. A stream replaced by a second `startTracking` is not stopped by the code, and the model does not show that leak.
- `VisitorPage.RunDetectionLoop` models a single chain of detection callbacks. In the code, every camera grant adds another `loadeddata` listener to the same video element (visitor-page.component.ts line 183), and none is ever removed. Every file pick calls `startTracking` again (line 101). So after a second grant, each load starts one chain per listener. Each callback checks `tracking` first, so the state still follows `Capture.Loop` over the interleaved runs, but the model does not represent the parallel chains or how many times the callback runs.
- Asynchrony: in `handleSelfieChange` the camera request, file read and image decode are taken to settle in that order. The model does not cover interleavings.
- HTTP transport is left out. The POST is the `posted` field. The GET and DELETE results are method parameters. The success modal, the two-second navigation home and the error toast change no modelled state. `date_of_entry` is computed but never sent, so it is not modelled.
- Toasts, alerts, modals, routing, `showModal`/`hideModal`, `handleCancelOrClose`, `presentSuccessToast`, `redirectToSavedDetails`, `handleBackNavigation`, `openVisitorDetails` and `cleanupEventListeners` are UI plumbing. `enableFormFields` is only the `fieldsEnabled` flag.
- The date pipe is the `formatDate` parameter. The model does not cover it throwing on an invalid date.
- Pixels and `toDataURL` encoding are left out. Images are opaque tokens, and a canvas is the list of paths it has stroked. `closePath` has no visible effect, because no stroke follows it before the next `beginPath`.
- Pointer positions are whole-number canvas coordinates. The model does not show the subtraction of the bounding rectangle or fractional pixels.
- Characters are Unicode scalar values, whereas JavaScript strings count UTF-16 code units. Lengths agree on the Basic Multilingual Plane.
- JavaScript strict equality on `_id` is equality of `Value`s. The model does not cover object identity or `NaN`.
- `android/…/MainActivity.java`, `my.service.ts`, `home.page.ts`, the modal components, static text, configuration and the `*.spec.ts` files are not part of this model.
