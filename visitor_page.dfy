/** The visitor check-in page. The component's fields are updated in place
    by its event handlers; each handler here is proved to move the fields
    exactly as the pure transitions of VisitorForm, SignaturePad and Capture
    say, and to leave every field outside its `modifies` clause alone. */
module VisitorPage {
  import opened Wrappers
  import opened Text
  import opened Raster
  import VisitorForm
  import SignaturePad
  import Capture

  class VisitorPage {
    // Visitor data
    var name: string
    var surname: string
    var contact: string
    var email: string
    var idn: string
    var purpose: string
    var organization: string
    var otherReason: string
    var signature: Option<Image>
    var selfie: Option<Image>
    var acceptedPopia: bool
    var isOtherReasonVisible: bool
    /** Whether the form inputs have been enabled (they start disabled). */
    var fieldsEnabled: bool

    // Signature canvas
    var isDrawing: bool
    var path: seq<Point>
    var pixels: seq<seq<Point>>
    var canvasWidth: int
    var canvasHeight: int

    // Camera capture
    var tracking: bool
    var video: Option<Capture.StreamId>

    /** Every check-in record sent to the back end, oldest first. */
    var posted: seq<VisitorForm.Payload>

    function CurrentForm(): VisitorForm.Form
      reads this
    {
      VisitorForm.Form(name, surname, contact, email, idn, purpose, organization,
                       otherReason, signature, selfie, acceptedPopia)
    }

    function PadState(): SignaturePad.Pad
      reads this
    {
      SignaturePad.Pad(isDrawing, path, pixels)
    }

    function CaptureState(): Capture.Session
      reads this
    {
      Capture.Session(tracking, video, selfie)
    }

    /** A new page: empty fields, no images, nothing accepted or running. */
    constructor ()
      ensures CurrentForm() == VisitorForm.Form("", "", "", "", "", "", "", "", None, None, false)
      ensures !isOtherReasonVisible && !fieldsEnabled
      ensures PadState() == SignaturePad.Blank
      ensures CaptureState() == Capture.Session(false, None, None)
      ensures posted == []
    {
      name, surname, contact, email, idn := "", "", "", "", "";
      purpose, organization, otherReason := "", "", "";
      signature, selfie := None, None;
      acceptedPopia, isOtherReasonVisible, fieldsEnabled := false, false, false;
      isDrawing, path, pixels := false, [], [];
      canvasWidth, canvasHeight := 300, 150;
      tracking, video := false, None;
      posted := [];
    }

    /** `onPOPIAAccepted`: record the answer; accepting enables the inputs. */
    method OnPOPIAAccepted(accepted: bool)
      modifies this`acceptedPopia, this`fieldsEnabled
      ensures acceptedPopia == accepted
      ensures fieldsEnabled == (accepted || old(fieldsEnabled))
    {
      acceptedPopia := accepted;
      if accepted {
        fieldsEnabled := true;
      }
    }

    /** `onPurposeChange`: show the reason input exactly for "Other". */
    method OnPurposeChange()
      modifies this`isOtherReasonVisible
      ensures isOtherReasonVisible <==> purpose == VisitorForm.OtherPurpose
    {
      isOtherReasonVisible := purpose == VisitorForm.OtherPurpose;
    }

    /** `onSubmit`: the outcome and the new contact are those of
        `VisitorForm.Submit` on the fields as they were, and a record is
        sent exactly once when, and only when, the outcome is `Posted`. */
    method OnSubmit() returns (outcome: VisitorForm.Outcome)
      modifies this`contact, this`posted
      ensures VisitorForm.Submission(outcome, contact) == VisitorForm.Submit(old(CurrentForm()))
      ensures posted == old(posted) + (if outcome.Posted? then [outcome.payload] else [])
    {
      ghost var before := CurrentForm();
      if !acceptedPopia {
        return VisitorForm.Rejected(VisitorForm.ConsentMessage);
      }
      if |contact| > VisitorForm.ContactLength {
        contact := Take(contact, VisitorForm.ContactLength);
      } else if |contact| < VisitorForm.ContactLength {
        return VisitorForm.Rejected(VisitorForm.ContactMessage);
      }
      assert CurrentForm() == before.(contact := contact);
      var messages := VisitorForm.ValidateForm(CurrentForm());
      if |messages| > 0 {
        return VisitorForm.Rejected(Join(messages, " "));
      }
      var reasonForVisit := if purpose == VisitorForm.OtherPurpose then otherReason else purpose;
      var visitorData := VisitorForm.Payload(name, surname, contact, email, idn, reasonForVisit,
                                             organization, signature, selfie, acceptedPopia);
      posted := posted + [visitorData];
      outcome := VisitorForm.Posted(visitorData);
    }

    /** `setupCanvas`: size the signature canvas, which also wipes it and
        resets its path. */
    method SetupCanvas()
      modifies this`canvasWidth, this`canvasHeight, this`path, this`pixels
      ensures canvasWidth == SignatureWidth && canvasHeight == SignatureHeight
      ensures PadState() == SignaturePad.Pad(old(isDrawing), [], [])
    {
      canvasWidth, canvasHeight := SignatureWidth, SignatureHeight;
      path, pixels := [], [];
    }

    method StartDrawing(at: Point)
      modifies this`isDrawing, this`path
      ensures PadState() == SignaturePad.StartDrawing(old(PadState()), at)
    {
      isDrawing := true;
      path := [at];
    }

    method Draw(at: Point)
      modifies this`path, this`pixels
      ensures PadState() == SignaturePad.Draw(old(PadState()), at)
    {
      if !isDrawing {
        return;
      }
      path := path + [at];
      pixels := pixels + [path];
    }

    /** `stopDrawing`: always clears the flag and replaces `signature` with
        a fresh PNG export of the canvas. */
    method StopDrawing()
      modifies this`isDrawing, this`signature
      ensures PadState() == SignaturePad.StopDrawing(old(PadState()))
      ensures signature == Some(SignaturePad.Export(old(PadState())))
    {
      isDrawing := false;
      signature := Some(Image(PngMime, Strokes(pixels)));
    }

    /** `clearCanvas`: wipes the canvas; `signature` is left as it was. */
    method ClearCanvas()
      modifies this`pixels
      ensures PadState() == SignaturePad.ClearCanvas(old(PadState()))
      ensures signature == old(signature)
    {
      pixels := [];
    }

    /** The canvas listeners: pointer-down, pointer-move, and both
        pointer-up and pointer-out to `stopDrawing`. */
    method OnPointer(e: SignaturePad.PointerEvent)
      modifies this`isDrawing, this`path, this`pixels, this`signature
      ensures PadState() == SignaturePad.Handle(old(PadState()), e).pad
      ensures signature == match SignaturePad.Handle(old(PadState()), e).exported
        case Some(img) => Some(img)
        case None => old(signature)
    {
      match e
      case Down(at) => StartDrawing(at);
      case Move(at) => Draw(at);
      case Up => StopDrawing();
      case Out => StopDrawing();
    }

    /** `startTracking` once the camera request has settled. */
    method StartTracking(supported: bool, grant: Option<Capture.StreamId>)
      modifies this`tracking, this`video
      ensures CaptureState() == Capture.StartTracking(old(CaptureState()), supported, grant)
    {
      if !supported {
        return;
      }
      if grant.Some? {
        video := grant;
        tracking := true;
      }
    }

    method StopTracking()
      modifies this`tracking, this`video
      ensures CaptureState() == Capture.StopTracking(old(CaptureState()))
    {
      tracking := false;
      video := None;
    }

    method CaptureImageFromCamera(frame: FrameId)
      modifies this`selfie, this`tracking, this`video
      ensures CaptureState() == Capture.CaptureImage(old(CaptureState()), frame)
    {
      selfie := Some(Capture.Photo(frame));
      StopTracking();
    }

    /** One run of `detectFaceAndCaptureImage`; the result says whether it
        requested another animation frame. */
    method DetectFaceAndCaptureImage(t: Capture.Tick) returns (rescheduled: bool)
      modifies this`selfie, this`tracking, this`video
      ensures Capture.Step(CaptureState(), rescheduled) == Capture.Detect(old(CaptureState()), t)
    {
      if !tracking {
        return false;
      }
      if Capture.FaceFound(t.result) {
        CaptureImageFromCamera(t.frame);
      }
      rescheduled := tracking;
    }

    /** The detection loop: the callback runs on the first tick (the video's
        `loadeddata`) and then on each animation frame it requested. It
        returns how many times the callback ran. */
    method RunDetectionLoop(ticks: seq<Capture.Tick>) returns (runs: nat)
      modifies this`selfie, this`tracking, this`video
      ensures CaptureState() == Capture.Loop(old(CaptureState()), ticks)
      ensures runs <= |ticks| && (runs < |ticks| ==> !tracking)
    {
      runs := 0;
      var again := true;
      while runs < |ticks| && again
        invariant runs <= |ticks|
        invariant CaptureState() == Capture.Loop(old(CaptureState()), ticks[..runs])
        invariant !again ==> !tracking
        decreases |ticks| - runs
      {
        again := DetectFaceAndCaptureImage(ticks[runs]);
        assert ticks[..runs + 1][..runs] == ticks[..runs];
        runs := runs + 1;
      }
      if runs < |ticks| {
        Capture.LoopAppend(old(CaptureState()), ticks[..runs], ticks[runs..]);
        Capture.LoopIdle(CaptureState(), ticks[runs..]);
        assert ticks[..runs] + ticks[runs..] == ticks;
      } else {
        assert ticks[..runs] == ticks;
      }
    }

    /** `processSelfie` on an uploaded picture. */
    method ProcessSelfie(hasContext: bool, picture: FrameId, result: Capture.Detection)
      modifies this`selfie
      ensures selfie == Capture.ProcessSelfie(old(selfie), hasContext, picture, result)
    {
      if hasContext {
        if Capture.FaceFound(result) {
          selfie := Some(Image(JpegMime, Snapshot(picture, true)));
        }
      }
    }

    /** `handleSelfieChange`: start the camera, then take the first picked
        file; a file whose type is not an image is refused with a toast and
        not read; a file that is read and decoded goes to `processSelfie`.
        The result says whether the type guard refused the file. */
    method HandleSelfieChange(files: seq<File>, supported: bool, grant: Option<Capture.StreamId>,
                              decoded: bool, hasContext: bool, result: Capture.Detection)
      returns (refused: bool)
      modifies this`tracking, this`video, this`selfie
      ensures refused <==> |files| > 0 && !IsImageMime(files[0].mime)
      ensures tracking == Capture.StartTracking(old(CaptureState()), supported, grant).tracking
      ensures video == Capture.StartTracking(old(CaptureState()), supported, grant).video
      ensures selfie == if |files| > 0 && IsImageMime(files[0].mime) && decoded
                        then Capture.ProcessSelfie(old(selfie), hasContext, files[0].picture, result)
                        else old(selfie)
    {
      StartTracking(supported, grant);
      refused := false;
      if |files| > 0 {
        var file := files[0];
        if !IsImageMime(file.mime) {
          return true;
        }
        if decoded {
          ProcessSelfie(hasContext, file.picture, result);
        }
      }
    }
  }
}
