/** The camera capture session of the visitor page as pure transitions on
    its three pieces of state: the `tracking` flag, the video element's
    source stream (held or null) and the `selfie`. The face detector is
    reduced to what the page reads from it: the number of faces found in a
    frame, or a failure. */
module Capture {
  import opened Wrappers
  import opened Raster

  /** Identifies a camera stream granted by `getUserMedia`. */
  type StreamId = nat

  /** What one `detectForVideo` call gave back. */
  datatype Detection = Faces(count: nat) | DetectFailed

  /** One run of the detection callback: the video frame on screen and the
      detector's answer for it. */
  datatype Tick = Tick(frame: FrameId, result: Detection)

  datatype Session = Session(tracking: bool, video: Option<StreamId>, selfie: Option<Image>)

  /** `results.faceLandmarks && results.faceLandmarks.length > 0`. */
  predicate FaceFound(d: Detection) {
    d.Faces? && d.count > 0
  }

  /** The JPEG `captureImageFromCamera` exports from a video frame. */
  function Photo(frame: FrameId): Image {
    Image(JpegMime, Snapshot(frame, false))
  }

  /** `startTracking`: nothing without camera support or a loaded model, or
      when the camera is refused; otherwise the granted stream becomes the
      video source and tracking starts. */
  function StartTracking(s: Session, supported: bool, grant: Option<StreamId>): (r: Session)
    ensures r.selfie == s.selfie
    ensures !supported || grant.None? ==> r == s
    ensures supported && grant.Some? ==> r.tracking && r.video == grant
  {
    if !supported || grant.None? then s
    else s.(video := grant, tracking := true)
  }

  /** `stopTracking`: clear the flag, stop the stream's tracks and drop it;
      the selfie is kept. */
  function StopTracking(s: Session): (r: Session)
    ensures !r.tracking && r.video.None? && r.selfie == s.selfie
  {
    s.(tracking := false, video := None)
  }

  /** `captureImageFromCamera`: store the frame as the selfie, then stop.
      Nothing of the session before the capture survives it. */
  function CaptureImage(s: Session, frame: FrameId): (r: Session)
    ensures r == Session(false, None, Some(Photo(frame)))
  {
    StopTracking(s.(selfie := Some(Photo(frame))))
  }

  /** The state after one detection callback, and whether it asked for
      another animation frame. */
  datatype Step = Step(session: Session, rescheduled: bool)

  /** `detectFaceAndCaptureImage`: return at once when not tracking;
      capture on a face; log and carry on when no face is found or the
      detector throws; reschedule while still tracking. */
  function Detect(s: Session, t: Tick): (r: Step)
    ensures r.rescheduled == r.session.tracking
  {
    if !s.tracking then Step(s, false)
    else if FaceFound(t.result) then Step(CaptureImage(s, t.frame), false)
    else Step(s, true)
  }

  /** The state after the callback has run on each tick in turn. A callback
      that did not reschedule leaves every later tick with nothing to do. A
      session still tracking at the end has found no face and is unchanged;
      in particular the loop never turns tracking on. */
  function Loop(s: Session, ticks: seq<Tick>): (r: Session)
    ensures r.tracking ==> r == s
    decreases |ticks|
  {
    if ticks == [] then s
    else Detect(Loop(s, ticks[..|ticks| - 1]), ticks[|ticks| - 1]).session
  }

  /** The index of the first tick in which a face was found. */
  function FirstFace(ticks: seq<Tick>): (r: Option<nat>)
    ensures r.Some? ==> r.value < |ticks| && FaceFound(ticks[r.value].result)
    ensures r.Some? ==> forall j :: 0 <= j < r.value ==> !FaceFound(ticks[j].result)
    ensures r.None? ==> forall j :: 0 <= j < |ticks| ==> !FaceFound(ticks[j].result)
  {
    if ticks == [] then None
    else if FaceFound(ticks[0].result) then Some(0)
    else match FirstFace(ticks[1..])
      case None => None
      case Some(i) => Some(i + 1)
  }

  /** A callback that finds tracking off changes nothing and stops the loop. */
  lemma DetectWhenIdle(s: Session, t: Tick)
    requires !s.tracking
    ensures Detect(s, t) == Step(s, false)
  {
  }

  /** Neither a detector failure nor an empty frame stops the loop or
      touches the selfie. */
  lemma DetectFailureContinues(s: Session, t: Tick)
    requires s.tracking && !FaceFound(t.result)
    ensures Detect(s, t) == Step(s, true)
  {
  }

  /** The first face found sets the selfie from that frame, then turns
      tracking off and drops the video source. */
  lemma DetectCaptures(s: Session, t: Tick)
    requires s.tracking && FaceFound(t.result)
    ensures Detect(s, t) == Step(Session(false, None, Some(Photo(t.frame))), false)
  {
  }

  /** Once tracking is off, further ticks change nothing. */
  lemma {:induction false} LoopIdle(s: Session, ticks: seq<Tick>)
    requires !s.tracking
    ensures Loop(s, ticks) == s
    decreases |ticks|
  {
    if ticks != [] {
      LoopIdle(s, ticks[..|ticks| - 1]);
    }
  }

  /** Splitting the ticks splits the loop. */
  lemma {:induction false} LoopAppend(s: Session, a: seq<Tick>, b: seq<Tick>)
    ensures Loop(s, a + b) == Loop(Loop(s, a), b)
    decreases |b|
  {
    if b == [] {
      assert a + b == a;
    } else {
      var b' := b[..|b| - 1];
      assert (a + b)[..|a + b| - 1] == a + b';
      assert (a + b)[|a + b| - 1] == b[|b| - 1];
      LoopAppend(s, a, b');
    }
  }

  /** A tracking session captures at most once: it ends holding the photo
      of the first frame with a face and with tracking off and no video
      source, or, when no frame had a face, exactly as it started. */
  lemma {:induction false} LoopCapturesFirstFace(s: Session, ticks: seq<Tick>)
    requires s.tracking
    ensures Loop(s, ticks) == match FirstFace(ticks)
      case None => s
      case Some(i) => Session(false, None, Some(Photo(ticks[i].frame)))
    decreases |ticks|
  {
    if ticks != [] {
      var first := Detect(s, ticks[0]).session;
      LoopAppend(s, [ticks[0]], ticks[1..]);
      assert [ticks[0]] + ticks[1..] == ticks;
      assert Loop(s, [ticks[0]]) == first by {
        assert [ticks[0]][..0] == [];
      }
      if FaceFound(ticks[0].result) {
        LoopIdle(first, ticks[1..]);
      } else {
        LoopCapturesFirstFace(s, ticks[1..]);
        match FirstFace(ticks[1..])
        case None =>
        case Some(i) => assert ticks[1..][i] == ticks[i + 1];
      }
    }
  }

  /** `processSelfie` on an uploaded picture: with a drawing context and a
      face, the selfie becomes the picture with the face mesh drawn on it;
      otherwise (no context, no face, or a detector failure, which the page
      does not catch) the old selfie stays. */
  function ProcessSelfie(selfie: Option<Image>, hasContext: bool, picture: FrameId, result: Detection): (r: Option<Image>)
    ensures r == selfie || r == Some(Image(JpegMime, Snapshot(picture, true)))
    ensures r != selfie ==> hasContext && FaceFound(result)
  {
    if hasContext && FaceFound(result) then Some(Image(JpegMime, Snapshot(picture, true)))
    else selfie
  }

  lemma ProcessSelfieOutcome(selfie: Option<Image>, hasContext: bool, picture: FrameId, result: Detection)
    ensures !FaceFound(result) ==> ProcessSelfie(selfie, hasContext, picture, result) == selfie
    ensures hasContext && FaceFound(result) ==>
      ProcessSelfie(selfie, hasContext, picture, result) == Some(Image(JpegMime, Snapshot(picture, true)))
  {
  }
}
