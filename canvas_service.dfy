/** The canvas service: the same signature pad as the visitor page, but the
    export is handed to a callback instead of being stored, plus the check
    on an uploaded selfie file. Callbacks are modelled by returning the
    arguments of every call made to them, in order. */
module CanvasService {
  import opened Wrappers
  import opened Raster
  import SignaturePad

  class CanvasService {
    var isDrawing: bool
    var path: seq<Point>
    var pixels: seq<seq<Point>>
    var width: int
    var height: int

    function PadState(): SignaturePad.Pad
      reads this
    {
      SignaturePad.Pad(isDrawing, path, pixels)
    }

    constructor ()
      ensures PadState() == SignaturePad.Blank
    {
      isDrawing, path, pixels := false, [], [];
      width, height := 300, 150;
    }

    /** `setupCanvas`: the surface is sized 340 by 150, which wipes it and
        resets its path; the drawing flag is not touched. */
    method SetupCanvas()
      modifies this`width, this`height, this`path, this`pixels
      ensures width == SignatureWidth && height == SignatureHeight
      ensures PadState() == SignaturePad.Pad(old(isDrawing), [], [])
    {
      width, height := SignatureWidth, SignatureHeight;
      path, pixels := [], [];
    }

    method StartDrawing(at: Point)
      modifies this`isDrawing, this`path
      ensures PadState() == SignaturePad.StartDrawing(old(PadState()), at)
    {
      isDrawing := true;
      path := [at];
    }

    method Draw(at: Point)
      modifies this`path, this`pixels
      ensures PadState() == SignaturePad.Draw(old(PadState()), at)
    {
      if !isDrawing {
        return;
      }
      path := path + [at];
      pixels := pixels + [path];
    }

    /** `stopDrawing`: whatever the state, the flag ends false and the
        callback is called exactly once, with the PNG export. */
    method StopDrawing() returns (calls: seq<Option<Image>>)
      modifies this`isDrawing
      ensures PadState() == SignaturePad.StopDrawing(old(PadState()))
      ensures calls == [Some(SignaturePad.Export(old(PadState())))]
    {
      isDrawing := false;
      var signatureImage := Image(PngMime, Strokes(pixels));
      calls := [Some(signatureImage)];
    }

    /** The listeners `setupCanvas` attaches: pointer-down, pointer-move, and
        both pointer-up and pointer-out to `stopDrawing`. */
    method OnPointer(e: SignaturePad.PointerEvent) returns (calls: seq<Option<Image>>)
      modifies this`isDrawing, this`path, this`pixels
      ensures PadState() == SignaturePad.Handle(old(PadState()), e).pad
      ensures calls == match SignaturePad.Handle(old(PadState()), e).exported
        case Some(img) => [Some(img)]
        case None => []
    {
      match e
      case Down(at) => StartDrawing(at); calls := [];
      case Move(at) => Draw(at); calls := [];
      case Up => calls := StopDrawing();
      case Out => calls := StopDrawing();
    }

    /** `handleSelfie`: a file whose type does not start with "image/" gets
        exactly one callback with null and is not read; any other file is
        read, and the callback gets what the reader produced: the file's
        data URL, or null when reading failed. */
    method HandleSelfie(file: File, readOk: bool) returns (calls: seq<Option<Image>>, read: bool)
      ensures |calls| == 1
      ensures read <==> IsImageMime(file.mime)
      ensures !IsImageMime(file.mime) ==> calls[0] == None
      ensures IsImageMime(file.mime) ==> calls[0] == if readOk then Some(DataUrlOf(file)) else None
      ensures calls[0].Some? ==> IsImageMime(calls[0].value.mime)
    {
      if !IsImageMime(file.mime) {
        return [None], false;
      }
      read := true;
      var result := if readOk then Some(DataUrlOf(file)) else None;
      calls := [result];
    }
  }
}
