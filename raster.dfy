/** Canvas contents, exported images and uploaded files, as opaque values.
    Pixels are not represented: a surface is described by what was painted on
    it, and an exported data URL by its MIME type and that description. */
module Raster {
  import Text

  /** A pointer position in canvas coordinates (client position minus the
      canvas's bounding-box origin). */
  datatype Point = Point(x: int, y: int)

  /** Identifies one camera frame or one decoded uploaded picture. */
  type FrameId = nat

  /** What a surface shows: the stroked paths in painting order, or a frame
      drawn from the camera or a picture, possibly with face-mesh overlays. */
  datatype Pixels =
    | Strokes(paths: seq<seq<Point>>)
    | Snapshot(frame: FrameId, annotated: bool)

  /** A `data:` URL produced by `toDataURL` or by a file reader. */
  datatype Image = Image(mime: string, pixels: Pixels)

  /** A file picked by the user: its declared MIME type and its picture. */
  datatype File = File(mime: string, picture: FrameId)

  const PngMime: string := "image/png"
  const JpegMime: string := "image/jpeg"

  /** Size the signature canvas is set to when it is set up. */
  const SignatureWidth: int := 340
  const SignatureHeight: int := 150

  /** The guard on uploaded selfies: `file.type.startsWith('image/')`. */
  predicate IsImageMime(mime: string) {
    Text.StartsWith(mime, "image/")
  }

  /** What `FileReader.readAsDataURL` yields for a file it could read. */
  function DataUrlOf(f: File): Image {
    Image(f.mime, Snapshot(f.picture, false))
  }
}
