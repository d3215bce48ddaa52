/** Values shared by every part of the scoring device: optional values,
    Python exceptions as data, pixel coordinates, captured frames, the
    jobs that travel on the processing queue and the result record that
    is sent to the server. */
module Common {

  datatype Option<T> = None | Some(value: T)

  /** The Python exceptions that the modelled code can raise. */
  datatype PyError = NameError | ValueError | TypeError | AttributeError | ZeroDivisionError

  datatype Result<T> = Ok(value: T) | Raised(error: PyError)

  /** Integer pixel coordinates (x to the right, y downwards). */
  datatype Point = Point(x: int, y: int)

  /** Floating-point coordinates, as produced by a perspective transform. */
  datatype PointF = PointF(x: real, y: real)

  function ToReal(p: Point): (q: PointF)
    ensures q.x.Floor == p.x && q.y.Floor == p.y
  {
    PointF(p.x as real, p.y as real)
  }

  /** A capture time, already formatted as text. */
  type Timestamp = string

  /** Width and height of an image loaded from disk (the reference target face). */
  datatype ImageDims = ImageDims(width: nat, height: nat)

  /** The content of a camera frame at one moment: its size, its sensor
      pixels and whether the aiming cross has been drawn onto it. */
  datatype FrameData = FrameData(width: nat, height: nat, pixels: seq<int>, cross: bool)

  /** A JPEG encoding is modelled by the frame content it encodes. */
  type Jpeg = FrameData

  /** A camera frame as a mutable pixel array: drawing the aiming cross
      changes it in place, and every holder of a reference sees that. */
  class Frame {
    const width: nat
    const height: nat
    const pixels: seq<int>
    var cross: bool

    constructor (width: nat, height: nat, pixels: seq<int>)
      ensures this.width == width && this.height == height && this.pixels == pixels
      ensures !cross
    {
      this.width := width;
      this.height := height;
      this.pixels := pixels;
      cross := false;
    }

    /** `frame.copy()`: a value that later drawing can no longer change. */
    function Snapshot(): (d: FrameData)
      reads this
      ensures d.width == width && d.height == height && d.pixels == pixels && d.cross == cross
    {
      FrameData(width, height, pixels, cross)
    }
  }

  /** What is put on the processing queue: the two-field tuple built at
      main.py:153 or the three-field tuple built at threads/workers.py:128. */
  datatype QueuedItem =
    | Pair(frame: FrameData, time: Timestamp)
    | Triple(frame: FrameData, time: Timestamp, center: Option<Point>)

  /** The 'score' field of a result record: '--' until it is set, then an integer. */
  datatype ScoreField = Pending | Points(n: int)

  datatype Color = Red | Yellow

  /** The image a marker is drawn on: a copy of the reference target face
      or a copy of the captured frame. */
  datatype Canvas = Reference | Captured(frame: FrameData)

  /** The annotated image that is JPEG- and base64-encoded into 'image_data'. */
  datatype Annotation = Annotation(canvas: Canvas, marker: Option<Point>, color: Color)

  /** The record posted to /processed_data_upload. */
  datatype Payload = Payload(time: Timestamp, target: string, score: ScoreField, image: Annotation)

  const TargetBia4: string := "Bia số 4"
  const TargetBia78: string := "Bia số 7-8"
  const TargetMissed: string := "Không trúng mục tiêu"
  const TargetUnresolved: string := "Không xử lý được"
}
