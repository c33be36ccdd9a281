/** Shapes of the values the tracker works on: a detection, a tracked object
    and its history points, and the three tuning parameters of a tracker. */
module TrackerTypes {

  /** One detector box in one frame; (x, y) is read as the top-left corner
      by the overlap test, the box is width by height. */
  datatype Detection = Detection(x: real, y: real, width: real, height: real)

  /** A pixel position in a track's history. */
  datatype Point = Point(x: int, y: int)

  /** A live track: its id, its current box, the number of frames since it
      was last matched, and the pixel positions at which it was matched. */
  datatype Track = Track(id: int, x: real, y: real, width: real, height: real,
                         lastSeen: int, history: seq<Point>)

  /** The tracker's tuning: how many missed frames a track survives, the
      proximity bound of the distance fallback, and the overlap threshold. */
  datatype Params = Params(maxMissing: int, maxDist: real, iouThreshold: real)

  /** The defaults the tracker is declared with. */
  const DefaultParams := Params(3, 0.1, 0.5)

  /** The C++ float-to-int conversion: truncation toward zero. */
  function TruncToInt(r: real): (n: int)
    ensures 0.0 <= r ==> 0 <= n && n as real <= r < n as real + 1.0
    ensures r < 0.0 ==> n <= 0 && n as real - 1.0 < r <= n as real
  {
    if r >= 0.0 then r.Floor else -((-r).Floor)
  }

  /** The history entry recorded for a detection on a W by H canvas:
      the scaled (x, y), truncated to integers. */
  function HistoryPoint(d: Detection, W: int, H: int): Point
  {
    Point(TruncToInt(d.x * W as real), TruncToInt(d.y * H as real))
  }
}
