/** Integer geometry and pixel types shared by the image-processing stages:
    OpenCV's cv::Point, cv::Rect, 8-bit samples and 3-channel colours. */
module Geometry {

  /** An 8-bit unsigned sample (OpenCV's uchar). */
  type Byte = b: int | 0 <= b < 256

  /** A pixel position: x is the column, y the row. */
  datatype Point = Point(x: int, y: int)

  /** The sentinel (-1, -1) that the refiner uses for "no point". */
  const NoPoint: Point := Point(-1, -1)

  function Abs(n: int): nat
  {
    if n < 0 then -n else n
  }

  /** City-block distance, the sum of the coordinate differences. */
  function Manhattan(p: Point, q: Point): nat
  {
    Abs(p.x - q.x) + Abs(p.y - q.y)
  }

  /** Chessboard distance: the radius of the square ring through q around p. */
  function Chebyshev(p: Point, q: Point): nat
  {
    var dx := Abs(p.x - q.x);
    var dy := Abs(p.y - q.y);
    if dx < dy then dy else dx
  }

  /** An axis-aligned rectangle (cv::Rect): top-left corner and size. */
  datatype Rect = Rect(x: int, y: int, width: int, height: int)
  {
    function Area(): int
    {
      width * height
    }

    /** cv::Rect::contains: the right and bottom edges are exclusive. */
    predicate Contains(p: Point)
    {
      x <= p.x < x + width && y <= p.y < y + height
    }
  }

  /** The default-constructed cv::Rect(). */
  const EmptyRect: Rect := Rect(0, 0, 0, 0)

  /** A frame sample as OpenCV stores it (cv::Vec3b, blue first). */
  datatype Bgr = Bgr(b: Byte, g: Byte, r: Byte)

  /** A colour as the pixel classifier takes it (red first). */
  datatype Rgb = Rgb(r: Byte, g: Byte, b: Byte)

  /** The channel swap Pixel(val[2], val[1], val[0]) used before classifying. */
  function ToRgb(c: Bgr): Rgb
  {
    Rgb(c.r, c.g, c.b)
  }
}
