/** Values shared by the browser editor and the annotation server. */
module Types {

  datatype Option<+T> = None | Some(value: T)

  datatype Result<+T, +E> = Ok(value: T) | Err(error: E)

  /** One bounding-box annotation: centre (x, y) and size (w, h) as fractions
      of the unrotated image's natural size, and the class id. This is the
      record the editor keeps in its box list and the server writes as a
      YOLO line. */
  datatype Box = Box(x: real, y: real, w: real, h: real, cls: int)

  /** A point in canvas pixels (before the CSS rotation of the canvas). */
  datatype Point = Point(x: real, y: real)
}
