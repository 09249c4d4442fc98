/** Value types shared by every part of the model. */
module Types {
  /** A grid position. The source's `Pos` is a 2D point of 32-bit integers;
      here the coordinates are unbounded. */
  datatype Pos = Pos(x: int, y: int)

  datatype Option<T> = None | Some(value: T)
}
