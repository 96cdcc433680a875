/** Colours as both scripts pass them around: a triple of 8-bit channel intensities. */
module Colors {

  /** One channel intensity. */
  type Byte = x: int | 0 <= x < 256

  /** An `(r, g, b)` tuple. */
  datatype Rgb = Rgb(r: Byte, g: Byte, b: Byte)

  const BLACK := Rgb(0, 0, 0)
}
