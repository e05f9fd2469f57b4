/** Option and Result values shared by the modules of the importer model. */
module Results {

  /** A value that may be absent: SQL NULL, a `None` return, an empty `fetchone()`. */
  datatype Option<+T> = None | Some(value: T)

  /** The outcome of an operation that raises in the source: `Err` carries the message. */
  datatype Result<+T> = Ok(value: T) | Err(message: string)

  /** Values of the inclusive range 0..255: one byte. */
  type byte = b: int | 0 <= b < 256
}
