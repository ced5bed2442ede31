/** Values shared by the two solvers and the checkpoint codec. */
module Common {

  /** Java's `int`: a two's-complement 32-bit integer. */
  const INT32_MIN: int := -0x8000_0000
  const INT32_MAX: int := 0x7FFF_FFFF

  type int32 = x: int | INT32_MIN <= x <= INT32_MAX

  datatype Option<T> = None | Some(value: T)

  /** The ways a public operation of the engine can fail. */
  datatype Error =
    | InvalidConfig      // bad dimensions or piece counts, refused with IllegalArgumentException
    | ArrayFailure       // a bag array of negative size or written past its end
    | CorruptCheckpoint  // a checkpoint stream that loadState refuses

  datatype Result<T> = Ok(value: T) | Err(error: Error)
}
