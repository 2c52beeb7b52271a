/** Types shared by the modules of this project. */
module Base {

  datatype Option<+T> = None | Some(value: T)

  datatype Result<+T, +E> = Ok(value: T) | Err(error: E)

  /** One octet of a frame, a payload or a terminal stream. */
  newtype byte = x: int | 0 <= x < 256

  /** Instants and durations are whole microseconds, the resolution of a `timestamptz` column. */
  const SECOND: int := 1_000_000

  /** An instant written with whole seconds and read back: the fraction is cut off, never rounded up. */
  function WholeSeconds(t: int): (r: int)
    ensures r % SECOND == 0
    ensures t - SECOND < r <= t
  {
    t - t % SECOND
  }
}
