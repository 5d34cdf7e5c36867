/** What several components share. */
module Common {

  const NANOS_PER_SEC: int := 1_000_000_000

  datatype Option<T> = None | Some(value: T)

  function Ceil(x: real): int { -((-x).Floor) }
}
