// Result types, bytes, powers of two and the role label shared by the other modules.
module Prelude {

  datatype Option<+T> = None | Some(value: T)

  datatype Result<+T, +E> = Success(value: T) | Failure(error: E)

  type Byte = x: int | 0 <= x < 256

  const LabelRole := "arhat.dev/role"

  function Pow2(n: nat): (r: nat)
    ensures r > 0
  {
    if n == 0 then 1 else 2 * Pow2(n - 1)
  }
}
