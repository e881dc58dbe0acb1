/** Status codes, results and the 64-bit integers shared by the scaler's modules. */
module Status {

  /** The gRPC status codes the scaler returns. */
  datatype Code = NotFound | InvalidArgument | Internal

  /** A value or the status code of the error that replaced it (Go's `(T, error)` pair). */
  datatype Result<+T> = Ok(value: T) | Err(code: Code)

  datatype Option<+T> = None | Some(value: T)

  const Int64Modulus: int := 0x1_0000_0000_0000_0000
  const MinInt64: int := -0x8000_0000_0000_0000
  const MaxInt64: int := 0x7FFF_FFFF_FFFF_FFFF

  /** Go's `int64`. */
  newtype int64 = x: int | -0x8000_0000_0000_0000 <= x < 0x8000_0000_0000_0000

  /** The two's-complement wrap-around of Go's `int64` arithmetic. */
  function Wrap64(x: int): (r: int64)
    ensures (r as int - x) % Int64Modulus == 0
    ensures MinInt64 <= x <= MaxInt64 ==> r as int == x
  {
    ((x - MinInt64) % Int64Modulus + MinInt64) as int64
  }
}
