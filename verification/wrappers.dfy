/** Result types shared by the whole model. */
module Wrappers {
  datatype Option<+T> = None | Some(value: T)

  /** The source's `Result<T, ()>`: its errors carry nothing. */
  datatype Result<+T> = Ok(value: T) | Err
}

/** Bytes and machine words. */
module Words {
  type byte = x: int | 0 <= x < 0x100

  const U32: nat := 0x1_0000_0000
  const U63: nat := 0x8000_0000_0000_0000
  const U64: nat := 0x1_0000_0000_0000_0000

  function Min(a: nat, b: nat): nat {
    if a <= b then a else b
  }

  function Zeros(n: nat): (z: seq<byte>)
    ensures |z| == n && forall i :: 0 <= i < n ==> z[i] == 0
  {
    seq(n, _ => 0)
  }
}
