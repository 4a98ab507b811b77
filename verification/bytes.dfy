/** Octets, as sockets and C strings carry them. */
module Bytes {

  type Byte = x: nat | x < 256

  type Data = seq<Byte>

  function Min(a: nat, b: nat): nat { if a < b then a else b }

  function Max(a: int, b: int): int { if a > b then a else b }
}
