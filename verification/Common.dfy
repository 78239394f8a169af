/** Types shared by the other modules. */
module Common {
  datatype Option<+T> = None | Some(value: T)

  /** An unsigned octet, the source's u_char. */
  type Byte = b: int | 0 <= b < 256

  function Zeros(n: nat): (z: seq<Byte>)
    ensures |z| == n
  {
    seq(n, _ => 0)
  }

  /** A 16-bit number in network byte order; higher bits are cut off. */
  function WordBytes(n: nat): (bs: seq<Byte>)
    ensures |bs| == 2
  {
    [n / 256 % 256, n % 256]
  }

  function Min(a: int, b: int): int {
    if a < b then a else b
  }

  function Max(a: int, b: int): int {
    if a < b then b else a
  }
}
