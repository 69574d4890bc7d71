/** Octets, and the smaller and the larger of two. */
module Numbers {
  /** An octet. */
  type byte = x: int | 0 <= x < 256

  function Min(x: nat, y: nat): (m: nat)
  {
    if x <= y then x else y
  }

  function Max(x: nat, y: nat): (m: nat)
  {
    if x <= y then y else x
  }
}
