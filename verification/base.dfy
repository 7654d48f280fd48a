/**
 Shared vocabulary of the card-handling model: bytes, an optional value,
 and sequence reversal (the `[::-1]` slice the ISO 14443-A record uses for ATQA).
 */
module Base {

  /** One octet, as Python's `bytes` / `bytearray` elements are. */
  type byte = b: int | 0 <= b < 256

  /** A value that may be missing; `None` also stands for a Python exception
      (`KeyError`, `ValueError`) that ends the computation. */
  datatype Option<+T> = None | Some(value: T)

  /** The sequence read back to front. */
  function Reverse<T>(s: seq<T>): (r: seq<T>)
    ensures |r| == |s|
    ensures forall i :: 0 <= i < |s| ==> r[i] == s[|s| - 1 - i]
  {
    if |s| == 0 then [] else Reverse(s[1..]) + [s[0]]
  }
}
