/** Small shared vocabulary: bytes, optional values and Python's slice. */
module Basics {

  /** One byte of the card file, as Python's `bytes` indexes it. */
  type Byte = b: int | 0 <= b < 0x100

  datatype Option<T> = None | Some(value: T)

  function Min(a: int, b: int): int { if a <= b then a else b }

  function Max(a: int, b: int): int { if a >= b then a else b }

  /** Python's `s[lo:hi]` for non-negative bounds: both bounds are clamped
      to the length of `s`, and the result is empty when `lo >= hi`. */
  function Slice<T>(s: seq<T>, lo: nat, hi: nat): (r: seq<T>)
    ensures |r| == Max(0, Min(hi, |s|) - lo)
    ensures forall k :: 0 <= k < |r| ==> lo + k < |s| && r[k] == s[lo + k]
  {
    var a := Min(lo, |s|);
    var b := Min(hi, |s|);
    if a < b then s[a..b] else []
  }
}
