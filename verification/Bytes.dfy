/** Bytes, windows of byte sequences and how a copy changes them. */
module Bytes {

  newtype byte = x: int | 0 <= x < 0x100

  datatype Option<+T> = None | Some(value: T)

  function Min(a: nat, b: nat): nat {
    if a <= b then a else b
  }

  /** The `n` bytes of `s` from `at`, or nothing when they are not all there. */
  function Slice(s: seq<byte>, at: nat, n: nat): seq<byte> {
    if at + n <= |s| then s[at..at + n] else []
  }

  /** `s` with `bytes` laid over it from `at`; what falls outside `s` is lost. */
  function Patch(s: seq<byte>, at: nat, bytes: seq<byte>): (r: seq<byte>)
    ensures |r| == |s|
  {
    seq(|s|, k requires 0 <= k < |s| => if at <= k < at + |bytes| then bytes[k - at] else s[k])
  }
}
