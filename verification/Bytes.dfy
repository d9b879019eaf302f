/** Bytes and fixed-width integers on the wire. */
module Bytes {
  type byte = b: int | 0 <= b < 256

  predicate IsAscii(bs: seq<byte>) { forall i :: 0 <= i < |bs| ==> bs[i] < 128 }

  function AsChars(bs: seq<byte>): (s: string)
    requires IsAscii(bs)
    ensures |s| == |bs|
  {
    seq(|bs|, i requires 0 <= i < |bs| => bs[i] as char)
  }

  predicate IsAsciiText(s: string) { forall i :: 0 <= i < |s| ==> s[i] < 128 as char }

  function AsBytes(s: string): (bs: seq<byte>)
    requires IsAsciiText(s)
    ensures |bs| == |s| && IsAscii(bs)
  {
    seq(|s|, i requires 0 <= i < |s| => s[i] as int)
  }
}
