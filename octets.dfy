/** Bytes, as Go's `[]byte` and `string` hold them. */
module Octets {

  newtype byte = x: int | 0 <= x < 256

  type Bytes = seq<byte>

  /** `make([]byte, n)`: n zero bytes. */
  function Zeros(n: nat): (r: Bytes)
    ensures |r| == n
    ensures forall i :: 0 <= i < n ==> r[i] == 0
  {
    seq(n, _ => 0)
  }

  predicate IsAscii(s: string) {
    forall i :: 0 <= i < |s| ==> s[i] as int < 128
  }

  /** `[]byte(s)` for a string literal made of ASCII characters (its UTF-8 bytes). */
  function AsciiBytes(s: string): (r: Bytes)
    requires IsAscii(s)
    ensures |r| == |s|
    ensures forall i :: 0 <= i < |s| ==> r[i] as int == s[i] as int
  {
    seq(|s|, i requires 0 <= i < |s| => s[i] as int as byte)
  }
}
