/** Bytes, and ASCII text as bytes. */
module ContentBytes {
  type Byte = b: int | 0 <= b < 256
  type Bytes = seq<Byte>

  function Ascii(s: string): Bytes
    requires forall i :: 0 <= i < |s| ==> (s[i] as int) < 256
  {
    seq(|s|, i requires 0 <= i < |s| => s[i] as int)
  }
}
