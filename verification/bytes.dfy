/**
 Bytes, and the conversion `[]byte(s)` of a Go string. A Go string is a
 sequence of bytes holding UTF-8; here it is a Dafny `string` of Unicode
 scalar values, and the bytes are its UTF-8 encoding.
 */
module Bytes {

  newtype byte = b: int | 0 <= b < 256

  /** The UTF-8 encoding of one code point: one to four bytes. */
  function EncodeRune(c: char): (r: seq<byte>)
    ensures 1 <= |r| <= 4
    ensures (c as int < 0x80) <==> |r| == 1
    ensures |r| == 1 ==> r[0] as int == c as int
    ensures |r| > 1 ==> r[0] >= 0xC0 && forall k :: 1 <= k < |r| ==> 0x80 <= r[k] < 0xC0
  {
    var n := c as int;
    if n < 0x80 then
      [n as byte]
    else if n < 0x800 then
      [(0xC0 + n / 0x40) as byte, (0x80 + n % 0x40) as byte]
    else if n < 0x1_0000 then
      [(0xE0 + n / 0x1000) as byte, (0x80 + n / 0x40 % 0x40) as byte, (0x80 + n % 0x40) as byte]
    else
      [(0xF0 + n / 0x4_0000) as byte, (0x80 + n / 0x1000 % 0x40) as byte,
       (0x80 + n / 0x40 % 0x40) as byte, (0x80 + n % 0x40) as byte]
  }

  /**
   `[]byte(s)`: the UTF-8 bytes of `s`. It is never shorter than `s`, and a
   string of ASCII characters is its own byte sequence.
   */
  function Utf8(s: string): (r: seq<byte>)
    ensures |r| >= |s|
    ensures (forall k :: 0 <= k < |s| ==> s[k] as int < 0x80) ==>
              |r| == |s| && forall k :: 0 <= k < |s| ==> r[k] as int == s[k] as int
  {
    if s == [] then [] else EncodeRune(s[0]) + Utf8(s[1..])
  }
}
