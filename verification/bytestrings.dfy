/** Go strings are byte strings: every text value of the handler is a sequence of bytes. */
module ByteStrings {

  type byte = x: int | 0 <= x < 256

  type Bytes = seq<byte>

  const LINE_FEED: byte := 10
  const CARRIAGE_RETURN: byte := 13
  const SLASH: byte := 47
  const COLON: byte := 58
  const BACKSLASH: byte := 92
  const LOWER_N: byte := 110

  /** The bytes of a literal, one byte per character (every literal used here is ASCII). */
  function Str(s: string): (r: Bytes)
    ensures |r| == |s|
    ensures forall i :: 0 <= i < |s| ==> r[i] == s[i] as int % 256
  {
    seq(|s|, i requires 0 <= i < |s| => s[i] as int % 256)
  }

  /** How many times the byte b occurs in s. */
  function Count(s: Bytes, b: byte): (n: nat)
    ensures n <= |s|
    ensures n == 0 <==> b !in s
  {
    if s == [] then 0 else (if s[0] == b then 1 else 0) + Count(s[1..], b)
  }
}
