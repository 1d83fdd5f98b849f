/**
 * The URL-safe Base64 encoder of java.util.Base64 (`Base64.getUrlEncoder()`),
 * the "base64url" alphabet of section 5 of RFC 4648, with '=' padding.
 */
module Base64Url {

  type byte = x: int | 0 <= x < 256

  /** The character for a 6-bit value: A-Z, a-z, 0-9, '-', '_'. */
  function AlphabetChar(i: int): (c: char)
    requires 0 <= i < 64
    ensures c != '+' && c != '/' && c != '='
  {
    if i < 26 then ('A' as int + i) as char
    else if i < 52 then ('a' as int + i - 26) as char
    else if i < 62 then ('0' as int + i - 52) as char
    else if i == 62 then '-'
    else '_'
  }

  /** Number of '=' characters that pad the encoding of `n` bytes. */
  function PaddingLength(n: nat): nat {
    (3 - n % 3) % 3
  }

  /** Three bytes become four characters. */
  function EncodeGroup(b0: byte, b1: byte, b2: byte): string {
    [AlphabetChar(b0 / 4),
     AlphabetChar((b0 % 4) * 16 + b1 / 16),
     AlphabetChar((b1 % 16) * 4 + b2 / 64),
     AlphabetChar(b2 % 64)]
  }

  /**
   * `Base64.getUrlEncoder().encode(bytes)` read as a string: four characters per
   * started group of three bytes; never '+' or '/'; '=' exactly in the padding at the end.
   */
  function Encode(b: seq<byte>): (s: string)
    ensures |s| == 4 * ((|b| + 2) / 3)
    ensures forall i | 0 <= i < |s| :: s[i] != '+' && s[i] != '/'
    ensures forall i | 0 <= i < |s| :: s[i] == '=' <==> i >= |s| - PaddingLength(|b|)
    decreases |b|
  {
    if |b| == 0 then []
    else if |b| == 1 then
      [AlphabetChar(b[0] / 4), AlphabetChar((b[0] % 4) * 16), '=', '=']
    else if |b| == 2 then
      [AlphabetChar(b[0] / 4), AlphabetChar((b[0] % 4) * 16 + b[1] / 16), AlphabetChar((b[1] % 16) * 4), '=']
    else
      var rest := Encode(b[3..]);
      assert PaddingLength(|b|) == PaddingLength(|b| - 3) <= |rest|;
      EncodeGroup(b[0], b[1], b[2]) + rest
  }
}
