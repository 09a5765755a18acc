/** The text encodings of Node's `Buffer` that the server relies on: UTF-8
    (`Buffer.from(s, "utf8")`, also what `writeFileSync` does with a string)
    and base64 with padding (`buf.toString("base64")`, the alphabet of
    section 4 of RFC 4648).

    The rest of the model takes the base64 encoder and decoder as parameters
    and relies only on `IsBase64TextEncoder`; `Base64OfText` below is one
    encoder that meets it. Node's lenient decoder is not written out. */
module Encoding {

  type uint8 = x: int | 0 <= x < 256

  /** The UTF-8 bytes of one Unicode scalar value. */
  function Utf8Char(c: char): (bs: seq<uint8>)
    ensures 1 <= |bs| <= 4
    ensures (|bs| == 1) == (c as int < 0x80)
  {
    var n := c as int;
    if n < 0x80 then [n]
    else if n < 0x800 then [0xC0 + n / 0x40, 0x80 + n % 0x40]
    else if n < 0x10000 then [0xE0 + n / 0x1000, 0x80 + (n / 0x40) % 0x40, 0x80 + n % 0x40]
    else [0xF0 + n / 0x40000, 0x80 + (n / 0x1000) % 0x40, 0x80 + (n / 0x40) % 0x40, 0x80 + n % 0x40]
  }

  /** `Buffer.from(s, "utf8")`. Only its length bounds are proved here; no
      decoder is written out to pair it with. */
  function Utf8Encode(s: string): (bs: seq<uint8>)
    ensures |s| <= |bs| <= 4 * |s|
  {
    if s == [] then [] else Utf8Char(s[0]) + Utf8Encode(s[1..])
  }

  /** The characters of the class `[A-Za-z0-9+/=]`: the base64 alphabet and
      its padding character. */
  predicate IsBase64Char(c: char) {
    'A' <= c <= 'Z' || 'a' <= c <= 'z' || '0' <= c <= '9' || c == '+' || c == '/' || c == '='
  }

  /** The base64 digit for a 6-bit value. */
  function Sextet(v: int): (c: char)
    requires 0 <= v < 64
    ensures IsBase64Char(c) && c != '='
  {
    if v < 26 then ('A' as int + v) as char
    else if v < 52 then ('a' as int + (v - 26)) as char
    else if v < 62 then ('0' as int + (v - 52)) as char
    else if v == 62 then '+'
    else '/'
  }

  /** Base64 with `=` padding: every 3 bytes become 4 digits, and a final
      group of 1 or 2 bytes becomes 2 or 3 digits padded to 4. Only its
      length and alphabet are proved, and no decoder is written out: it
      serves as a witness that an encoder meeting `IsBase64TextEncoder`
      exists. */
  function Base64Encode(b: seq<uint8>): (s: string)
    ensures |s| == 4 * ((|b| + 2) / 3)
    ensures forall i :: 0 <= i < |s| ==> IsBase64Char(s[i])
    decreases |b|
  {
    if |b| == 0 then ""
    else if |b| == 1 then
      [Sextet(b[0] / 4), Sextet((b[0] % 4) * 16), '=', '=']
    else if |b| == 2 then
      [Sextet(b[0] / 4), Sextet((b[0] % 4) * 16 + b[1] / 16), Sextet((b[1] % 16) * 4), '=']
    else
      var rest := Base64Encode(b[3..]);
      var s := Group(b[0], b[1], b[2]) + rest;
      assert forall i :: 4 <= i < |s| ==> s[i] == rest[i - 4];
      assert (|b| + 2) / 3 == (|b[3..]| + 2) / 3 + 1;
      s
  }

  /** Three bytes as four base64 digits. */
  function Group(b0: uint8, b1: uint8, b2: uint8): (q: string)
    ensures |q| == 4 && forall i :: 0 <= i < 4 ==> IsBase64Char(q[i])
  {
    [Sextet(b0 / 4), Sextet((b0 % 4) * 16 + b1 / 16), Sextet((b1 % 16) * 4 + b2 / 64), Sextet(b2 % 64)]
  }

  /** `Buffer.from(s, "utf8").toString("base64")`. */
  function Base64OfText(s: string): (e: string)
    ensures forall i :: 0 <= i < |e| ==> IsBase64Char(e[i])
    ensures (e == "") == (s == "")
  {
    Base64Encode(Utf8Encode(s))
  }

  /** What the model needs of `Buffer.from(s, "utf8").toString("base64")`:
      the empty text encodes to the empty text, and any other text to a
      non-empty run of base64 characters. */
  ghost predicate IsBase64TextEncoder(encode: string -> string) {
    encode("") == ""
    && forall s :: s != "" ==> encode(s) != "" && forall i :: 0 <= i < |encode(s)| ==> IsBase64Char(encode(s)[i])
  }

  /** The encoder written out above meets that requirement. */
  lemma Base64OfTextIsEncoder()
    ensures IsBase64TextEncoder(Base64OfText)
  {
    assert Base64OfText("") == "";
  }
}
