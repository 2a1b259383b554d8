/** Bytes and UTF-8, as Foundation uses them for `Data` and
    `String(data:encoding: .utf8)`.  `char` is a Unicode scalar value. */
module Utf8 {
  import opened Wrappers

  type Byte = b: int | 0 <= b < 256

  /** Foundation's `Data`: a sequence of bytes. */
  type Bytes = seq<Byte>

  predicate IsContinuation(b: Byte) {
    0x80 <= b < 0xC0
  }

  /** The UTF-8 encoding of one scalar value (section 3 of RFC 3629). */
  function EncodeChar(c: char): (r: Bytes)
    ensures 1 <= |r| <= 4
  {
    var n := c as int;
    if n < 0x80 then [n]
    else if n < 0x800 then [0xC0 + n / 64, 0x80 + n % 64]
    else if n < 0x10000 then [0xE0 + n / 4096, 0x80 + (n / 64) % 64, 0x80 + n % 64]
    else [0xF0 + n / 262144, 0x80 + (n / 4096) % 64, 0x80 + (n / 64) % 64, 0x80 + n % 64]
  }

  /** `s.data(using: .utf8)`: the concatenated encodings of the scalars of `s`. */
  function Encode(s: string): Bytes
    decreases |s|
  {
    if s == [] then [] else EncodeChar(s[0]) + Encode(s[1..])
  }

  predicate IsScalar(n: int) {
    0 <= n < 0xD800 || 0xE000 <= n < 0x11_0000
  }

  /** The number of bytes of the sequence that the lead byte `b` starts, or 0 when `b` cannot start one. */
  function SequenceLength(b: Byte): (n: nat)
    ensures n <= 4
  {
    if b < 0x80 then 1
    else if 0xC2 <= b < 0xE0 then 2
    else if 0xE0 <= b < 0xF0 then 3
    else if 0xF0 <= b < 0xF5 then 4
    else 0
  }

  /** Decodes the one scalar that `bs` (of the length its lead byte announces) encodes,
      rejecting overlong forms, surrogates and values past U+10FFFF. */
  function DecodeScalar(bs: Bytes): (r: Option<char>)
    requires 1 <= |bs| <= 4 && |bs| == SequenceLength(bs[0])
  {
    if |bs| == 1 then Some(bs[0] as char)
    else if !(forall i :: 1 <= i < |bs| ==> IsContinuation(bs[i])) then None
    else
      var n: int :=
        if |bs| == 2 then (bs[0] as int - 0xC0) * 64 + (bs[1] as int - 0x80)
        else if |bs| == 3 then (bs[0] as int - 0xE0) * 4096 + (bs[1] as int - 0x80) * 64 + (bs[2] as int - 0x80)
        else (bs[0] as int - 0xF0) * 262144 + (bs[1] as int - 0x80) * 4096 + (bs[2] as int - 0x80) * 64 + (bs[3] as int - 0x80);
      var least: int := if |bs| == 2 then 0x80 else if |bs| == 3 then 0x800 else 0x10000;
      if least <= n && IsScalar(n) then Some(n as char) else None
  }

  /** `String(data: bytes, encoding: .utf8)`: the string the bytes encode, or `nil`
      when they are not well-formed UTF-8. */
  function Decode(bytes: Bytes): (r: Option<string>)
    ensures r.Some? ==> |r.value| <= |bytes|
    decreases |bytes|
  {
    if bytes == [] then Some([])
    else
      var n := SequenceLength(bytes[0]);
      if n == 0 || n > |bytes| then None
      else match DecodeScalar(bytes[..n])
        case None => None
        case Some(c) =>
          match Decode(bytes[n..])
          case None => None
          case Some(rest) => Some([c] + rest)
  }

  lemma EncodeTwo(c: char)
    requires 0x80 <= c as int < 0x800
    ensures SequenceLength(EncodeChar(c)[0]) == |EncodeChar(c)| == 2
    ensures DecodeScalar(EncodeChar(c)) == Some(c)
  {
    var n := c as int;
    var a, b := n / 64, n % 64;
    assert n == a * 64 + b;
    assert EncodeChar(c) == [0xC0 + a, 0x80 + b];
  }

  lemma EncodeThree(c: char)
    requires 0x800 <= c as int < 0x10000
    ensures SequenceLength(EncodeChar(c)[0]) == |EncodeChar(c)| == 3
    ensures DecodeScalar(EncodeChar(c)) == Some(c)
  {
    var n := c as int;
    var d := n % 64;
    var h := n / 64;
    var b := h % 64;
    var a := h / 64;
    assert n == h * 64 + d && h == a * 64 + b;
    assert n / 4096 == a by { assert n == a * 4096 + (b * 64 + d); }
    var e := EncodeChar(c);
    assert e == [0xE0 + a, 0x80 + b, 0x80 + d];
    assert (e[0] as int - 0xE0) * 4096 + (e[1] as int - 0x80) * 64 + (e[2] as int - 0x80) == n;
  }

  lemma EncodeFour(c: char)
    requires 0x10000 <= c as int
    ensures SequenceLength(EncodeChar(c)[0]) == |EncodeChar(c)| == 4
    ensures DecodeScalar(EncodeChar(c)) == Some(c)
  {
    var n := c as int;
    var f := n % 64;
    var h := n / 64;
    var d := h % 64;
    var g := h / 64;
    var b := g % 64;
    var a := g / 64;
    assert n == h * 64 + f && h == g * 64 + d && g == a * 64 + b;
    assert n / 4096 == g by { assert n == g * 4096 + (d * 64 + f); }
    assert n / 262144 == a by { assert n == a * 262144 + (b * 4096 + d * 64 + f); }
    var e := EncodeChar(c);
    assert e == [0xF0 + a, 0x80 + b, 0x80 + d, 0x80 + f];
    assert (e[0] as int - 0xF0) * 262144 + (e[1] as int - 0x80) * 4096 + (e[2] as int - 0x80) * 64 + (e[3] as int - 0x80) == n;
  }

  lemma EncodeCharShape(c: char)
    ensures SequenceLength(EncodeChar(c)[0]) == |EncodeChar(c)|
    ensures DecodeScalar(EncodeChar(c)) == Some(c)
  {
    var n := c as int;
    if n < 0x80 {
    } else if n < 0x800 {
      EncodeTwo(c);
    } else if n < 0x10000 {
      EncodeThree(c);
    } else {
      EncodeFour(c);
    }
  }

  /** Decoding the UTF-8 encoding of a string gives the string back. */
  lemma {:induction false} DecodeEncode(s: string)
    ensures Decode(Encode(s)) == Some(s)
    decreases |s|
  {
    if s != [] {
      var e := EncodeChar(s[0]);
      EncodeCharShape(s[0]);
      DecodeEncode(s[1..]);
      var bytes := Encode(s);
      assert bytes == e + Encode(s[1..]);
      assert bytes[..|e|] == e;
      assert bytes[|e|..] == Encode(s[1..]);
      assert [s[0]] + s[1..] == s;
    }
  }
}
