/** Base64 with the standard alphabet and padding (section 4 of RFC 4648), as
    Foundation's `Data.base64EncodedString()` writes it and `Data(base64Encoded:)`
    reads it with its default options (no character outside the alphabet is skipped). */
module Base64 {
  import opened Wrappers
  import opened Utf8

  /** The character for a 6-bit value: A-Z, a-z, 0-9, '+', '/'. */
  function Char64(i: int): (c: char)
    requires 0 <= i < 64
    ensures c != '='
  {
    if i < 26 then (65 + i) as char
    else if i < 52 then (97 + i - 26) as char
    else if i < 62 then (48 + i - 52) as char
    else if i == 62 then '+'
    else '/'
  }

  /** The 6-bit value of an alphabet character, or `None` for any other character. */
  function Index64(c: char): (r: Option<int>)
    ensures r.Some? ==> 0 <= r.value < 64
  {
    if 'A' <= c <= 'Z' then Some(c as int - 65)
    else if 'a' <= c <= 'z' then Some(c as int - 97 + 26)
    else if '0' <= c <= '9' then Some(c as int - 48 + 52)
    else if c == '+' then Some(62)
    else if c == '/' then Some(63)
    else None
  }

  lemma IndexOfChar(i: int)
    requires 0 <= i < 64
    ensures Index64(Char64(i)) == Some(i)
  {
  }

  /** The colon is not an alphabet character. */
  lemma ColonOutsideAlphabet()
    ensures Index64(':') == None
  {
  }

  /** `Data.base64EncodedString()`: four characters per three bytes, the last group padded with '='. */
  function Encode(b: Bytes): (r: string)
    ensures |b| > 0 <==> |r| >= 4
    ensures |r| == 4 * ((|b| + 2) / 3)
    decreases |b|
  {
    if |b| == 0 then ""
    else if |b| == 1 then [Char64(b[0] / 4), Char64(b[0] % 4 * 16), '=', '=']
    else if |b| == 2 then
      [Char64(b[0] / 4), Char64(b[0] % 4 * 16 + b[1] / 16), Char64(b[1] % 16 * 4), '=']
    else
      [Char64(b[0] / 4), Char64(b[0] % 4 * 16 + b[1] / 16), Char64(b[1] % 16 * 4 + b[2] / 64), Char64(b[2] % 64)]
      + Encode(b[3..])
  }

  /** Decodes a group of four alphabet characters into three bytes. */
  function DecodeFull(q: string): (r: Option<Bytes>)
    requires |q| == 4
  {
    match (Index64(q[0]), Index64(q[1]), Index64(q[2]), Index64(q[3]))
    case (Some(i0), Some(i1), Some(i2), Some(i3)) =>
      Some([i0 * 4 + i1 / 16, i1 % 16 * 16 + i2 / 4, i2 % 4 * 64 + i3])
    case _ => None
  }

  /** Decodes the last group of four characters, which may end in one or two '='. */
  function DecodeLast(q: string): (r: Option<Bytes>)
    requires |q| == 4
  {
    if q[2] == '=' && q[3] == '=' then
      match (Index64(q[0]), Index64(q[1]))
      case (Some(i0), Some(i1)) => Some([i0 * 4 + i1 / 16])
      case _ => None
    else if q[3] == '=' then
      match (Index64(q[0]), Index64(q[1]), Index64(q[2]))
      case (Some(i0), Some(i1), Some(i2)) => Some([i0 * 4 + i1 / 16, i1 % 16 * 16 + i2 / 4])
      case _ => None
    else DecodeFull(q)
  }

  /** `Data(base64Encoded: s)`: the bytes `s` encodes, or `nil` when its length is not a
      multiple of four or it holds a character outside the alphabet (padding aside). */
  function Decode(s: string): (r: Option<Bytes>)
    ensures r.Some? ==> |s| % 4 == 0 && |r.value| <= |s| / 4 * 3
    decreases |s|
  {
    if |s| == 0 then Some([])
    else if |s| < 4 then None
    else if |s| == 4 then DecodeLast(s)
    else match DecodeFull(s[..4])
      case None => None
      case Some(head) =>
        match Decode(s[4..])
        case None => None
        case Some(tail) => Some(head + tail)
  }

  lemma LastOne(q: string, i0: int, i1: int)
    requires |q| == 4 && q[2] == '=' && q[3] == '='
    requires Index64(q[0]) == Some(i0) && Index64(q[1]) == Some(i1)
    ensures Decode(q) == Some([i0 * 4 + i1 / 16])
  {
  }

  lemma LastTwo(q: string, i0: int, i1: int, i2: int)
    requires |q| == 4 && q[2] != '=' && q[3] == '='
    requires Index64(q[0]) == Some(i0) && Index64(q[1]) == Some(i1) && Index64(q[2]) == Some(i2)
    ensures Decode(q) == Some([i0 * 4 + i1 / 16, i1 % 16 * 16 + i2 / 4])
  {
  }

  lemma Full(q: string, i0: int, i1: int, i2: int, i3: int)
    requires |q| == 4
    requires Index64(q[0]) == Some(i0) && Index64(q[1]) == Some(i1)
    requires Index64(q[2]) == Some(i2) && Index64(q[3]) == Some(i3)
    ensures DecodeFull(q) == Some([i0 * 4 + i1 / 16, i1 % 16 * 16 + i2 / 4, i2 % 4 * 64 + i3])
    ensures DecodeLast(q) == DecodeFull(q)
  {
  }

  lemma FullGroup(b0: Byte, b1: Byte, b2: Byte)
    ensures DecodeFull([Char64(b0 / 4), Char64(b0 % 4 * 16 + b1 / 16), Char64(b1 % 16 * 4 + b2 / 64), Char64(b2 % 64)])
         == Some([b0, b1, b2])
    ensures DecodeLast([Char64(b0 / 4), Char64(b0 % 4 * 16 + b1 / 16), Char64(b1 % 16 * 4 + b2 / 64), Char64(b2 % 64)])
         == Some([b0, b1, b2])
  {
    var i0, i1, i2, i3 := b0 / 4, b0 % 4 * 16 + b1 / 16, b1 % 16 * 4 + b2 / 64, b2 % 64;
    IndexOfChar(i0);
    IndexOfChar(i1);
    IndexOfChar(i2);
    IndexOfChar(i3);
    Full([Char64(i0), Char64(i1), Char64(i2), Char64(i3)], i0, i1, i2, i3);
    assert i1 / 16 == b0 % 4 && i1 % 16 == b1 / 16;
    assert i2 / 4 == b1 % 16 && i2 % 4 == b2 / 64;
  }

  lemma OneByte(b: Bytes)
    requires |b| == 1
    ensures Decode(Encode(b)) == Some(b)
  {
    var i0, i1 := b[0] / 4, b[0] % 4 * 16;
    IndexOfChar(i0);
    IndexOfChar(i1);
    var q := Encode(b);
    assert q == [Char64(i0), Char64(i1), '=', '='];
    LastOne(q, i0, i1);
    assert i1 / 16 == b[0] % 4;
    assert [i0 * 4 + i1 / 16] == b;
  }

  /** The arithmetic of a two-byte group: the 6-bit values recombine into the bytes. */
  lemma TwoByteValues(b0: Byte, b1: Byte)
    ensures (b0 / 4) * 4 + (b0 % 4 * 16 + b1 / 16) / 16 == b0
    ensures (b0 % 4 * 16 + b1 / 16) % 16 * 16 + (b1 % 16 * 4) / 4 == b1
  {
    var i1 := b0 % 4 * 16 + b1 / 16;
    assert i1 / 16 == b0 % 4 && i1 % 16 == b1 / 16;
  }

  lemma TwoBytes(b: Bytes)
    requires |b| == 2
    ensures Decode(Encode(b)) == Some(b)
  {
    var i0, i1, i2 := b[0] / 4, b[0] % 4 * 16 + b[1] / 16, b[1] % 16 * 4;
    IndexOfChar(i0);
    IndexOfChar(i1);
    IndexOfChar(i2);
    var q := Encode(b);
    assert q == [Char64(i0), Char64(i1), Char64(i2), '='];
    LastTwo(q, i0, i1, i2);
    TwoByteValues(b[0], b[1]);
    assert i0 * 4 + i1 / 16 == b[0] && i1 % 16 * 16 + i2 / 4 == b[1];
    assert [i0 * 4 + i1 / 16, i1 % 16 * 16 + i2 / 4] == [b[0], b[1]] == b;
  }

  lemma ThreeBytes(b: Bytes)
    requires |b| == 3
    ensures |Encode(b)| == 4
    ensures DecodeFull(Encode(b)) == Some(b) && DecodeLast(Encode(b)) == Some(b)
  {
    var q := [Char64(b[0] / 4), Char64(b[0] % 4 * 16 + b[1] / 16), Char64(b[1] % 16 * 4 + b[2] / 64), Char64(b[2] % 64)];
    FullGroup(b[0], b[1], b[2]);
    assert b[3..] == [];
    assert Encode(b) == q + Encode(b[3..]);
    assert Encode(b) == q;
    assert b == [b[0], b[1], b[2]];
  }

  lemma EncodeSplit(b: Bytes)
    requires |b| > 3
    ensures Encode(b) == Encode(b[..3]) + Encode(b[3..])
  {
    assert b[..3][3..] == [];
    assert b[..3][0] == b[0] && b[..3][1] == b[1] && b[..3][2] == b[2];
  }

  lemma DecodeCons(q: string, rest: string)
    requires |q| == 4 && |rest| > 0 && DecodeFull(q).Some? && Decode(rest).Some?
    ensures Decode(q + rest) == Some(DecodeFull(q).value + Decode(rest).value)
  {
    var s := q + rest;
    assert s[..4] == q;
    assert s[4..] == rest;
  }

  /** Decoding the encoding of any bytes gives the bytes back. */
  lemma {:induction false} DecodeEncode(b: Bytes)
    ensures Decode(Encode(b)) == Some(b)
    decreases |b|
  {
    if |b| == 1 {
      OneByte(b);
    } else if |b| == 2 {
      TwoBytes(b);
    } else if |b| == 3 {
      ThreeBytes(b);
    } else if |b| > 3 {
      EncodeSplit(b);
      ThreeBytes(b[..3]);
      DecodeEncode(b[3..]);
      DecodeCons(Encode(b[..3]), Encode(b[3..]));
      assert b[..3] + b[3..] == b;
    }
  }

  /** A string that holds a colon anywhere is rejected by the decoder. */
  lemma {:induction false} ColonIsRejected(s: string)
    requires ':' in s
    ensures Decode(s) == None
    decreases |s|
  {
    ColonOutsideAlphabet();
    if |s| > 4 {
      if ':' !in s[..4] {
        assert s == s[..4] + s[4..];
        ColonIsRejected(s[4..]);
      }
    }
  }
}
