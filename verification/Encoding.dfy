/** Byte encodings: hexadecimal, base64url without padding (section 5 of RFC 4648), and
    big-endian unsigned integers (section 6.3.1 of RFC 7518). */
module Encoding {
  import opened GoStrings

  type Byte = x: int | 0 <= x < 256
  type Bytes = seq<Byte>

  // ---------- hexadecimal ----------

  function HexDigit(v: int): (c: char)
    requires 0 <= v < 16
  {
    if v < 10 then (48 + v) as char else (87 + v) as char
  }

  /** `hex.EncodeToString`. */
  function Hex(b: Bytes): (s: string)
    ensures |s| == 2 * |b|
    ensures SpaceFree(s)
  {
    if b == [] then "" else [HexDigit(b[0] / 16), HexDigit(b[0] % 16)] + Hex(b[1..])
  }

  const HEX_DIGITS := "0123456789abcdef"

  /** Each byte is two lower-case digits, the high one first. */
  lemma {:induction false} HexAt(b: Bytes, i: nat)
    requires i < |b|
    ensures Hex(b)[2 * i] == HEX_DIGITS[b[i] / 16] && Hex(b)[2 * i + 1] == HEX_DIGITS[b[i] % 16]
  {
    if i > 0 {
      HexAt(b[1..], i - 1);
      assert Hex(b)[2..] == Hex(b[1..]);
    } else {
      HexDigitIs(b[0] / 16);
      HexDigitIs(b[0] % 16);
    }
  }

  lemma HexDigitIs(v: int)
    requires 0 <= v < 16
    ensures HexDigit(v) == HEX_DIGITS[v]
  {
  }

  lemma {:induction false} HexInjective(a: Bytes, b: Bytes)
    requires Hex(a) == Hex(b)
    ensures a == b
  {
    assert |a| == |b|;
    if a != [] {
      var x, y := Hex(a), Hex(b);
      assert x[0] == HexDigit(a[0] / 16) && x[1] == HexDigit(a[0] % 16) && x[2..] == Hex(a[1..]);
      assert y[0] == HexDigit(b[0] / 16) && y[1] == HexDigit(b[0] % 16) && y[2..] == Hex(b[1..]);
      HexInjective(a[1..], b[1..]);
      assert a == [a[0]] + a[1..] && b == [b[0]] + b[1..];
    }
  }

  // ---------- base64url ----------

  type Sextet = x: int | 0 <= x < 64

  function Base64Char(v: Sextet): (c: char)
    ensures !IsSpace(c)
  {
    if v < 26 then (65 + v) as char
    else if v < 52 then (97 + v - 26) as char
    else if v < 62 then (48 + v - 52) as char
    else if v == 62 then '-'
    else '_'
  }

  /** Table 2 of RFC 4648: three runs of consecutive characters, then the minus and the underline. */
  lemma {:induction false} Base64Alphabet(v: Sextet)
    ensures Base64Char(0) == 'A' && Base64Char(25) == 'Z' && Base64Char(26) == 'a' && Base64Char(51) == 'z'
    ensures Base64Char(52) == '0' && Base64Char(61) == '9' && Base64Char(62) == '-' && Base64Char(63) == '_'
    ensures v < 61 && v != 25 && v != 51 ==> Base64Char(v + 1) as int == Base64Char(v) as int + 1
  {
  }

  predicate IsBase64URL(c: char) {
    'A' <= c <= 'Z' || 'a' <= c <= 'z' || '0' <= c <= '9' || c == '-' || c == '_'
  }

  function Base64Value(c: char): Option<Sextet> {
    if 'A' <= c <= 'Z' then Some(c as int - 65)
    else if 'a' <= c <= 'z' then Some(c as int - 97 + 26)
    else if '0' <= c <= '9' then Some(c as int - 48 + 52)
    else if c == '-' then Some(62)
    else if c == '_' then Some(63)
    else None
  }

  function ToSextets(b: Bytes): (v: seq<Sextet>)
    decreases |b|
    ensures |v| == (4 * |b| + 2) / 3
  {
    if |b| == 0 then []
    else if |b| == 1 then [b[0] / 4, b[0] % 4 * 16]
    else if |b| == 2 then [b[0] / 4, b[0] % 4 * 16 + b[1] / 16, b[1] % 16 * 4]
    else
      [b[0] / 4, b[0] % 4 * 16 + b[1] / 16, b[1] % 16 * 4 + b[2] / 64, b[2] % 64] + ToSextets(b[3..])
  }

  function FirstByte(a: int, b: int): Byte
    requires 0 <= a < 64 && 0 <= b < 64
  {
    a * 4 + b / 16
  }

  function SecondByte(b: int, c: int): Byte
    requires 0 <= b < 64 && 0 <= c < 64
  {
    b % 16 * 16 + c / 4
  }

  function ThirdByte(c: int, d: int): Byte
    requires 0 <= c < 64 && 0 <= d < 64
  {
    c % 4 * 64 + d
  }

  /** A single leftover character is an error; leftover low bits are dropped. */
  function FromSextets(v: seq<Sextet>): Option<Bytes>
    decreases |v|
  {
    if |v| == 0 then Some([])
    else if |v| == 1 then None
    else if |v| == 2 then Some([FirstByte(v[0], v[1])])
    else if |v| == 3 then Some([FirstByte(v[0], v[1]), SecondByte(v[1], v[2])])
    else
      match FromSextets(v[4..])
      case None => None
      case Some(rest) =>
        Some([FirstByte(v[0], v[1]), SecondByte(v[1], v[2]), ThirdByte(v[2], v[3])] + rest)
  }

  /** `base64.RawURLEncoding.EncodeToString`. */
  function Base64Encode(b: Bytes): (s: string)
    ensures |s| == (4 * |b| + 2) / 3
    ensures SpaceFree(s)
  {
    var v := ToSextets(b);
    seq(|v|, i requires 0 <= i < |v| => Base64Char(v[i]))
  }

  /** The decoder skips line breaks wherever they stand. */
  function DropLineBreaks(s: string): string {
    if s == "" then ""
    else (if s[0] == '\r' || s[0] == '\n' then "" else [s[0]]) + DropLineBreaks(s[1..])
  }

  function SextetsOf(s: string): Option<seq<Sextet>> {
    if s == "" then Some([])
    else
      match (Base64Value(s[0]), SextetsOf(s[1..]))
      case (Some(v), Some(rest)) => Some([v] + rest)
      case _ => None
  }

  /** `base64.RawURLEncoding.DecodeString`. */
  function Base64Decode(s: string): Option<Bytes> {
    match SextetsOf(DropLineBreaks(s))
    case None => None
    case Some(v) => FromSextets(v)
  }

  lemma GroupRoundTrip(x: int, y: int, z: int)
    requires 0 <= x < 256 && 0 <= y < 256 && 0 <= z < 256
    ensures FirstByte(x / 4, x % 4 * 16 + y / 16) == x
    ensures SecondByte(x % 4 * 16 + y / 16, y % 16 * 4 + z / 64) == y
    ensures ThirdByte(y % 16 * 4 + z / 64, z % 64) == z
  {
  }

  lemma OneByteRoundTrip(x: Byte)
    ensures FromSextets(ToSextets([x])) == Some([x])
  {
    GroupRoundTrip(x, 0, 0);
    assert ToSextets([x]) == [x / 4, x % 4 * 16];
  }

  lemma DecodeThree(v: seq<Sextet>)
    requires |v| == 3
    ensures FromSextets(v) == Some([FirstByte(v[0], v[1]), SecondByte(v[1], v[2])])
  {
  }

  lemma EncodeTwo(x: Byte, y: Byte)
    ensures ToSextets([x, y]) == [x / 4, x % 4 * 16 + y / 16, y % 16 * 4]
  {
  }

  lemma TwoByteRoundTrip(x: Byte, y: Byte)
    ensures FromSextets(ToSextets([x, y])) == Some([x, y])
  {
    EncodeTwo(x, y);
    var v := ToSextets([x, y]);
    DecodeThree(v);
    assert FirstByte(v[0], v[1]) == x && SecondByte(v[1], v[2]) == y by { GroupRoundTrip(x, y, 0); }
  }

  lemma EncodeGroup(b: Bytes)
    requires |b| >= 3
    ensures var v := ToSextets(b);
      && |v| >= 4 && v[4..] == ToSextets(b[3..])
      && v[0] == b[0] / 4 && v[1] == b[0] % 4 * 16 + b[1] / 16
      && v[2] == b[1] % 16 * 4 + b[2] / 64 && v[3] == b[2] % 64
  {
  }

  lemma EncodedGroupDecodes(b: Bytes)
    requires |b| >= 3
    ensures var v := ToSextets(b);
      && |v| >= 4 && v[4..] == ToSextets(b[3..])
      && FirstByte(v[0], v[1]) == b[0] && SecondByte(v[1], v[2]) == b[1] && ThirdByte(v[2], v[3]) == b[2]
  {
    EncodeGroup(b);
    GroupRoundTrip(b[0], b[1], b[2]);
  }

  lemma DecodeGroup(v: seq<Sextet>, rest: Bytes)
    requires |v| >= 4 && FromSextets(v[4..]) == Some(rest)
    ensures FromSextets(v) == Some([FirstByte(v[0], v[1]), SecondByte(v[1], v[2]), ThirdByte(v[2], v[3])] + rest)
  {
  }

  lemma GroupDecodes(v: seq<Sextet>, b: Bytes)
    requires |v| >= 4 && |b| >= 3 && FromSextets(v[4..]) == Some(b[3..])
    requires FirstByte(v[0], v[1]) == b[0] && SecondByte(v[1], v[2]) == b[1] && ThirdByte(v[2], v[3]) == b[2]
    ensures FromSextets(v) == Some(b)
  {
    DecodeGroup(v, b[3..]);
    assert b == [b[0], b[1], b[2]] + b[3..];
  }

  lemma {:induction false} SextetsRoundTrip(b: Bytes)
    ensures FromSextets(ToSextets(b)) == Some(b)
    decreases |b|
  {
    if |b| == 1 {
      assert b == [b[0]];
      OneByteRoundTrip(b[0]);
    } else if |b| == 2 {
      assert b == [b[0], b[1]];
      TwoByteRoundTrip(b[0], b[1]);
    } else if |b| >= 3 {
      SextetsRoundTrip(b[3..]);
      EncodedGroupDecodes(b);
      GroupDecodes(ToSextets(b), b);
    }
  }

  lemma {:induction false} DropLineBreaksKeeps(s: string)
    requires SpaceFree(s)
    ensures DropLineBreaks(s) == s
  {
    if s != "" {
      DropLineBreaksKeeps(s[1..]);
      assert !IsSpace(s[0]);
    }
  }

  lemma {:induction false} SextetsOfChars(v: seq<Sextet>, s: string)
    requires |s| == |v| && forall i :: 0 <= i < |v| ==> s[i] == Base64Char(v[i])
    ensures SextetsOf(s) == Some(v)
  {
    if v != [] {
      SextetsOfChars(v[1..], s[1..]);
      assert Base64Value(s[0]) == Some(v[0]);
      assert v == [v[0]] + v[1..];
    }
  }

  lemma EncodesInAlphabet(b: Bytes)
    ensures forall i :: 0 <= i < |Base64Encode(b)| ==> IsBase64URL(Base64Encode(b)[i])
  {
    var v := ToSextets(b);
    forall i | 0 <= i < |v| ensures IsBase64URL(Base64Encode(b)[i]) {
      assert Base64Encode(b)[i] == Base64Char(v[i]);
    }
  }

  /** Decoding undoes encoding, for every length modulo three. */
  lemma {:induction false} Base64RoundTrip(b: Bytes)
    ensures Base64Decode(Base64Encode(b)) == Some(b)
  {
    DropLineBreaksKeeps(Base64Encode(b));
    SextetsOfChars(ToSextets(b), Base64Encode(b));
    SextetsRoundTrip(b);
  }

  lemma {:induction false} SextetsIff(s: string)
    ensures SextetsOf(s).Some? <==> forall i :: 0 <= i < |s| ==> IsBase64URL(s[i])
    ensures SextetsOf(s).Some? ==> |SextetsOf(s).value| == |s|
  {
    if s != "" {
      SextetsIff(s[1..]);
      Base64ValueIff(s[0]);
      assert s == [s[0]] + s[1..];
    }
  }

  lemma Base64ValueIff(c: char)
    ensures Base64Value(c).Some? <==> IsBase64URL(c)
  {
  }

  lemma GroupDecodesIff(v: seq<Sextet>)
    requires |v| >= 4
    ensures FromSextets(v).Some? <==> FromSextets(v[4..]).Some?
  {
  }

  lemma ShortDecodesIff(v: seq<Sextet>)
    requires |v| < 4
    ensures FromSextets(v).Some? <==> |v| != 1
  {
  }

  lemma {:induction false} FromSextetsIff(v: seq<Sextet>)
    ensures FromSextets(v).Some? <==> |v| % 4 != 1
    decreases |v|
  {
    if |v| >= 4 {
      var rest := v[4..];
      FromSextetsIff(rest);
      GroupDecodesIff(v);
      assert |v| % 4 == |rest| % 4;
    } else {
      ShortDecodesIff(v);
    }
  }

  lemma {:induction false} DropLineBreaksIgnores(pre: string, c: char, post: string)
    requires c == '\r' || c == '\n'
    ensures DropLineBreaks(pre + [c] + post) == DropLineBreaks(pre + post)
  {
    if pre == "" {
      assert pre + [c] + post == [c] + post && pre + post == post;
    } else {
      DropLineBreaksIgnores(pre[1..], c, post);
      assert (pre + [c] + post)[1..] == pre[1..] + [c] + post;
      assert (pre + post)[1..] == pre[1..] + post;
    }
  }

  /** Which texts can be decoded at all: line breaks aside, only letters of the alphabet may occur,
      and their number may not be one more than a multiple of four. */
  lemma {:induction false} Base64DecodesIff(s: string)
    requires '\r' !in s && '\n' !in s
    ensures Base64Decode(s).Some? <==> (forall i :: 0 <= i < |s| ==> IsBase64URL(s[i])) && |s| % 4 != 1
  {
    NoLineBreaks(s);
    SextetsIff(s);
    if SextetsOf(s).Some? { FromSextetsIff(SextetsOf(s).value); }
  }

  lemma {:induction false} NoLineBreaks(s: string)
    requires '\r' !in s && '\n' !in s
    ensures DropLineBreaks(s) == s
  {
    if s != "" { NoLineBreaks(s[1..]); }
  }

  // ---------- big-endian integers ----------

  /** `big.Int.SetBytes`. */
  function BigEndianValue(b: Bytes): nat {
    if b == [] then 0 else BigEndianValue(b[..|b| - 1]) * 256 + b[|b| - 1]
  }

  /** `big.Int.Bytes`: no leading zero byte, and no byte at all for zero. */
  function BigEndianBytes(n: nat): (b: Bytes)
    ensures b == [] <==> n == 0
    ensures b != [] ==> b[0] != 0
  {
    if n == 0 then [] else BigEndianBytes(n / 256) + [n % 256]
  }

  lemma {:induction false} BigEndianRoundTrip(n: nat)
    ensures BigEndianValue(BigEndianBytes(n)) == n
  {
    if n != 0 {
      var b := BigEndianBytes(n);
      assert b[..|b| - 1] == BigEndianBytes(n / 256);
      BigEndianRoundTrip(n / 256);
    }
  }
}
