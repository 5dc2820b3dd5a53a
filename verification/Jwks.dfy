/** The RSA public key on the wire: the authorization server prints it (`JWKS`), the resource
    server parses it (`parseRSAPublicKeyFromJWK`). Section 6.3.1 of RFC 7518. */
module Jwks {
  import opened GoStrings
  import opened Encoding

  const TWO_63: int := 0x8000_0000_0000_0000
  const TWO_64: int := 0x1_0000_0000_0000_0000

  /** A Go `int` on a 64-bit platform. */
  type Int64 = x: int | -TWO_63 <= x < TWO_63

  /** `rsa.PublicKey`. */
  datatype PublicKey = PublicKey(n: nat, e: Int64)

  /** The fields of a JWK that the resource server reads. */
  datatype Jwk = Jwk(kty: string, kid: string, n: string, e: string)

  /** The 64-bit two's complement reading of `x`. */
  function Wrap64(x: int): (r: Int64)
    ensures (x - r) % TWO_64 == 0
  {
    var m := x % TWO_64;
    if m < TWO_63 then m else m - TWO_64
  }

  /** A number in big-endian bytes, in base64url. */
  function NumberText(x: nat): string {
    Base64Encode(BigEndianBytes(x))
  }

  /** `JWTSigner.JWKS`, of a signer that holds a public key or none. */
  function PublishedKeys(key: Option<PublicKey>, keyID: string): seq<Jwk> {
    match key
    case None => []
    case Some(k) =>
      [Jwk("RSA", keyID, NumberText(k.n), NumberText(Magnitude(k.e)))]
  }

  /** What a pair of base64url texts denotes: the modulus in full, the exponent in 64 bits. */
  function DenotedKey(nStr: string, eStr: string): Option<PublicKey> {
    match (Base64Decode(nStr), Base64Decode(eStr))
    case (Some(nBytes), Some(eBytes)) =>
      Some(PublicKey(BigEndianValue(nBytes), Wrap64(BigEndianValue(eBytes))))
    case _ => None
  }

  lemma WrapLoses(x: int) returns (k: int)
    ensures x == Wrap64(x) + k * 0x1_0000_0000_0000_0000
  {
    k := if x % TWO_64 < TWO_63 then x / TWO_64 else x / TWO_64 + 1;
  }

  lemma WrapsTo(x: int, k: int, r: Int64)
    requires x == r + k * 0x1_0000_0000_0000_0000
    ensures Wrap64(x) == r
  {
    var j := WrapLoses(x);
    var q: int := Wrap64(x);
    assert q - r == (k - j) * 0x1_0000_0000_0000_0000;
    assert k == j;
  }

  /** A multiple of 256 leaves room for a byte. */
  lemma LowByteIsFree(w: int, j: int, s: Int64, b: Byte)
    requires w * 256 == s + j * 0x1_0000_0000_0000_0000
    ensures -TWO_63 <= s + b < TWO_63
  {
    var m := w - j * 0x100_0000_0000_0000;
    assert s == 256 * m;
  }

  /** Shifting a byte into a wrapped accumulator loses nothing but multiples of 2^64. */
  lemma ShiftInByte(x: int, b: Byte)
    ensures -TWO_63 <= Wrap64(Wrap64(x) * 256) + b < TWO_63
    ensures Wrap64(Wrap64(x) * 256) + b == Wrap64(x * 256 + b)
  {
    var w: int := Wrap64(x);
    var s: int := Wrap64(w * 256);
    var k := WrapLoses(x);
    var j := WrapLoses(w * 256);
    LowByteIsFree(w, j, s, b);
    WrapsTo(x * 256 + b, 256 * k + j, s + b);
  }

  /** `parseRSAPublicKeyFromJWK`. The low byte of `e << 8` is zero, so `|` is `+`. */
  method ParseRSAPublicKeyFromJWK(nStr: string, eStr: string) returns (key: Option<PublicKey>)
    ensures key == DenotedKey(nStr, eStr)
  {
    var nBytes := Base64Decode(nStr);
    if nBytes.None? { return None; }
    var eBytes := Base64Decode(eStr);
    if eBytes.None? { return None; }
    var n := BigEndianValue(nBytes.value);
    var e: Int64 := 0;
    for i := 0 to |eBytes.value|
      invariant e == Wrap64(BigEndianValue(eBytes.value[..i]))
    {
      var b := eBytes.value[i];
      assert eBytes.value[..i + 1][..i] == eBytes.value[..i];
      ShiftInByte(BigEndianValue(eBytes.value[..i]), b);
      e := Wrap64(e as int * 256) as int + b as int;
    }
    assert eBytes.value[..|eBytes.value|] == eBytes.value;
    return Some(PublicKey(n, e));
  }

  lemma WrapExactIff(x: nat)
    ensures Wrap64(x) == x <==> x < TWO_63
  {
  }

  /** The parsed exponent is the denoted one exactly when that one is below 2^63. */
  lemma {:induction false} ExponentExactIff(nStr: string, eStr: string)
    requires Base64Decode(nStr).Some? && Base64Decode(eStr).Some?
    ensures DenotedKey(nStr, eStr).Some?
    ensures DenotedKey(nStr, eStr).value.e == BigEndianValue(Base64Decode(eStr).value)
       <==> BigEndianValue(Base64Decode(eStr).value) < TWO_63
  {
    WrapExactIff(BigEndianValue(Base64Decode(eStr).value));
  }

  /** The key that a JWK contributes to the cache, if any (the guard in `fetchJWKS`). */
  function UsableKey(k: Jwk): Option<PublicKey> {
    if k.kty == "RSA" && k.n != "" && k.e != "" then DenotedKey(k.n, k.e) else None
  }

  /** Which entries carry a key, and which one: an RSA entry whose two texts are there and can be
      decoded, with the modulus in full and the exponent in 64 bits. */
  lemma {:induction false} UsableIff(k: Jwk, p: PublicKey)
    ensures UsableKey(k) == Some(p) <==>
      && k.kty == "RSA" && k.n != "" && k.e != ""
      && Base64Decode(k.n).Some? && Base64Decode(k.e).Some?
      && p.n == BigEndianValue(Base64Decode(k.n).value)
      && (BigEndianValue(Base64Decode(k.e).value) - p.e as int) % 0x1_0000_0000_0000_0000 == 0
  {
    if Base64Decode(k.e).Some? { CongruentIsWrap(BigEndianValue(Base64Decode(k.e).value), p.e); }
  }

  lemma CongruentIsWrap(x: int, r: Int64)
    ensures (x - r) % 0x1_0000_0000_0000_0000 == 0 <==> Wrap64(x) == r
  {
    if (x - r) % 0x1_0000_0000_0000_0000 == 0 {
      WrapsTo(x, (x - r) / 0x1_0000_0000_0000_0000, r);
    }
  }

  function Magnitude(e: Int64): nat {
    if e < 0 then -(e as int) else e as int
  }

  lemma NumberTextDenotes(x: nat)
    ensures Base64Decode(NumberText(x)) == Some(BigEndianBytes(x))
    ensures BigEndianValue(BigEndianBytes(x)) == x
    ensures NumberText(x) == "" <==> x == 0
  {
    Base64RoundTrip(BigEndianBytes(x));
    BigEndianRoundTrip(x);
    assert |NumberText(x)| == (4 * |BigEndianBytes(x)| + 2) / 3;
  }

  lemma NumbersAreRead(n: nat, e: nat)
    ensures DenotedKey(NumberText(n), NumberText(e)) == Some(PublicKey(n, Wrap64(e)))
  {
    NumberTextDenotes(n);
    NumberTextDenotes(e);
  }

  /** What the reader makes of the published key: the modulus, and the wrapped magnitude of the
      exponent, unless one of the two prints as the empty text. */
  lemma {:induction false} PublishedKeyReads(k: PublicKey, keyID: string)
    ensures PublishedKeys(None, keyID) == []
    ensures var doc := PublishedKeys(Some(k), keyID);
      && |doc| == 1 && doc[0].kid == keyID
      && UsableKey(doc[0]) ==
         if k.n == 0 || k.e == 0 then None else Some(PublicKey(k.n, Wrap64(Magnitude(k.e))))
  {
    NumberTextDenotes(k.n);
    NumberTextDenotes(Magnitude(k.e));
    NumbersAreRead(k.n, Magnitude(k.e));
  }

  lemma WrappedMagnitude(e: Int64)
    ensures Wrap64(Magnitude(e)) == e <==> e >= 0 || e == -TWO_63
  {
  }

  /** The round trip: parsing what was published gives back exactly the key, for every modulus
      and exponent from 1 up (below 2^63, as an `int` is). Besides these only the least `int`
      survives, as its magnitude wraps back to it. */
  lemma {:induction false} JwksRoundTrip(k: PublicKey, keyID: string)
    ensures |PublishedKeys(Some(k), keyID)| == 1
    ensures UsableKey(PublishedKeys(Some(k), keyID)[0]) == Some(k)
       <==> k.n >= 1 && (k.e >= 1 || k.e == -TWO_63)
  {
    PublishedKeyReads(k, keyID);
    WrappedMagnitude(k.e);
  }
}
