/**
Checksum and signature of a binary (cli/launcher/src/launch/outbound/resolve/verifier.rs).
The digest and the signature scheme are kept abstract.
*/
module Verifier {
  import opened Wrappers

  newtype byte = b: int | 0 <= b < 256

  type Bytes = seq<byte>

  /** SHA-256, and whether some trusted key verifies a signature over some bytes. */
  datatype Crypto = Crypto(digest: Bytes -> Bytes, verifies: (Bytes, Bytes) -> bool)

  /** Some signature over these bytes verifies. */
  ghost predicate IsSigned(crypto: Crypto, bytes: Bytes) {
    exists signature: Bytes :: crypto.verifies(bytes, signature)
  }

  /** What is asked of the digest: 32 bytes, and no two signed contents with the same one. */
  ghost predicate IsCollisionFree(crypto: Crypto) {
    && (forall bytes: Bytes :: |crypto.digest(bytes)| == 32)
    && (forall a: Bytes, b: Bytes | IsSigned(crypto, a) && IsSigned(crypto, b)
        && crypto.digest(a) == crypto.digest(b) :: a == b)
  }

  const HEX_DIGITS := "0123456789abcdef"

  function HexByte(b: byte): (hex: string)
    ensures |hex| == 2
  {
    [HEX_DIGITS[b as int / 16], HEX_DIGITS[b as int % 16]]
  }

  function Hex(bytes: Bytes): (hex: string)
    ensures |hex| == 2 * |bytes|
  {
    if bytes == [] then "" else HexByte(bytes[0]) + Hex(bytes[1..])
  }

  function HexDigest(crypto: Crypto, bytes: Bytes): string {
    Hex(crypto.digest(bytes))
  }

  /** The digits are appended byte by byte. */
  method Sha256Hex(crypto: Crypto, bytes: Bytes) returns (hex: string)
    ensures hex == HexDigest(crypto, bytes)
  {
    var digest := crypto.digest(bytes);
    hex := "";
    var i := 0;
    while i < |digest|
      invariant i <= |digest|
      invariant hex + Hex(digest[i..]) == Hex(digest)
    {
      assert digest[i..][1..] == digest[i + 1..];
      hex := hex + HexByte(digest[i]);
      i := i + 1;
    }
  }

  predicate IsHexDigit(c: char) {
    '0' <= c <= '9' || 'a' <= c <= 'f' || 'A' <= c <= 'F'
  }

  /** Both cases count when a name is read back, though only lower case is ever written. */
  lemma HexDigitIff(c: char)
    ensures IsHexDigit(c) <==> c in HEX_DIGITS || c in "ABCDEF"
  {
    if '0' <= c <= '9' {
      assert HEX_DIGITS[c as int - '0' as int] == c;
    } else if 'a' <= c <= 'f' {
      assert HEX_DIGITS[10 + c as int - 'a' as int] == c;
    } else if 'A' <= c <= 'F' {
      assert "ABCDEF"[c as int - 'A' as int] == c;
    }
  }

  predicate IsSha256Hex(s: string) {
    |s| == 64 && forall i | 0 <= i < |s| :: IsHexDigit(s[i])
  }

  lemma {:induction false} HexIsHex(bytes: Bytes)
    ensures forall i | 0 <= i < |Hex(bytes)| :: IsHexDigit(Hex(bytes)[i])
  {
    if bytes != [] {
      HexIsHex(bytes[1..]);
      var first, rest := HexByte(bytes[0]), Hex(bytes[1..]);
      assert forall i | 2 <= i < |Hex(bytes)| :: Hex(bytes)[i] == rest[i - 2];
    }
  }

  lemma HexByteInjective(a: byte, b: byte)
    requires HexByte(a) == HexByte(b)
    ensures a == b
  {
    assert HexByte(a)[0] == HexByte(b)[0] && HexByte(a)[1] == HexByte(b)[1];
    DigitInjective(a as int / 16, b as int / 16);
    DigitInjective(a as int % 16, b as int % 16);
  }

  lemma DigitInjective(m: nat, n: nat)
    requires m < 16 && n < 16 && HEX_DIGITS[m] == HEX_DIGITS[n]
    ensures m == n
  {
    var value := (c: char) => if c <= '9' then c as int - '0' as int else c as int - 'a' as int + 10;
    assert forall k: nat | k < 16 :: value(HEX_DIGITS[k]) == k;
  }

  lemma {:induction false} HexInjective(a: Bytes, b: Bytes)
    requires Hex(a) == Hex(b)
    ensures a == b
  {
    if a != [] {
      assert |a| == |b|;
      assert Hex(a)[..2] == HexByte(a[0]) && Hex(b)[..2] == HexByte(b[0]);
      HexByteInjective(a[0], b[0]);
      assert Hex(a)[2..] == Hex(a[1..]) && Hex(b)[2..] == Hex(b[1..]);
      HexInjective(a[1..], b[1..]);
      assert a == [a[0]] + a[1..] && b == [b[0]] + b[1..];
    }
  }

  /** The value of a lower-case hexadecimal digit. */
  function DigitValue(c: char): nat
    requires '0' <= c <= '9' || 'a' <= c <= 'f'
  {
    if c <= '9' then c as nat - '0' as nat else c as nat - 'a' as nat + 10
  }

  lemma HexByteReads(b: byte)
    ensures forall i | 0 <= i < 2 :: '0' <= HexByte(b)[i] <= '9' || 'a' <= HexByte(b)[i] <= 'f'
    ensures 16 * DigitValue(HexByte(b)[0]) + DigitValue(HexByte(b)[1]) == b as int
  {
    var high, low := b as int / 16, b as int % 16;
    DigitReads(high);
    DigitReads(low);
  }

  lemma DigitReads(n: nat)
    requires n < 16
    ensures '0' <= HEX_DIGITS[n] <= '9' || 'a' <= HEX_DIGITS[n] <= 'f'
    ensures DigitValue(HEX_DIGITS[n]) == n
  {
  }

  /** Each byte is two lower-case digits, the high one first, and the bytes come in their order. */
  lemma {:induction false} HexReadsBack(bytes: Bytes, i: nat)
    requires i < |bytes|
    ensures var high, low := Hex(bytes)[2 * i], Hex(bytes)[2 * i + 1];
            && ('0' <= high <= '9' || 'a' <= high <= 'f') && ('0' <= low <= '9' || 'a' <= low <= 'f')
            && 16 * DigitValue(high) + DigitValue(low) == bytes[i] as int
  {
    HexByteReads(bytes[0]);
    if i > 0 {
      HexReadsBack(bytes[1..], i - 1);
      var tail := Hex(bytes[1..]);
      assert Hex(bytes)[2 * i] == tail[2 * (i - 1)] && Hex(bytes)[2 * i + 1] == tail[2 * (i - 1) + 1];
    }
  }

  /** The text form of a checksum is always 64 hex digits, and singles out the signed content it belongs to. */
  lemma HexDigestFacts(crypto: Crypto, bytes: Bytes, others: Bytes)
    requires IsCollisionFree(crypto)
    ensures IsSha256Hex(HexDigest(crypto, bytes))
    ensures HexDigest(crypto, bytes) == HexDigest(crypto, others) ==> crypto.digest(bytes) == crypto.digest(others)
    ensures IsSigned(crypto, bytes) && IsSigned(crypto, others) ==>
              (HexDigest(crypto, bytes) == HexDigest(crypto, others) ==> bytes == others)
  {
    HexIsHex(crypto.digest(bytes));
    if HexDigest(crypto, bytes) == HexDigest(crypto, others) {
      HexInjective(crypto.digest(bytes), crypto.digest(others));
    }
  }

  datatype VerifyError = ChecksumMismatch(expected: string, actual: string) | SignatureMismatch

  /** The checksum first, then the signature. */
  function VerifyBinary(crypto: Crypto, bytes: Bytes, expected: string, signature: Bytes): Outcome<VerifyError> {
    var actual := HexDigest(crypto, bytes);
    if actual != expected then Fail(ChecksumMismatch(expected, actual))
    else if !crypto.verifies(bytes, signature) then Fail(SignatureMismatch)
    else Pass
  }

  /** With no collisions a checksum singles out the one content a signature may be verified over. */
  lemma VerifiedIsUnique(crypto: Crypto, a: Bytes, b: Bytes, sha: string, s: Bytes, t: Bytes)
    requires IsCollisionFree(crypto)
    requires VerifyBinary(crypto, a, sha, s).Pass? && VerifyBinary(crypto, b, sha, t).Pass?
    ensures a == b && IsSha256Hex(sha)
  {
    HexDigestFacts(crypto, a, b);
  }
}
