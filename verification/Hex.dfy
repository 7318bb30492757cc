/** Hexadecimal text as bytes: rpc/types/hex.go and the library decoders it stands on (section 8 of
    RFC 4648). Go strings are byte sequences, so text is `Bytes` here. */
module Hex {
  import opened Basics

  const ZERO: Byte := 48
  const X: Byte := 120

  /** The text `0x`. */
  const PREFIX: Bytes := [ZERO, X]

  predicate IsHex(c: Byte) {
    48 <= c <= 57 || 97 <= c <= 102 || 65 <= c <= 70
  }

  predicate IsLowerHex(c: Byte) {
    48 <= c <= 57 || 97 <= c <= 102
  }

  function Nibble(c: Byte): (n: nat)
    requires IsHex(c)
    ensures n < 16
  {
    if c <= 57 then c - 48 else if c <= 70 then c - 55 else c - 87
  }

  function Digit(n: nat): (c: Byte)
    requires n < 16
    ensures IsLowerHex(c) && Nibble(c) == n
  {
    if n < 10 then 48 + n else 87 + n
  }

  predicate AllHex(s: Bytes) {
    forall i | 0 <= i < |s| :: IsHex(s[i])
  }

  predicate AllLowerHex(s: Bytes) {
    forall i | 0 <= i < |s| :: IsLowerHex(s[i])
  }

  /** `strings.TrimPrefix(s, "0x")`. */
  function Trim(s: Bytes): Bytes {
    if PREFIX <= s then s[2..] else s
  }

  /** `hexIsValid`. */
  method HexIsValid(s: Bytes) returns (valid: bool)
    ensures valid <==> AllHex(Trim(s))
    ensures
      var digits := if |s| >= 2 && s[0] == 48 && s[1] == 120 then s[2..] else s;
      valid <==> forall c | c in digits :: 48 <= c <= 57 || 65 <= c <= 70 || 97 <= c <= 102
  {
    var str := Trim(s);
    for i := 0 to |str|
      invariant AllHex(str[..i])
    {
      var b := str[i];
      if !((b >= 48 && b <= 57) || (b >= 97 && b <= 102) || (b >= 65 && b <= 70)) {
        return false;
      }
      assert str[..i + 1] == str[..i] + [str[i]];
    }
    assert str[..|str|] == str;
    return true;
  }

  /** `hex.EncodeToString`. */
  function Encode(b: Bytes): (s: Bytes)
    ensures |s| == 2 * |b| && AllLowerHex(s)
  {
    if b == [] then [] else [Digit(b[0] / 16), Digit(b[0] % 16)] + Encode(b[1..])
  }

  /** The bytes `hex.Decode` has produced when it stops: at the end, at a lone digit or at a byte that is
      not a digit. */
  function DecodeUntilError(s: Bytes): Bytes {
    if |s| < 2 || !IsHex(s[0]) || !IsHex(s[1]) then []
    else [Nibble(s[0]) * 16 + Nibble(s[1])] + DecodeUntilError(s[2..])
  }

  /** `hex.DecodeString`. */
  function Decode(s: Bytes): Result<Bytes> {
    if |s| % 2 == 0 && AllHex(s) then Ok(DecodeUntilError(s)) else Err
  }

  /** Digits are numbered by their order: decimal digits from zero, then letters from ten, in either case. */
  lemma NibbleOrder(c: Byte, d: Byte)
    requires IsHex(c) && IsHex(d)
    ensures IsLowerHex(c) && IsLowerHex(d) ==> (Nibble(c) < Nibble(d) <==> c < d)
    ensures 65 <= c <= 70 ==> Nibble(c) == Nibble(c + 32)
    ensures Nibble(48) == 0 && Nibble(102) == 15
  {
  }

  /** Every byte becomes two digits, the more significant one first. */
  lemma {:induction false} EncodeDigits(b: Bytes, i: nat)
    requires i < |b|
    ensures IsLowerHex(Encode(b)[2 * i]) && IsLowerHex(Encode(b)[2 * i + 1])
    ensures b[i] == 16 * Nibble(Encode(b)[2 * i]) + Nibble(Encode(b)[2 * i + 1])
  {
    var first := [Digit(b[0] / 16), Digit(b[0] % 16)];
    assert Encode(b) == first + Encode(b[1..]);
    if i > 0 {
      EncodeDigits(b[1..], i - 1);
      assert Encode(b)[2 * i] == Encode(b[1..])[2 * (i - 1)];
      assert Encode(b)[2 * i + 1] == Encode(b[1..])[2 * (i - 1) + 1];
    }
  }

  /** Every two digits become a byte. */
  lemma {:induction false} DecodeDigitsAt(s: Bytes, i: nat)
    requires AllHex(s) && 2 * i + 1 < |s|
    ensures i < |DecodeUntilError(s)| && DecodeUntilError(s)[i] == 16 * Nibble(s[2 * i]) + Nibble(s[2 * i + 1])
  {
    if i > 0 {
      DecodeDigitsAt(s[2..], i - 1);
    }
  }

  function PadEven(s: Bytes): Bytes {
    if |s| % 2 != 0 then [ZERO] + s else s
  }

  /** `encodeToHex`. */
  function EncodeToHex(b: Bytes): Bytes {
    PREFIX + PadEven(Encode(b))
  }

  /** `decodeToHex`. */
  function DecodeToHex(s: Bytes): Result<Bytes> {
    Decode(PadEven(Trim(s)))
  }

  lemma {:induction false} DecodeLength(s: Bytes)
    requires AllHex(s)
    ensures |DecodeUntilError(s)| == |s| / 2
  {
    if |s| >= 2 {
      DecodeLength(s[2..]);
    }
  }

  lemma {:induction false} DecodeEncode(b: Bytes)
    ensures Decode(Encode(b)) == Ok(b)
  {
    if b != [] {
      var s := Encode(b);
      DecodeEncode(b[1..]);
      assert s[2..] == Encode(b[1..]);
      assert Nibble(s[0]) * 16 + Nibble(s[1]) == b[0];
      assert AllHex(s);
      assert DecodeUntilError(s) == [b[0]] + b[1..] == b;
    }
  }

  /** Decoding works digit pair by digit pair. */
  lemma {:induction false} DecodeConcat(s: Bytes, t: Bytes)
    requires AllHex(s) && |s| % 2 == 0
    ensures DecodeUntilError(s + t) == DecodeUntilError(s) + DecodeUntilError(t)
  {
    if s == [] {
      assert s + t == t;
    } else {
      DecodeConcat(s[2..], t);
      assert (s + t)[2..] == s[2..] + t;
    }
  }

  /** The case of the letters does not matter. */
  predicate SameNibbles(s: Bytes, t: Bytes) {
    |s| == |t| && forall i | 0 <= i < |s| :: IsHex(s[i]) && IsHex(t[i]) && Nibble(s[i]) == Nibble(t[i])
  }

  lemma {:induction false} DecodeSameNibbles(s: Bytes, t: Bytes)
    requires SameNibbles(s, t)
    ensures Decode(s) == Decode(t) && DecodeUntilError(s) == DecodeUntilError(t)
  {
    if |s| >= 2 {
      DecodeSameNibbles(s[2..], t[2..]);
    }
  }

  /** `decodeToHex` drops one `0x`, puts a zero before an odd number of digits, and fails exactly if something else
      than digits is left. */
  lemma DecodeToHexExact(s: Bytes)
    ensures
      var digits := if |s| >= 2 && s[0] == 48 && s[1] == 120 then s[2..] else s;
      var even, r := if |digits| % 2 == 1 then [48] + digits else digits, DecodeToHex(s);
      && (r.Ok? <==> AllHex(digits))
      && (r.Ok? ==>
            && 2 * |r.value| == |even| && AllHex(even)
            && forall i | 0 <= i < |r.value| :: r.value[i] == 16 * Nibble(even[2 * i]) + Nibble(even[2 * i + 1]))
  {
    var even := PadEven(Trim(s));
    assert AllHex(even) <==> AllHex(Trim(s)) by {
      if |Trim(s)| % 2 != 0 {
        assert even[1..] == Trim(s);
        assert forall i | 0 <= i < |Trim(s)| :: even[i + 1] == Trim(s)[i];
      }
    }
    if AllHex(even) {
      DecodeLength(even);
      forall i | 0 <= i < |DecodeUntilError(even)|
        ensures DecodeUntilError(even)[i] == 16 * Nibble(even[2 * i]) + Nibble(even[2 * i + 1])
      {
        DecodeDigitsAt(even, i);
      }
    }
  }

  lemma EncodeToHexPrefixed(b: Bytes)
    ensures EncodeToHex(b) == PREFIX + Encode(b) && Trim(EncodeToHex(b)) == Encode(b)
  {
  }

  /** Unmarshalling what was marshalled gives the bytes back. */
  lemma BytesRoundTrip(b: Bytes)
    ensures DecodeToHex(EncodeToHex(b)) == Ok(b)
  {
    EncodeToHexPrefixed(b);
    DecodeEncode(b);
  }

  lemma {:induction false} EncodeTake(b: Bytes, j: nat)
    requires j <= |b|
    ensures Encode(b)[..2 * j] == Encode(b[..j])
  {
    if j > 0 {
      EncodeTake(b[1..], j - 1);
      assert b[..j][1..] == b[1..][..j - 1];
      var first := [Digit(b[0] / 16), Digit(b[0] % 16)];
      assert (first + Encode(b[1..]))[..2 * j] == first + Encode(b[1..])[..2 * (j - 1)];
    }
  }

  lemma {:induction false} EncodeDrop(b: Bytes, i: nat)
    requires i <= |b|
    ensures Encode(b)[2 * i..] == Encode(b[i..])
  {
    if i > 0 {
      EncodeDrop(b[1..], i - 1);
      assert b[1..][i - 1..] == b[i..];
      assert Encode(b)[2..] == Encode(b[1..]);
      assert Encode(b)[2 * i..] == Encode(b)[2..][2 * (i - 1)..];
    } else {
      assert b[0..] == b;
    }
  }

  lemma SliceOfDrop(s: Bytes, i: nat, n: nat)
    requires i + n <= |s|
    ensures s[i..i + n] == s[i..][..n]
  {
  }

  /** The digits of a stretch of bytes are a stretch of the digits. */
  lemma EncodeSlice(b: Bytes, i: nat, n: nat)
    requires i + n <= |b|
    ensures Encode(b)[2 * i..2 * i + 2 * n] == Encode(b[i..i + n])
  {
    hide Encode;
    EncodeDrop(b, i);
    EncodeTake(b[i..], n);
    SliceOfDrop(b, i, n);
    SliceOfDrop(Encode(b), 2 * i, 2 * n);
  }

  // ----- common.HexToHash and common.HexToAddress

  function Zeros(n: nat): (z: Bytes)
    ensures |z| == n
  {
    seq(n, _ => 0)
  }

  /** `SetBytes` of a fixed-size value: drop from the left, align to the right. */
  function RightAlign(b: Bytes, n: nat): (r: Bytes)
    ensures |r| == n
  {
    if |b| > n then b[|b| - n..] else Zeros(n - |b|) + b
  }

  /** `common.FromHex`: an optional `0x` or `0X`, a zero before an odd number of digits, and no error. */
  function FromHex(s: Bytes): Bytes {
    var t := if |s| >= 2 && s[0] == ZERO && (s[1] == X || s[1] == 88) then s[2..] else s;
    DecodeUntilError(PadEven(t))
  }

  function HexToHash(s: Bytes): Hash {
    Hash(RightAlign(FromHex(s), 32))
  }

  function HexToAddress(s: Bytes): Address {
    Address(RightAlign(FromHex(s), 20))
  }

  /** `Hash.String`. */
  function HashText(h: Hash): Bytes {
    PREFIX + Encode(h.bytes)
  }

  lemma FromHexPrefixed(s: Bytes, b: Bytes)
    requires SameNibbles(s, Encode(b))
    ensures FromHex(PREFIX + s) == b
  {
    assert (PREFIX + s)[2..] == s;
    DecodeSameNibbles(s, Encode(b));
    DecodeEncode(b);
  }

  /** A prefix `0x` or `0X` does not change what a text of digits denotes. */
  lemma PrefixIgnored(d: Bytes)
    requires AllHex(d)
    ensures HexToHash([48, 120] + d) == HexToHash(d) == HexToHash([48, 88] + d)
    ensures HexToAddress([48, 120] + d) == HexToAddress(d) == HexToAddress([48, 88] + d)
  {
    assert ([48, 120] + d)[2..] == d && ([48, 88] + d)[2..] == d;
    assert |d| >= 2 ==> IsHex(d[1]);
  }

  lemma HashRoundTrip(h: Hash)
    ensures HexToHash(HashText(h)) == h
  {
    FromHexPrefixed(Encode(h.bytes), h.bytes);
    assert Zeros(0) + h.bytes == h.bytes;
  }

  /** Text made of `0x` and the address' digits in any letter case decodes to the address, in particular
      the checksummed form of EIP-55. */
  lemma AddressRoundTrip(a: Address, digits: Bytes)
    requires SameNibbles(digits, Encode(a.bytes))
    ensures HexToAddress(PREFIX + digits) == a
  {
    FromHexPrefixed(digits, a.bytes);
    assert Zeros(0) + a.bytes == a.bytes;
  }
}
