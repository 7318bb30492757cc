/** Zero-knowledge proofs as words: etherman/proof.go. */
module Proof {
  import opened Basics
  import opened Hex

  /** `[ProofLength][HashLength]byte`: 24 words of 32 bytes. */
  type Proof = p: seq<Bytes32> | |p| == 24 witness seq<Bytes32>(24, _ => ZERO_WORD)

  const ZERO_WORD: Bytes32 := Zeros(32)
  const EMPTY: Proof := seq<Bytes32>(24, _ => ZERO_WORD)

  /** The words of a proof, one after the other. */
  function Flat(p: seq<Bytes32>): Bytes {
    if p == [] then [] else Flat(p[..|p| - 1]) + p[|p| - 1]
  }

  /** `Proof.Equals`. */
  method Equals(p: Proof, other: Proof) returns (same: bool)
    ensures same <==> p == other
  {
    for i := 0 to 24
      invariant p[..i] == other[..i]
    {
      if p[i] != other[i] {
        return false;
      }
    }
    assert p[..24] == p && other[..24] == other;
    return true;
  }

  /** The words of 768 bytes. */
  function ProofOfBytes(data: Bytes): Result<Proof> {
    if |data| != 768 then Err
    else Ok(seq<Bytes32>(24, i requires 0 <= i < 24 => data[32 * i..32 * (i + 1)]))
  }

  /** The words of a byte string, put together again, are the byte string. */
  lemma FlatWords(data: Bytes)
    requires ProofOfBytes(data).Ok?
    ensures Flat(ProofOfBytes(data).value) == data
  {
    var p := ProofOfBytes(data).value;
    for i := 0 to 24
      invariant Flat(p[..i]) == data[..32 * i]
    {
      assert p[..i + 1][..i] == p[..i];
      assert data[..32 * i] + p[i] == data[..32 * (i + 1)];
    }
    assert p[..24] == p && data[..768] == data;
  }

  /** `BytesToProof`. */
  method BytesToProof(data: Bytes) returns (r: Result<Proof>)
    ensures r == ProofOfBytes(data)
    ensures r.Ok? ==> Flat(r.value) == data
  {
    if |data| != 768 {
      return Err;
    }
    var proof: Proof := EMPTY;
    for i := 0 to 24
      invariant forall j | 0 <= j < i :: proof[j] == data[32 * j..32 * (j + 1)]
      invariant Flat(proof[..i]) == data[..32 * i]
    {
      var word: Bytes32 := data[32 * i..32 * (i + 1)];
      var next: Proof := proof[i := word];
      assert next[..i + 1][..i] == proof[..i];
      assert data[..32 * i] + word == data[..32 * (i + 1)];
      proof := next;
    }
    assert proof[..24] == proof && data[..768] == data;
    assert proof == ProofOfBytes(data).value;
    return Ok(proof);
  }

  /** `copy` into a zeroed word. */
  function LeftAlign(b: Bytes): Bytes32 {
    if |b| >= 32 then b[..32] else b + Zeros(32 - |b|)
  }

  /** Word `i` of a text of digits; `encoding.DecodeBytes` of zkevm-node behaves as `decodeToHex`. */
  function Word(text: Bytes, i: nat): Result<Bytes32>
    requires 64 * (i + 1) <= |text|
  {
    match DecodeToHex(text[64 * i..64 * (i + 1)])
    case Ok(b) => Ok(LeftAlign(b))
    case Err => Err
  }

  /** Each 64 characters become a word: an optional `0x` is dropped, the digits must all be hexadecimal, and the bytes
      they denote are aligned to the left of a zeroed word. */
  lemma WordMeaning(text: Bytes, i: nat)
    requires 64 * (i + 1) <= |text|
    ensures
      var c := text[64 * i..64 * (i + 1)];
      var digits := if c[0] == 48 && c[1] == 120 then c[2..] else c;
      && (Word(text, i).Ok? <==> AllHex(digits))
      && (Word(text, i).Ok? ==>
            forall j | 0 <= j < 32 ::
              Word(text, i).value[j] ==
              if 2 * j < |digits| then 16 * Nibble(digits[2 * j]) + Nibble(digits[2 * j + 1]) else 0)
  {
    hide DecodeToHex, LeftAlign, Nibble, AllHex;
    var c := text[64 * i..64 * (i + 1)];
    var digits := if c[0] == 48 && c[1] == 120 then c[2..] else c;
    assert |digits| % 2 == 0;
    DecodeToHexExact(c);
    if r: Bytes :| DecodeToHex(c) == Ok(r) {
      forall j | 0 <= j < 32
        ensures LeftAlign(r)[j] ==
                if 2 * j < |digits| then 16 * Nibble(digits[2 * j]) + Nibble(digits[2 * j + 1]) else 0
      {
        LeftAlignAt(r, j);
      }
    }
  }

  lemma LeftAlignAt(b: Bytes, j: nat)
    requires j < 32
    ensures LeftAlign(b)[j] == if j < |b| then b[j] else 0
  {
  }

  /** `r` is what the first `n` words of the text give. */
  ghost predicate Converts(text: Bytes, n: nat, p: seq<Bytes32>)
    requires 64 * n <= |text|
  {
    n <= |p| && forall i: nat | i < n :: Word(text, i) == Ok(p[i])
  }

  lemma ConvertsNext(text: Bytes, n: nat, p: seq<Bytes32>, w: Bytes32)
    requires 64 * (n + 1) <= |text| && n < |p| && Converts(text, n, p) && Word(text, n) == Ok(w)
    ensures Converts(text, n + 1, p[n := w])
  {
  }

  /** The decoded words of a text of 1538 bytes. */
  ghost predicate ProofOfText(p: Bytes, r: Result<Proof>) {
    if |p| != 1538 then r == Err
    else match r
      case Ok(proof) => Converts(Trim(p), 24, proof)
      case Err => exists i: nat :: i < 24 && Word(Trim(p), i).Err?
  }

  /** `ConvertProof`. */
  method ConvertProof(p: Bytes) returns (r: Result<Proof>)
    ensures ProofOfText(p, r)
  {
    if |p| != 1538 {
      return Err;
    }
    var text := Trim(p);
    var proof: Proof := EMPTY;
    for i := 0 to 24
      invariant Converts(text, i, proof)
    {
      var word := Word(text, i);
      if word.Err? {
        return Err;
      }
      ConvertsNext(text, i, proof, word.value);
      proof := proof[i := word.value];
    }
    return Ok(proof);
  }

  lemma DecodeDigits(b: Bytes)
    ensures DecodeToHex(Encode(b)) == Ok(b)
  {
    var text := Encode(b);
    DecodeEncode(b);
    if |text| >= 2 {
      assert IsLowerHex(text[1]);
    }
    assert Trim(text) == text;
  }

  lemma WordOfChunk(text: Bytes, i: nat, w: Bytes32)
    requires 64 * (i + 1) <= |text| && text[64 * i..64 * (i + 1)] == Encode(w)
    ensures Word(text, i) == Ok(w)
  {
    DecodeDigits(w);
    assert w[..32] == w;
  }

  lemma DigitsAt(b: Bytes, at: nat, digits: nat, w: Bytes)
    requires digits == 2 * at && at + 32 <= |b| && b[at..at + 32] == w
    ensures Encode(b)[digits..digits + 64] == Encode(w)
  {
    hide Encode;
    EncodeSlice(b, at, 32);
  }

  /** Each 64 digits of the text of a byte string are the text of 32 of its bytes. */
  lemma WordOfText(b: Bytes, i: nat, w: Bytes32)
    requires 32 * (i + 1) <= |b| && b[32 * i..32 * (i + 1)] == w
    ensures Word(Encode(b), i) == Ok(w)
  {
    hide Encode, Word;
    var at, digits := 32 * i, 64 * i;
    DigitsAt(b, at, digits, w);
    WordOfChunk(Encode(b), i, w);
  }

  /** For every byte string, decoding its `ArgBytes` text and decoding the bytes both fail or both give
      the same proof, and succeed exactly at 768 bytes. */
  lemma DecodersAgree(b: Bytes, r: Result<Proof>)
    ensures ProofOfText(EncodeToHex(b), r) <==> r == ProofOfBytes(b)
    ensures ProofOfBytes(b).Ok? <==> |b| == 768
  {
    EncodeToHexPrefixed(b);
    if |b| == 768 {
      var p := ProofOfBytes(b).value;
      forall i: nat | i < 24 ensures Word(Encode(b), i) == Ok(p[i]) {
        WordOfText(b, i, p[i]);
      }
      if ProofOfText(EncodeToHex(b), r) {
        assert forall i: nat | i < 24 :: r.value[i] == p[i];
        assert r.value == p;
      }
    }
  }
}
