/** RPC argument types: rpc/types/types.go ("Hex value encoding" of the Ethereum JSON-RPC
    specification). */
module Args {
  import opened Basics
  import opened Hex

  // ----- ArgUint64

  /** `strconv.AppendUint` in base 16. */
  function Format(n: nat): (s: Bytes)
    ensures s != [] && AllLowerHex(s)
  {
    if n < 16 then [Digit(n)] else Format(n / 16) + [Digit(n % 16)]
  }

  function Value(s: Bytes): nat
    requires AllHex(s)
  {
    if s == [] then 0 else Value(s[..|s| - 1]) * 16 + Nibble(s[|s| - 1])
  }

  /** `strconv.ParseUint` in base 16 for 64 bits. */
  function ParseUint(s: Bytes): Result<uint64> {
    if s != [] && AllHex(s) && Value(s) < TWO_64 then Ok(Value(s)) else Err
  }

  function MarshalUint64(n: uint64): Bytes {
    PREFIX + Format(n)
  }

  function UnmarshalUint64(s: Bytes): Result<uint64> {
    ParseUint(Trim(s))
  }

  lemma {:induction false} ValueFormat(n: nat)
    ensures AllHex(Format(n)) && Value(Format(n)) == n
  {
    if n >= 16 {
      ValueFormat(n / 16);
      assert Format(n)[..|Format(n)| - 1] == Format(n / 16);
    }
  }

  /** The value of a text: its digits, the last one the least significant. */
  lemma ValueOfDigits(s: Bytes, c: Byte)
    requires AllHex(s) && IsHex(c)
    ensures AllHex(s + [c]) && Value(s + [c]) == 16 * Value(s) + Nibble(c) && Value([]) == 0
  {
    assert (s + [c])[..|s|] == s;
  }

  /** `ArgUint64` accepts, after one optional `0x`, exactly the non-empty texts of digits with a 64-bit value. */
  lemma UnmarshalUint64Exact(s: Bytes, n: nat)
    ensures
      var digits := if |s| >= 2 && s[0] == 48 && s[1] == 120 then s[2..] else s;
      (UnmarshalUint64(s).Ok? && UnmarshalUint64(s).value == n) <==>
        digits != [] && AllHex(digits) && Value(digits) == n < TWO_64
  {
  }

  lemma Uint64RoundTrip(n: uint64)
    ensures UnmarshalUint64(MarshalUint64(n)) == Ok(n)
  {
    ValueFormat(n);
    assert Trim(MarshalUint64(n)) == Format(n);
  }

  /** Every lowercase text with value `n` is the formatted one after some zeros, so that one is the
      shortest and the only one of its length. */
  lemma {:induction false} FormatShortest(s: Bytes, n: nat) returns (zeros: nat)
    requires s != [] && AllLowerHex(s) && AllHex(s) && Value(s) == n
    ensures s == seq(zeros, _ => ZERO) + Format(n)
  {
    var before, last := s[..|s| - 1], s[|s| - 1];
    assert s == before + [last] && last == Digit(Nibble(last));
    if before == [] {
      zeros := 0;
    } else if Value(before) == 0 {
      var z := FormatShortest(before, 0);
      zeros := z + 1;
      assert seq(zeros, _ => ZERO) == seq(z, _ => ZERO) + [ZERO];
    } else {
      zeros := FormatShortest(before, n / 16);
      assert Format(n) == Format(n / 16) + [last];
    }
  }

  lemma ShortestCorollary(s: Bytes, n: nat)
    requires s != [] && AllLowerHex(s) && AllHex(s) && Value(s) == n
    ensures |Format(n)| <= |s| && (|s| == |Format(n)| ==> s == Format(n))
  {
    var zeros := FormatShortest(s, n);
  }

  // ----- ArgHash

  /** `ArgHash.UnmarshalText`. */
  method UnmarshalHash(input: Bytes) returns (r: Result<Hash>)
    ensures r == if AllHex(Trim(input)) then Ok(HexToHash(Trim(input))) else Err
  {
    var valid := HexIsValid(input);
    if !valid {
      return Err;
    }
    return Ok(HexToHash(Trim(input)));
  }

  /** The last `n` digits, with zeros before a shorter text. */
  function LastDigits(s: Bytes, n: nat): (t: Bytes)
    ensures |t| == n
  {
    if |s| > n then s[|s| - n..] else seq(n - |s|, _ => ZERO) + s
  }

  lemma {:induction false} DecodeZeros(n: nat)
    ensures AllHex(seq(2 * n, _ => ZERO)) && DecodeUntilError(seq(2 * n, _ => ZERO)) == Zeros(n)
  {
    if n > 0 {
      DecodeZeros(n - 1);
      assert seq(2 * n, _ => ZERO)[2..] == seq(2 * (n - 1), _ => ZERO);
      assert Zeros(n) == [0] + Zeros(n - 1);
    }
  }

  lemma LongDenotation(d: Bytes)
    requires AllHex(d) && |d| % 2 == 0 && |d| > 64
    ensures RightAlign(DecodeUntilError(d), 32) == DecodeUntilError(d[|d| - 64..])
  {
    hide DecodeUntilError;
    var k := |d| - 64;
    assert d == d[..k] + d[k..];
    DecodeConcat(d[..k], d[k..]);
    DecodeLength(d[..k]);
    DecodeLength(d[k..]);
  }

  lemma ShortDenotation(d: Bytes, n: nat)
    requires AllHex(d) && |d| + 2 * n == 64
    ensures AllHex(seq(2 * n, _ => ZERO) + d)
    ensures RightAlign(DecodeUntilError(d), 32) == DecodeUntilError(seq(2 * n, _ => ZERO) + d)
  {
    hide DecodeUntilError;
    var z: Bytes := seq(2 * n, _ => ZERO);
    DecodeZeros(n);
    assert |z| % 2 == 0;
    DecodeConcat(z, d);
    DecodeLength(d);
  }

  lemma LastOfLong(s: Bytes)
    requires |PadEven(s)| > 64
    ensures PadEven(s)[|PadEven(s)| - 64..] == LastDigits(s, 64)
  {
  }

  lemma LastOfShort(s: Bytes, n: nat)
    requires |PadEven(s)| + 2 * n == 64
    ensures seq(2 * n, _ => ZERO) + PadEven(s) == LastDigits(s, 64)
  {
  }

  /** A text of digits denotes its last 64 digits, left-padded with zeros. */
  lemma HashDenotation(s: Bytes)
    requires AllHex(s)
    ensures AllHex(LastDigits(s, 64)) && HexToHash(s).bytes == DecodeUntilError(LastDigits(s, 64))
  {
    hide DecodeUntilError, RightAlign;
    var d := PadEven(s);
    assert AllHex(d) && FromHex(s) == DecodeUntilError(d);
    if |d| > 64 {
      LongDenotation(d);
      LastOfLong(s);
    } else {
      var n := (64 - |d|) / 2;
      ShortDenotation(d, n);
      LastOfShort(s, n);
    }
  }
}
