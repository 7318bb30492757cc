/** The byte string hashed by `Tx.Hash`: tx/tx.go. */
module TxHash {
  import opened Basics
  import opened Hex
  import opened Args

  datatype ZKP = ZKP(newStateRoot: Hash, newLocalExitRoot: Hash, proof: Bytes)

  datatype Tx = Tx(rollupID: nat, lastVerifiedBatch: uint64, newVerifiedBatch: uint64, zkp: ZKP)

  /** What `crypto.Keccak256` receives: the five parts without separators or lengths. */
  function Preimage(t: Tx): Bytes {
    MarshalUint64(t.lastVerifiedBatch) + MarshalUint64(t.newVerifiedBatch)
    + t.zkp.newStateRoot.bytes + t.zkp.newLocalExitRoot.bytes
    + EncodeToHex(t.zkp.proof)
  }

  /** Text without `x` before the first `x` is determined. */
  lemma FirstX(a: Bytes, r: Bytes, a': Bytes, r': Bytes)
    requires AllHex(a) && AllHex(a') && a + [X] + r == a' + [X] + r'
    ensures a == a' && r == r'
  {
    var p := a + [X] + r;
    assert p[|a|] == X && p[|a'|] == X;
    assert forall i | 0 <= i < |a| :: p[i] == a[i];
    assert forall i | 0 <= i < |a'| :: p[i] == a'[i];
    assert p[..|a|] == a && p[..|a'|] == a' && p[|a| + 1..] == r && p[|a'| + 1..] == r';
  }

  /** Text without `x` after the last `x` is determined. */
  lemma LastX(l: Bytes, a: Bytes, l': Bytes, a': Bytes)
    requires AllHex(a) && AllHex(a') && l + [X] + a == l' + [X] + a'
    ensures l == l' && a == a'
  {
    var p := l + [X] + a;
    assert p[|l|] == X && p[|l'|] == X;
    assert forall i | 0 <= i < |a| :: p[|l| + 1 + i] == a[i];
    assert forall i | 0 <= i < |a'| :: p[|l'| + 1 + i] == a'[i];
    assert p[..|l|] == l && p[..|l'|] == l' && p[|l| + 1..] == a && p[|l'| + 1..] == a';
  }

  /** The middle of the preimage: the second batch number, both roots and the zero of the last `0x`. */
  function Middle(t: Tx): Bytes {
    Format(t.newVerifiedBatch) + (t.zkp.newStateRoot.bytes + t.zkp.newLocalExitRoot.bytes + [ZERO])
  }

  lemma Layout(t: Tx)
    ensures Preimage(t) ==
            PREFIX + ((Format(t.lastVerifiedBatch) + [ZERO]) + [X] + (Middle(t) + [X] + Encode(t.zkp.proof)))
  {
    EncodeToHexPrefixed(t.zkp.proof);
  }

  /** The hash input determines both batch numbers, both roots and the proof. */
  lemma PreimageInjective(t: Tx, u: Tx)
    requires Preimage(t) == Preimage(u)
    ensures t.(rollupID := u.rollupID) == u
  {
    Layout(t);
    Layout(u);
    var a, a' := Format(t.lastVerifiedBatch) + [ZERO], Format(u.lastVerifiedBatch) + [ZERO];
    var h, h' := Encode(t.zkp.proof), Encode(u.zkp.proof);
    var r, r' := Middle(t) + [X] + h, Middle(u) + [X] + h';
    assert Preimage(t)[2..] == a + [X] + r && Preimage(u)[2..] == a' + [X] + r';
    FirstX(a, r, a', r');
    LastX(Middle(t), h, Middle(u), h');
    FirstPart(Format(t.lastVerifiedBatch), [ZERO], Format(u.lastVerifiedBatch), [ZERO]);
    FormatInjective(t.lastVerifiedBatch, u.lastVerifiedBatch);
    MiddleInjective(t, u);
    DecodeEncode(t.zkp.proof);
    DecodeEncode(u.zkp.proof);
  }

  lemma FirstPart(a: Bytes, b: Bytes, a': Bytes, b': Bytes)
    requires a + b == a' + b' && |b| == |b'|
    ensures a == a' && b == b'
  {
    assert (a + b)[..|a|] == a && (a' + b')[..|a'|] == a' && (a + b)[|a|..] == b && (a' + b')[|a'|..] == b';
  }

  lemma FormatInjective(m: nat, n: nat)
    requires Format(m) == Format(n)
    ensures m == n
  {
    ValueFormat(m);
    ValueFormat(n);
  }

  lemma MiddleInjective(t: Tx, u: Tx)
    requires Middle(t) == Middle(u)
    ensures t.newVerifiedBatch == u.newVerifiedBatch
    ensures t.zkp.newStateRoot == u.zkp.newStateRoot && t.zkp.newLocalExitRoot == u.zkp.newLocalExitRoot
  {
    var s: Bytes, e: Bytes := t.zkp.newStateRoot.bytes, t.zkp.newLocalExitRoot.bytes;
    var s': Bytes, e': Bytes := u.zkp.newStateRoot.bytes, u.zkp.newLocalExitRoot.bytes;
    FirstPart(Format(t.newVerifiedBatch), s + e + [ZERO], Format(u.newVerifiedBatch), s' + e' + [ZERO]);
    FormatInjective(t.newVerifiedBatch, u.newVerifiedBatch);
    FirstPart(s + e, [ZERO], s' + e', [ZERO]);
    FirstPart(s, e, s', e');
  }

  lemma LowerIsHex(s: Bytes)
    ensures AllLowerHex(s) ==> AllHex(s)
  {
  }

  lemma PartsOf(t: Tx)
    ensures Preimage(t) ==
            [48, 120] + Format(t.lastVerifiedBatch) + [48, 120] + Format(t.newVerifiedBatch)
            + t.zkp.newStateRoot.bytes + t.zkp.newLocalExitRoot.bytes + [48, 120] + Encode(t.zkp.proof)
  {
    hide Format, Encode, EncodeToHex;
    EncodeToHexPrefixed(t.zkp.proof);
  }

  /** Where each part stands in the hash input: `0x` and the digits of the last batch number, `0x` and those of the
      new one, the 32 bytes of the state root, the 32 bytes of the local exit root, `0x` and the digits of the
      proof. Batch numbers are written in base 16 with no leading zeros, the proof with two digits a byte. */
  lemma PreimageParts(t: Tx) returns (last: Bytes, new_: Bytes, proof: Bytes)
    ensures Preimage(t) ==
            [48, 120] + last + [48, 120] + new_ + t.zkp.newStateRoot.bytes + t.zkp.newLocalExitRoot.bytes
            + [48, 120] + proof
    ensures AllHex(last) && AllLowerHex(last) && last != [] && Value(last) == t.lastVerifiedBatch
    ensures AllHex(new_) && AllLowerHex(new_) && new_ != [] && Value(new_) == t.newVerifiedBatch
    ensures forall s | s != [] && AllHex(s) && AllLowerHex(s) && Value(s) == t.lastVerifiedBatch :: |last| <= |s|
    ensures forall s | s != [] && AllHex(s) && AllLowerHex(s) && Value(s) == t.newVerifiedBatch :: |new_| <= |s|
    ensures |proof| == 2 * |t.zkp.proof| && AllHex(proof) && AllLowerHex(proof)
    ensures forall i | 0 <= i < |t.zkp.proof| :: t.zkp.proof[i] == 16 * Nibble(proof[2 * i]) + Nibble(proof[2 * i + 1])
  {
    last, new_, proof := Format(t.lastVerifiedBatch), Format(t.newVerifiedBatch), Encode(t.zkp.proof);
    hide Preimage, Format, Encode, Value, Nibble, AllHex, AllLowerHex;
    PartsOf(t);
    ValueFormat(t.lastVerifiedBatch);
    ValueFormat(t.newVerifiedBatch);
    LowerIsHex(proof);
    forall s | s != [] && AllHex(s) && AllLowerHex(s) && Value(s) == t.lastVerifiedBatch ensures |last| <= |s| {
      ShortestCorollary(s, t.lastVerifiedBatch);
    }
    forall s | s != [] && AllHex(s) && AllLowerHex(s) && Value(s) == t.newVerifiedBatch ensures |new_| <= |s| {
      ShortestCorollary(s, t.newVerifiedBatch);
    }
    forall i | 0 <= i < |t.zkp.proof|
      ensures t.zkp.proof[i] == 16 * Nibble(proof[2 * i]) + Nibble(proof[2 * i + 1])
    {
      EncodeDigits(t.zkp.proof, i);
    }
  }

  /** Transactions have the same hash input exactly when they agree on everything but the rollup. */
  lemma PreimageIff(t: Tx, u: Tx)
    ensures Preimage(t) == Preimage(u) <==> t.(rollupID := u.rollupID) == u
  {
    if Preimage(t) == Preimage(u) {
      PreimageInjective(t, u);
    }
    assert Preimage(t.(rollupID := u.rollupID)) == Preimage(t);
  }
}
