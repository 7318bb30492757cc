/** The submission endpoint: rpc/rpc.go and interop/executor.go. */
module Submit {
  import opened Basics
  import opened Records
  import opened Hex
  import opened Args
  import opened TxHash
  import opened Proof
  import opened Nonces
  import opened Storage
  import opened Manager
  import Monitor
  import C = Client
  import GasPrice

  datatype SignedTx = SignedTx(tx: Tx, signature: Bytes)

  datatype Batch = Batch(stateRoot: Hash, localExitRoot: Hash)

  datatype Config = Config(fullNodeRPCs: map<nat, string>, proofSigners: map<nat, Address>,
                           interopAdmin: Address, rollupManager: Address, gasOffset: uint64)

  /** A refused commit left nothing; one in doubt reports an error although the row is there. */
  datatype CommitAnswer = Committed | CommitRefused | CommitInDoubt

  /** The arguments of `verifyBatchesTrustedAggregator`, in their order. */
  datatype VerifyCall = VerifyCall(rollupID: nat, pendingState: uint64, lastBatch: uint64, newBatch: uint64,
                                   localExitRoot: Bytes32, stateRoot: Bytes32, beneficiary: Address, proof: Proof)

  /** Foreign answers. Hashing, signature recovery and ABI packing are functions; the others depend on the
      moment they are asked. */
  datatype Env = Env(
    keccak: Bytes -> Bytes32,
    recover: (Hash, Bytes) -> Result<Address>,
    pack: (nat, VerifyCall) -> Result<Bytes>,
    callContract: (nat, Address, Address, Bytes) -> bool,
    sequencer: (nat, nat) -> Result<Address>,
    batchByNumber: (nat, string, int) -> Result<Option<Batch>>,
    begin: nat -> bool,
    commit: nat -> CommitAnswer,
    rollback: nat -> bool)

  /** `Tx.Hash`. */
  function HashOf(env: Env, t: Tx): Hash {
    Hash(env.keccak(Preimage(t)))
  }

  /** Keccak-256 has no collisions on the byte strings hashed here. */
  ghost predicate CollisionFree(env: Env) {
    forall a: Bytes, b: Bytes :: env.keccak(a) == env.keccak(b) ==> a == b
  }

  lemma HashFollows(env: Env, t: Tx, u: Tx)
    requires t.(rollupID := u.rollupID) == u
    ensures HashOf(env, t) == HashOf(env, u)
  {
    PreimageIff(t, u);
  }

  /** Submissions have the same hash, and the same row, exactly when they agree on everything but the rollup. */
  lemma HashIff(env: Env, t: Tx, u: Tx)
    requires CollisionFree(env)
    ensures HashOf(env, t) == HashOf(env, u) <==> t.(rollupID := u.rollupID) == u
    ensures InteropKey(HashOf(env, t)) == InteropKey(HashOf(env, u)) <==> t.(rollupID := u.rollupID) == u
  {
    hide Preimage, InteropKey;
    PreimageIff(t, u);
    if InteropKey(HashOf(env, t)) == InteropKey(HashOf(env, u)) {
      InteropKeyInjective(HashOf(env, t), HashOf(env, u));
    }
  }

  /** What is hashed, part by part. */
  lemma HashedBytes(env: Env, t: Tx) returns (last: Bytes, new_: Bytes, proof: Bytes)
    ensures HashOf(env, t) ==
            Hash(env.keccak([48, 120] + last + [48, 120] + new_ + t.zkp.newStateRoot.bytes
                            + t.zkp.newLocalExitRoot.bytes + [48, 120] + proof))
    ensures AllHex(last) && AllLowerHex(last) && last != [] && Value(last) == t.lastVerifiedBatch
    ensures AllHex(new_) && AllLowerHex(new_) && new_ != [] && Value(new_) == t.newVerifiedBatch
    ensures |proof| == 2 * |t.zkp.proof| && AllHex(proof) && AllLowerHex(proof)
    ensures forall i | 0 <= i < |t.zkp.proof| :: t.zkp.proof[i] == 16 * Nibble(proof[2 * i]) + Nibble(proof[2 * i + 1])
  {
    hide Preimage;
    last, new_, proof := PreimageParts(t);
  }

  /** The row of a hash: owner "interop", and as id `0x` and the 64 digits of the hash. */
  lemma InteropKeyText(h: Hash, i: nat)
    requires i < 32
    ensures
      var k := InteropKey(h);
      && k.owner == "interop" && |k.id| == 66 && k.id[0] == '0' && k.id[1] == 'x'
      && var c, d := k.id[2 + 2 * i] as int, k.id[3 + 2 * i] as int;
      && c < 256 && d < 256 && IsLowerHex(c) && IsLowerHex(d)
      && h.bytes[i] == 16 * Nibble(c) + Nibble(d)
  {
    EncodeDigits(h.bytes, i);
    var text := HashText(h);
    assert text[2 + 2 * i] == Encode(h.bytes)[2 * i] && text[3 + 2 * i] == Encode(h.bytes)[2 * i + 1];
  }

  function Ascii(b: Bytes): (s: string)
    ensures |s| == |b| && forall i | 0 <= i < |b| :: s[i] as int == b[i]
  {
    seq(|b|, i requires 0 <= i < |b| => b[i] as char)
  }

  function InteropKey(h: Hash): Key {
    Key("interop", Ascii(HashText(h)))
  }

  /** Different hashes have different rows. */
  lemma InteropKeyInjective(g: Hash, h: Hash)
    requires InteropKey(g) == InteropKey(h)
    ensures g == h
  {
    hide HashText;
    var s, t := HashText(g), HashText(h);
    assert |s| == |Ascii(s)| == |Ascii(t)| == |t|;
    assert forall i | 0 <= i < |s| :: s[i] == Ascii(s)[i] as int == Ascii(t)[i] as int == t[i];
    assert s == t;
    HashRoundTrip(g);
    HashRoundTrip(h);
  }

  /** The Go conversion `int64(n)`. */
  function Int64(n: uint64): int {
    if n < TWO_63 then n else n - TWO_64
  }

  // ----- The gates

  predicate Registered(cfg: Config, t: SignedTx) {
    t.tx.rollupID in cfg.fullNodeRPCs
  }

  /** A Go map lookup: the empty address for a rollup without an entry. */
  function NodeOf(cfg: Config, t: SignedTx): string {
    if t.tx.rollupID in cfg.fullNodeRPCs then cfg.fullNodeRPCs[t.tx.rollupID] else ""
  }

  /** L1 accepted, at some moment, a call of the rollup manager by the interop account with the call data of the
      submission. */
  ghost predicate ProofAccepted(cfg: Config, env: Env, t: SignedTx) {
    exists n: nat, m: nat, data: Bytes {:trigger DataAt(env, n, t, data), CallAccepted(cfg, env, m, data)} ::
      DataAt(env, n, t, data) && CallAccepted(cfg, env, m, data)
  }

  ghost predicate CallAccepted(cfg: Config, env: Env, n: nat, data: Bytes) {
    env.callContract(n, cfg.interopAdmin, cfg.rollupManager, data)
  }

  /** `BuildTrustedVerifyBatchesTxData` in calls `n` and `n + 1`: the sequencer is asked for, and the call packs the
      numbers, roots and words of the submission. */
  ghost predicate DataAt(env: Env, n: nat, t: SignedTx, data: Bytes) {
    exists sequencer: Address, words: Proof ::
      && env.sequencer(n, t.tx.rollupID) == Ok(sequencer)
      && Flat(words) == t.tx.zkp.proof
      && env.pack(n + 1, VerifyCall(t.tx.rollupID, 0, t.tx.lastVerifiedBatch, t.tx.newVerifiedBatch,
                                    t.tx.zkp.newLocalExitRoot.bytes, t.tx.zkp.newStateRoot.bytes,
                                    sequencer, words)) == Ok(data)
  }

  /** Signed by the configured proof signer or, without one, by the sequencer L1 named at some moment. */
  ghost predicate SignerAuthorized(cfg: Config, env: Env, t: SignedTx) {
    var signer := env.recover(HashOf(env, t.tx), t.signature);
    && signer.Ok?
    && if t.tx.rollupID in cfg.proofSigners then cfg.proofSigners[t.tx.rollupID] == signer.value
       else exists n: nat :: env.sequencer(n, t.tx.rollupID) == signer
  }

  /** The node reported exactly the roots of `t` when asked for batch `number`. */
  ghost predicate Reports(env: Env, node: string, number: int, t: SignedTx) {
    exists n: nat ::
      env.batchByNumber(n, node, number) == Ok(Some(Batch(t.tx.zkp.newStateRoot, t.tx.zkp.newLocalExitRoot)))
  }

  ghost predicate RootsReported(cfg: Config, env: Env, t: SignedTx, number: int) {
    Reports(env, if t.tx.rollupID in cfg.fullNodeRPCs then cfg.fullNodeRPCs[t.tx.rollupID] else "", number, t)
  }

  ghost predicate RootsMatch(cfg: Config, env: Env, t: SignedTx) {
    RootsReported(cfg, env, t, NumberAsked(t))
  }

  /** The batch number as a signed 64-bit integer. */
  ghost function NumberAsked(t: SignedTx): int {
    if t.tx.newVerifiedBatch < TWO_63 then t.tx.newVerifiedBatch else t.tx.newVerifiedBatch - TWO_64
  }

  /** The root gate compares with the batch that the transaction names, in every environment, exactly if the
      batch number is below 2^63; above, the node is asked for a negative number. */
  lemma RootGateIff(cfg: Config, env: Env, t: SignedTx)
    ensures (forall e: Env :: RootsMatch(cfg, e, t) <==> RootsReported(cfg, e, t, t.tx.newVerifiedBatch))
            <==> t.tx.newVerifiedBatch < TWO_63
  {
    var number := t.tx.newVerifiedBatch;
    if number >= TWO_63 {
      var right := Batch(t.tx.zkp.newStateRoot, t.tx.zkp.newLocalExitRoot);
      var e := env.(batchByNumber := (n: nat, url: string, b: int) => if b < 0 then Ok(Some(right)) else Err);
      assert NumberAsked(t) < 0;
      assert e.batchByNumber(0, NodeOf(cfg, t), NumberAsked(t)) == Ok(Some(right));
      assert RootsMatch(cfg, e, t) && !RootsReported(cfg, e, t, number);
    }
  }

  ghost predicate Passed(cfg: Config, env: Env, t: SignedTx) {
    Registered(cfg, t) && ProofAccepted(cfg, env, t) && SignerAuthorized(cfg, env, t) && RootsMatch(cfg, env, t)
  }

  /** The row carries the call data of the transaction to the rollup manager. */
  ghost predicate RowFor(cfg: Config, env: Env, t: SignedTx, r: MonitoredTx) {
    && r.PrimaryKey() == InteropKey(HashOf(env, t.tx))
    && r.from == cfg.interopAdmin && r.to == Some(cfg.rollupManager) && r.value == Some(0)
    && r.gasOffset == cfg.gasOffset
    && exists n: nat, data: Bytes :: DataAt(env, n, t, data) && r.data == Some(data)
  }

  lemma RowForPersisted(cfg: Config, env: Env, t: SignedTx, m: MonitoredTx)
    requires RowFor(cfg, env, t, m)
    ensures RowFor(cfg, env, t, Persisted(m))
  {
  }

  /** Monitoring does not touch what a row is for. */
  lemma RowForSwept(cfg: Config, env: Env, mcfg: Monitor.Config, t: SignedTx, table: Table,
                    visits: seq<C.Visit>, k: Key)
    requires k in table && RowFor(cfg, env, t, table[k])
    ensures k in C.Swept(mcfg, table, visits) && RowFor(cfg, env, t, C.Swept(mcfg, table, visits)[k])
  {
    hide HashOf, InteropKey, DataAt, C.Swept;
    C.SweptCargo(mcfg, table, visits, k);
  }

  /** What the process is asked to do: a submission, a query, or the next monitoring cycle. */
  datatype Request = Send(tx: SignedTx) | AskStatus(hash: Hash) | MonitorCycle

  /** The row with key `k` stems from one of these submissions, which passed all gates. */
  ghost predicate SubmittedIn(cfg: Config, env: Env, requests: seq<Request>, k: Key) {
    exists i | 0 <= i < |requests| ::
      requests[i].Send? && Passed(cfg, env, requests[i].tx) && k == InteropKey(HashOf(env, requests[i].tx.tx))
  }

  class InteropEndpoints {
    const cfg: Config
    const env: Env
    const manager: C.Client
    var calls: nat

    /** The submission behind each row. */
    ghost var origin: map<Key, SignedTx>

    constructor (cfg: Config, env: Env, manager: C.Client)
      requires manager.storage.Valid() && manager.storage.Contents() == map[]
      ensures this.cfg == cfg && this.env == env && this.manager == manager && Vetted()
    {
      this.cfg, this.env, this.manager := cfg, env, manager;
      calls, origin := 0, map[];
    }

    /** Every committed row was created by a submission that passed all gates, and carries its call data. */
    ghost predicate Vetted()
      reads `origin, manager.storage`rows
    {
      && manager.storage.Valid()
      && forall k | k in manager.storage.Contents() ::
           && k in origin
           && Passed(cfg, env, origin[k])
           && k == InteropKey(HashOf(env, origin[k].tx))
           && RowFor(cfg, env, origin[k], manager.storage.Contents()[k])
    }

    /** A row stems from a submission that agrees with `t` on everything but the rollup. */
    ghost predicate Accepted(t: Tx)
      requires Vetted()
      reads `origin, manager.storage`rows
    {
      exists k | k in manager.storage.Contents() :: origin[k].tx.(rollupID := t.rollupID) == t
    }

    /** Every gate is open to `t` and nothing fails. */
    ghost predicate Favourable(t: SignedTx) {
      && Registered(cfg, t)
      && (|t.tx.zkp.proof| == 768 && forall n: nat, call: VerifyCall :: env.pack(n, call).Ok?)
      && (forall n: nat :: env.sequencer(n, t.tx.rollupID).Ok?)
      && (forall n: nat, data: Bytes :: env.callContract(n, cfg.interopAdmin, cfg.rollupManager, data))
      && env.recover(HashOf(env, t.tx), t.signature).Ok?
      && (if t.tx.rollupID in cfg.proofSigners
          then Ok(cfg.proofSigners[t.tx.rollupID]) == env.recover(HashOf(env, t.tx), t.signature)
          else forall n: nat :: env.sequencer(n, t.tx.rollupID) == env.recover(HashOf(env, t.tx), t.signature))
      && (forall n: nat :: env.batchByNumber(n, cfg.fullNodeRPCs[t.tx.rollupID], NumberAsked(t)) ==
                      Ok(Some(Batch(t.tx.zkp.newStateRoot, t.tx.zkp.newLocalExitRoot))))
      && (forall n: nat :: env.begin(n) && env.commit(n) == Committed)
      && (forall data: Bytes ::
            manager.ObligingPrices(cfg.interopAdmin, Some(cfg.rollupManager), Some(0), Some(data)))
    }

    /** `BuildTrustedVerifyBatchesTxData`. */
    method BuildData(t: SignedTx) returns (r: Result<Bytes>)
      modifies `calls
      ensures r.Ok? ==> exists n: nat :: DataAt(env, n, t, r.value)
      ensures Favourable(t) ==> r.Ok?
    {
      hide ProofOfBytes, ProofOfText, EncodeToHex, HashOf, Flat;
      var proof := ConvertProof(EncodeToHex(t.tx.zkp.proof));
      DecodersAgree(t.tx.zkp.proof, proof);
      if proof.Err? {
        return Err;
      }
      FlatWords(t.tx.zkp.proof);
      var sequencer := env.sequencer(calls, t.tx.rollupID);
      calls := calls + 1;
      if sequencer.Err? {
        return Err;
      }
      r := env.pack(calls, VerifyCall(t.tx.rollupID, 0, t.tx.lastVerifiedBatch, t.tx.newVerifiedBatch,
                                      t.tx.zkp.newLocalExitRoot.bytes, t.tx.zkp.newStateRoot.bytes,
                                      sequencer.value, proof.value));
      assert r.Ok? ==> DataAt(env, calls - 1, t, r.value);
      calls := calls + 1;
    }

    /** `CheckTx`. */
    method CheckTx(t: SignedTx) returns (ok: bool)
      ensures ok <==> Registered(cfg, t)
      ensures Favourable(t) ==> ok
    {
      return t.tx.rollupID in cfg.fullNodeRPCs;
    }

    /** `verifyZKP`. */
    method VerifyZKP(t: SignedTx) returns (ok: bool)
      modifies `calls
      ensures ok ==> ProofAccepted(cfg, env, t)
      ensures Favourable(t) ==> ok
    {
      hide DataAt, HashOf;
      var data := BuildData(t);
      if data.Err? {
        return false;
      }
      ok := env.callContract(calls, cfg.interopAdmin, cfg.rollupManager, data.value);
      assert ok ==> CallAccepted(cfg, env, calls, data.value);
      calls := calls + 1;
    }

    /** `verifySignature`. */
    method VerifySignature(t: SignedTx) returns (ok: bool)
      modifies `calls
      ensures ok ==> SignerAuthorized(cfg, env, t)
      ensures t.tx.rollupID in cfg.proofSigners ==> (ok <==> SignerAuthorized(cfg, env, t))
      ensures Favourable(t) ==> ok
    {
      hide HashOf;
      var signer := env.recover(HashOf(env, t.tx), t.signature);
      if signer.Err? {
        return false;
      }
      if t.tx.rollupID in cfg.proofSigners {
        return cfg.proofSigners[t.tx.rollupID] == signer.value;
      }
      var sequencer := env.sequencer(calls, t.tx.rollupID);
      ok := sequencer == signer;
      calls := calls + 1;
    }

    /** `Verify`. */
    method Verify(t: SignedTx) returns (ok: bool)
      modifies `calls
      ensures ok ==> ProofAccepted(cfg, env, t) && SignerAuthorized(cfg, env, t)
      ensures Favourable(t) ==> ok
    {
      hide *;
      ok := VerifyZKP(t);
      if !ok {
        return false;
      }
      ok := VerifySignature(t);
    }

    /** `Execute`. */
    method Execute(t: SignedTx) returns (ok: bool)
      modifies `calls
      ensures ok ==> RootsMatch(cfg, env, t)
      ensures Favourable(t) ==> ok
    {
      hide HashOf;
      assert Int64(t.tx.newVerifiedBatch) == NumberAsked(t);
      assert Registered(cfg, t) ==> NodeOf(cfg, t) == cfg.fullNodeRPCs[t.tx.rollupID];
      var batch := env.batchByNumber(calls, NodeOf(cfg, t), Int64(t.tx.newVerifiedBatch));
      ok := batch.Ok? && batch.value.Some? && batch.value.value.stateRoot == t.tx.zkp.newStateRoot
            && batch.value.value.localExitRoot == t.tx.zkp.newLocalExitRoot;
      assert ok ==> batch == Ok(Some(Batch(t.tx.zkp.newStateRoot, t.tx.zkp.newLocalExitRoot)));
      calls := calls + 1;
    }

    /** `Settle` inside the database transaction. */
    method Settle(t: SignedTx) returns (ok: bool, ghost m: Option<MonitoredTx>)
      requires manager.storage.Valid()
      modifies `calls, manager`calls, manager.storage
      ensures manager.storage.Valid()
      ensures ok ==> m.Some?
      ensures manager.storage.Contents() ==
              if m.Some? then old(manager.storage.Contents())[InteropKey(HashOf(env, t.tx)) := Persisted(m.value)]
              else old(manager.storage.Contents())
      ensures m.Some? ==>
                && InteropKey(HashOf(env, t.tx)) !in old(manager.storage.Contents())
                && Blank(m.value) && RowFor(cfg, env, t, m.value)
      ensures Favourable(t) && InteropKey(HashOf(env, t.tx)) !in old(manager.storage.Contents()) ==> ok
    {
      hide PostgresStorage.Valid, PostgresStorage.Contents, DataAt, HashOf, Persisted, GasPrice.Adjusted;
      m := None;
      var data := BuildData(t);
      if data.Err? {
        return false, m;
      }
      var key := InteropKey(HashOf(env, t.tx));
      ok, m := manager.Add(key.owner, key.id, cfg.interopAdmin, Some(cfg.rollupManager), Some(0), Some(data.value),
                           cfg.gasOffset);
    }

    /** `SendTx`. A call that nothing stands against succeeds. A call that fails leaves the committed table
        unchanged, unless its commit is in doubt; a call adds at most the one row of its hash, and only after
        passing the node, proof, signer and root gates; a hash that has a row is refused. For a rollup without a
        registered node nobody is asked anything. */
    method SendTx(t: SignedTx) returns (r: Result<Hash>, ghost inDoubt: bool)
      requires Vetted()
      modifies `calls, `origin, manager`calls, manager.storage
      ensures Vetted()
      ensures r.Err? && !inDoubt ==> manager.storage.Contents() == old(manager.storage.Contents())
      ensures r.Ok? || inDoubt ==>
                && Passed(cfg, env, t)
                && var k := InteropKey(HashOf(env, t.tx));
                && k !in old(manager.storage.Contents())
                && exists m :: Blank(m) && RowFor(cfg, env, t, m)
                               && manager.storage.Contents() == old(manager.storage.Contents())[k := Persisted(m)]
      ensures r.Ok? || inDoubt ==>
                && t.tx.rollupID in cfg.fullNodeRPCs
                && var number := t.tx.newVerifiedBatch;
                   Reports(env, cfg.fullNodeRPCs[t.tx.rollupID],
                           if number < TWO_63 then number else number - TWO_64, t)
      ensures origin == if r.Ok? || inDoubt then old(origin)[InteropKey(HashOf(env, t.tx)) := t] else old(origin)
      ensures old(Accepted(t.tx)) ==> r.Err? && !inDoubt
      ensures !old(Accepted(t.tx)) && CollisionFree(env) && Favourable(t) ==> r.Ok?
      ensures r.Ok? ==> r.value == HashOf(env, t.tx)
      ensures InteropKey(HashOf(env, t.tx)) in old(manager.storage.Contents()) ==> r.Err? && !inDoubt
      ensures !Registered(cfg, t) ==> r.Err? && !inDoubt && calls == old(calls) && manager.calls == old(manager.calls)
      ensures Favourable(t) && InteropKey(HashOf(env, t.tx)) !in old(manager.storage.Contents()) ==> r.Ok?
    {
      hide Vetted, Favourable, ProofAccepted, SignerAuthorized, RootsMatch, HashOf, InteropKey, RowFor, Persisted;
      hide Reports, Registered, CollisionFree, Accepted;
      KeyTaken(t);
      RegisteredRoots(t);
      hide PostgresStorage.Valid, PostgresStorage.Contents;
      inDoubt := false;
      var ok := CheckTx(t);
      if !ok {
        return Err, inDoubt;
      }
      ok := Verify(t);
      if !ok {
        return Err, inDoubt;
      }
      ok := Execute(t);
      if !ok {
        return Err, inDoubt;
      }
      r, inDoubt := Commit(t);
    }

    /** The database transaction of `SendTx`. */
    method Commit(t: SignedTx) returns (r: Result<Hash>, ghost inDoubt: bool)
      requires Vetted() && Passed(cfg, env, t)
      modifies `calls, `origin, manager`calls, manager.storage
      ensures Vetted()
      ensures origin == if r.Ok? || inDoubt then old(origin)[InteropKey(HashOf(env, t.tx)) := t] else old(origin)
      ensures r.Err? && !inDoubt ==> manager.storage.Contents() == old(manager.storage.Contents())
      ensures r.Ok? || inDoubt ==>
                && var k := InteropKey(HashOf(env, t.tx));
                && k !in old(manager.storage.Contents())
                && exists m :: Blank(m) && RowFor(cfg, env, t, m)
                               && manager.storage.Contents() == old(manager.storage.Contents())[k := Persisted(m)]
      ensures r.Ok? ==> r.value == HashOf(env, t.tx)
      ensures InteropKey(HashOf(env, t.tx)) in old(manager.storage.Contents()) ==> r.Err? && !inDoubt
      ensures Favourable(t) && InteropKey(HashOf(env, t.tx)) !in old(manager.storage.Contents()) ==> r.Ok?
    {
      hide Passed, Favourable, PostgresStorage.Valid, PostgresStorage.Contents, HashOf, InteropKey, RowFor, Persisted;
      NothingFails(t);
      inDoubt := false;
      var begun := env.begin(calls);
      calls := calls + 1;
      if !begun {
        return Err, inDoubt;
      }
      var snapshot := manager.storage.rows;
      ghost var table := manager.storage.Contents();
      var settled, m := Settle(t);
      if !settled {
        manager.storage.Restore(snapshot);
        return Err, inDoubt;
      }
      var answer := env.commit(calls);
      calls := calls + 1;
      if answer == CommitRefused {
        manager.storage.Restore(snapshot);
        return Err, inDoubt;
      }
      var k := InteropKey(HashOf(env, t.tx));
      RowForPersisted(cfg, env, t, m.value);
      origin := origin[k := t];
      inDoubt := answer == CommitInDoubt;
      r := if answer == Committed then Ok(HashOf(env, t.tx)) else Err;
    }

    /** Whether the key of a submission is taken, in terms of the submissions behind the rows. */
    lemma KeyTaken(t: SignedTx)
      requires Vetted()
      ensures Accepted(t.tx) ==> InteropKey(HashOf(env, t.tx)) in manager.storage.Contents()
      ensures !Accepted(t.tx) && CollisionFree(env) ==> InteropKey(HashOf(env, t.tx)) !in manager.storage.Contents()
    {
      hide HashOf, InteropKey, Passed, RowFor, CollisionFree;
      if k :| k in manager.storage.Contents() && origin[k].tx.(rollupID := t.tx.rollupID) == t.tx {
        HashFollows(env, origin[k].tx, t.tx);
      }
      var key := InteropKey(HashOf(env, t.tx));
      if CollisionFree(env) && key in manager.storage.Contents() {
        HashIff(env, origin[key].tx, t.tx);
      }
    }

    lemma RegisteredRoots(t: SignedTx)
      ensures Passed(cfg, env, t) ==>
                && t.tx.rollupID in cfg.fullNodeRPCs
                && var number := t.tx.newVerifiedBatch;
                   Reports(env, cfg.fullNodeRPCs[t.tx.rollupID],
                           if number < TWO_63 then number else number - TWO_64, t)
    {
      hide ProofAccepted, SignerAuthorized;
    }

    lemma NothingFails(t: SignedTx)
      ensures Favourable(t) ==> forall n: nat :: env.begin(n) && env.commit(n) == Committed
    {
    }

    /** Neither the database nor L1 fails a query for the status of this row. */
    ghost predicate Answering(k: Key)
      requires manager.storage.Valid()
      reads manager.storage`rows
    {
      && (forall n: nat :: env.begin(n) && env.rollback(n) && !manager.storage.outages(n))
      && (k in manager.storage.Contents() ==>
            forall n: nat, h | h in manager.storage.Contents()[k].history :: !C.QueryFailsAt(manager.l1, n, h))
    }

    /** `GetTxStatus`: reads only, and a failed rollback overrides the answer. */
    method GetTxStatus(hash: Hash) returns (r: Result<Status>)
      requires Vetted()
      modifies `calls, manager`calls, manager.storage`calls
      ensures Vetted() && manager.storage.Contents() == old(manager.storage.Contents())
      ensures r.Ok? ==>
                var k := InteropKey(hash);
                k in manager.storage.Contents() && r.value == manager.storage.Contents()[k].status
      ensures Answering(InteropKey(hash)) ==> (r.Ok? <==> InteropKey(hash) in manager.storage.Contents())
    {
      hide Passed, HashOf, InteropKey, RowFor, PostgresStorage.Valid, PostgresStorage.Contents, C.QueryFailsAt;
      var begun := env.begin(calls);
      calls := calls + 1;
      if !begun {
        return Err;
      }
      var k := InteropKey(hash);
      var result := manager.ResultOf(k.owner, k.id);
      r := if result.Ok? then Ok(result.value.status) else Err;
      var rolledBack := env.rollback(calls);
      calls := calls + 1;
      if !rolledBack {
        r := Err;
      }
    }

    /** A monitoring cycle creates no row and leaves what every row is for. */
    method Monitor()
      requires Vetted()
      modifies manager, manager.storage
      ensures Vetted() && manager.storage.Contents().Keys == old(manager.storage.Contents()).Keys
    {
      hide Passed, HashOf, InteropKey, RowFor, PostgresStorage.Valid, PostgresStorage.Contents;
      ghost var table := manager.storage.Contents();
      var ok, visits := manager.MonitorTxs();
      if ok {
        C.SweptKeys(manager.cfg, table, visits);
        forall k | k in table ensures RowFor(cfg, env, origin[k], manager.storage.Contents()[k]) {
          RowForSwept(cfg, env, manager.cfg, origin[k], table, visits, k);
        }
      }
    }

    /** The process at work: submissions, queries and monitoring cycles in any order. No row is ever lost, every
        row is that of a submission that passed all gates and still carries its call data, and every new one was
        submitted among these requests. */
    method Serve(requests: seq<Request>)
      requires Vetted()
      modifies `calls, `origin, manager, manager.storage
      ensures Vetted()
      ensures old(manager.storage.Contents()).Keys <= manager.storage.Contents().Keys
      ensures forall k | k in manager.storage.Contents() && k !in old(manager.storage.Contents()) ::
                SubmittedIn(cfg, env, requests, k)
    {
      hide Vetted, Passed, HashOf, InteropKey, RowFor, PostgresStorage.Valid, PostgresStorage.Contents, Persisted;
      VettedValid();
      ghost var table := manager.storage.Contents();
      for i := 0 to |requests|
        invariant Vetted() && manager.storage.Valid()
        invariant table.Keys <= manager.storage.Contents().Keys
        invariant forall k | k in manager.storage.Contents() && k !in table :: SubmittedIn(cfg, env, requests, k)
      {
        match requests[i] {
          case Send(tx) =>
            var _, _ := SendTx(tx);
            VettedValid();
          case AskStatus(hash) =>
            var _ := GetTxStatus(hash);
            VettedValid();
          case MonitorCycle =>
            Monitor();
            VettedValid();
        }
      }
    }

    lemma VettedValid()
      requires Vetted()
      ensures manager.storage.Valid()
    {
    }
  }
}
