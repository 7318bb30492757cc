/** What every step of a goroutine keeps true of its record. */
module Invariants {
  import opened Basics
  import opened Records
  import opened Monitor
  import opened Lanes
  import GasPrice

  // ----- Write-ahead history

  /** Every hash given to L1 is in the persisted history, and a Sent row has an accepted one. */
  ghost predicate WriteAhead(l: Lane) {
    && l.accepted <= l.handed <= l.row.history
    && (l.row.status == Sent ==> l.accepted != {})
    && (l.task.Some? && l.task.value.pc.Sending? ==> l.task.value.pc.hash in l.handed)
    && (l.task.Some? && l.task.value.pc.SavingSent? ==> l.task.value.pc.hash in l.accepted)
  }

  lemma WriteAheadStep(cfg: Config, content: Content, chain: Chain, l: Lane, e: Event, l': Lane)
    requires Synced(cfg, l) && WriteAhead(l) && LaneStep(cfg, content, chain, l, e, l')
    ensures WriteAhead(l')
  {
    hide Synced, WriteAhead, LaneNext, Truthful;
    if e.Wrote? {
      WriteAheadWrite(cfg, content, chain, l, e.write);
    } else {
      WriteAheadRest(cfg, l, e);
    }
  }

  lemma WriteAheadWrite(cfg: Config, content: Content, chain: Chain, l: Lane, w: WriteAnswer)
    requires Synced(cfg, l) && WriteAhead(l) && LaneStep(cfg, content, chain, l, Wrote(w), LaneNext(cfg, l, Wrote(w)))
    ensures WriteAhead(LaneNext(cfg, l, Wrote(w)))
  {
    EvolvesStep(cfg, content, chain, l, Wrote(w), LaneNext(cfg, l, Wrote(w)));
  }

  lemma WriteAheadRest(cfg: Config, l: Lane, e: Event)
    requires Synced(cfg, l) && WriteAhead(l) && l.task.Some? && Fits(l.task.value.pc, e) && !e.Wrote?
    ensures WriteAhead(LaneNext(cfg, l, e))
  {
    hide GasPrice.Adjusted;
  }

  // ----- Retry accounting

  /** Attempts a copy at `pc` has counted beyond its history and the persisted failed reviews. */
  function Uncounted(pc: Pc): nat {
    if pc.SavingFailedReview? then 1 else 0
  }

  /** Program points reached only below the retry limit, with the next attempt not yet counted. */
  predicate BelowLimit(pc: Pc) {
    pc.EstimatingGas? || pc.SuggestingPrice? || pc.SavingReview? || pc.Signing?
  }

  ghost predicate RetriesCounted(cfg: Config, l: Lane) {
    && l.row.numRetries == |l.row.history| + l.failedReviews
    && l.row.numRetries <= cfg.maxRetries
    && (l.task.Some? && !l.task.value.pc.Finished? ==>
          var t := l.task.value;
          && t.mTx.numRetries == |t.mTx.history| + l.failedReviews + Uncounted(t.pc)
          && t.mTx.numRetries <= cfg.maxRetries
          && (BelowLimit(t.pc) ==> t.mTx.numRetries < cfg.maxRetries))
  }

  /** On counted records the zero-retries rule changes nothing. */
  lemma NormalisedIdentity(cfg: Config, l: Lane)
    requires RetriesCounted(cfg, l)
    ensures Normalised(l.row) == l.row
  {
  }

  lemma RetriesOpened(cfg: Config, l: Lane)
    requires RetriesCounted(cfg, l)
    ensures RetriesCounted(cfg, Opened(cfg, l))
  {
  }

  lemma RetriesStep(cfg: Config, content: Content, chain: Chain, l: Lane, e: Event, l': Lane)
    requires RetriesCounted(cfg, l) && LaneStep(cfg, content, chain, l, e, l')
    ensures RetriesCounted(cfg, l')
  {
    hide RetriesCounted, LaneNext;
    if e.CheckedMined? {
      RetriesCheck(cfg, l, e.hash, e.check);
    } else if e.Wrote? {
      RetriesWrite(cfg, l, e.write);
    } else if ReviewAnswer(e) {
      RetriesReview(cfg, l, e);
    } else {
      RetriesRest(cfg, l, e);
    }
  }

  lemma RetriesReview(cfg: Config, l: Lane, e: Event)
    requires RetriesCounted(cfg, l) && l.task.Some? && Fits(l.task.value.pc, e) && ReviewAnswer(e)
    ensures RetriesCounted(cfg, LaneNext(cfg, l, e))
  {
  }

  lemma RetriesRest(cfg: Config, l: Lane, e: Event)
    requires RetriesCounted(cfg, l) && l.task.Some? && Fits(l.task.value.pc, e)
    requires !e.CheckedMined? && !e.Wrote? && !ReviewAnswer(e)
    ensures RetriesCounted(cfg, LaneNext(cfg, l, e))
  {
    if e.Signed? {
      RetriesSigned(cfg, l, e.signed);
    }
  }

  lemma RetriesSigned(cfg: Config, l: Lane, s: Result<Hash>)
    requires RetriesCounted(cfg, l) && l.task.Some? && Fits(l.task.value.pc, Signed(s))
    ensures RetriesCounted(cfg, LaneNext(cfg, l, Signed(s)))
  {
  }

  lemma RetriesCheck(cfg: Config, l: Lane, h: Hash, check: CheckAnswer)
    requires RetriesCounted(cfg, l) && l.task.Some? && Fits(l.task.value.pc, CheckedMined(h, check))
    ensures RetriesCounted(cfg, LaneNext(cfg, l, CheckedMined(h, check)))
  {
  }

  lemma RetriesWrite(cfg: Config, l: Lane, w: WriteAnswer)
    requires RetriesCounted(cfg, l) && l.task.Some? && Fits(l.task.value.pc, Wrote(w))
    ensures RetriesCounted(cfg, LaneNext(cfg, l, Wrote(w)))
  {
  }

  // ----- Terminal statuses are backed by L1

  ghost predicate ConfirmedOnL1(chain: Chain, r: MonitoredTx) {
    exists h | h in r.history ::
      && Succeeded(chain, h)
      && r.blockNumber == Some(Low64(chain.mined[h].block))
      && Low64(chain.mined[h].block) <= chain.head
  }

  ghost predicate RevertedOnL1(chain: Chain, r: MonitoredTx) {
    exists h | h in r.history :: Reverted(chain, h) && r.blockNumber == Some(Low64(chain.mined[h].block))
  }

  ghost predicate Backed(cfg: Config, chain: Chain, l: Lane) {
    && (l.row.status == Confirmed ==> ConfirmedOnL1(chain, l.row))
    && (l.row.status == Failed ==> l.row.numRetries >= cfg.maxRetries || RevertedOnL1(chain, l.row))
    && (l.task.Some? ==> InHand(chain, l.task.value.pc))
  }

  /** The receipt a goroutine works with is the one L1 keeps for the hash. */
  ghost predicate InHand(chain: Chain, pc: Pc) {
    && (pc.CheckingHead? || pc.LookingUpFailed? || pc.AskingRevert? || pc.SavingOutcome? ==>
          pc.hash in chain.mined && chain.mined[pc.hash] == pc.receipt)
    && (pc.SavingOutcome? && pc.receipt.success ==> Low64(pc.receipt.block) <= chain.head)
  }

  lemma BackedStep(cfg: Config, content: Content, chain: Chain, l: Lane, e: Event, l': Lane)
    requires Synced(cfg, l) && Backed(cfg, chain, l) && LaneStep(cfg, content, chain, l, e, l')
    ensures Backed(cfg, chain, l')
  {
    hide Synced, Backed, LaneNext;
    if e.Wrote? {
      BackedWrite(cfg, chain, l, e.write);
    } else {
      BackedRest(cfg, content, chain, l, e);
    }
  }

  lemma BackedRest(cfg: Config, content: Content, chain: Chain, l: Lane, e: Event)
    requires Synced(cfg, l) && Backed(cfg, chain, l) && !e.Wrote?
    requires l.task.Some? && Fits(l.task.value.pc, e) && Truthful(content, chain, l.task.value, e)
    ensures Backed(cfg, chain, LaneNext(cfg, l, e))
  {
    hide ConfirmedOnL1, RevertedOnL1, TaskSynced;
  }

  lemma BackedWrite(cfg: Config, chain: Chain, l: Lane, w: WriteAnswer)
    requires Synced(cfg, l) && Backed(cfg, chain, l) && l.task.Some? && Fits(l.task.value.pc, Wrote(w))
    ensures Backed(cfg, chain, LaneNext(cfg, l, Wrote(w)))
  {
    var t := l.task.value;
    if t.pc.SavingOutcome? {
      assert t.pc.hash in Persisted(t.mTx).history;
    }
  }

  lemma BackedExtends(cfg: Config, chain: Chain, chain': Chain, l: Lane)
    requires Backed(cfg, chain, l) && Extends(chain, chain')
    ensures Backed(cfg, chain', l)
  {
  }

  // ----- Every attempt carries the same payload

  ghost predicate Attempt(content: Content, r: MonitoredTx, h: Hash) {
    var tx := content(h);
    tx.to == r.to && tx.value == r.value && tx.data == r.data && tx.nonce <= r.nonce && GasFrom(tx, r)
  }

  /** The gas limit is some estimate of at most the record's, plus the fixed offset, in 64 bits. */
  ghost predicate GasFrom(tx: LegacyTx, r: MonitoredTx) {
    exists g: uint64 :: g <= r.gas && WithOffset(g, r.gasOffset, tx.gas)
  }

  predicate WithOffset(g: uint64, offset: uint64, gas: uint64) {
    gas == (g + offset) % TWO_64
  }

  ghost predicate Attempts(content: Content, l: Lane) {
    && (forall h | h in l.row.history :: Attempt(content, l.row, h))
    && (l.task.Some? && l.task.value.pc.SavingHistory? ==> Attempt(content, l.row, l.task.value.pc.hash))
  }

  lemma AttemptsStep(cfg: Config, content: Content, chain: Chain, l: Lane, e: Event, l': Lane)
    requires Synced(cfg, l) && Attempts(content, l) && LaneStep(cfg, content, chain, l, e, l')
    ensures Attempts(content, l')
  {
    hide Evolves, Attempt;
    var t := l.task.value;
    EvolvesStep(cfg, content, chain, l, e, l');
    forall h | Attempt(content, l.row, h) ensures Attempt(content, l'.row, h) {
      AttemptEvolves(content, l.row, l'.row, h);
    }
    if e.Signed? && e.signed.Ok? {
      AttemptSigned(content, l.row, t.mTx, e.signed.value);
    }
  }

  lemma AttemptEvolves(content: Content, r: MonitoredTx, r': MonitoredTx, h: Hash)
    requires Attempt(content, r, h) && Evolves(r, r')
    ensures Attempt(content, r', h)
  {
    var g: uint64 :| g <= r.gas && WithOffset(g, r.gasOffset, content(h).gas);
    assert g <= r'.gas;
  }

  lemma AttemptSigned(content: Content, r: MonitoredTx, m: MonitoredTx, h: Hash)
    requires Matches(r, m) && content(h) == m.Tx()
    ensures Attempt(content, r, h)
  {
    assert r.gas <= r.gas && WithOffset(r.gas, r.gasOffset, content(h).gas);
  }

  // ----- Careful nonces

  ghost predicate AllReverted(chain: Chain, hs: set<Hash>) {
    forall h | h in hs :: Reverted(chain, h)
  }

  /** Every attempt below the current nonce is mined and reverted. */
  ghost predicate NonceCareful(content: Content, chain: Chain, l: Lane) {
    && (forall h | h in l.row.history && content(h).nonce < l.row.nonce :: Reverted(chain, h))
    && (l.task.Some? ==> NonceTask(content, chain, l.row, l.task.value))
  }

  ghost predicate NonceTask(content: Content, chain: Chain, r: MonitoredTx, t: Task) {
    match t.pc
    case CheckingReceipts(pending, _, allMined, clean) => allMined && clean ==> AllReverted(chain, r.history - pending)
    case ReviewingNonce(clean) => clean ==> AllReverted(chain, r.history)
    case AskingPending(clean) => clean ==> AllReverted(chain, r.history)
    case SavingNonce(clean) => clean ==> AllReverted(chain, r.history)
    case SavingHistory(h) => content(h).nonce == r.nonce
    case _ => true
  }

  /** A nonce is raised only in a cycle without receipt-check errors. */
  predicate CleanStep(l: Lane, e: Event) {
    l.task.Some? && l.task.value.pc.SavingNonce? && Reached(e) && l.task.value.mTx.nonce > l.row.nonce ==>
      l.task.value.pc.clean
  }

  lemma NonceOpened(cfg: Config, content: Content, chain: Chain, l: Lane)
    requires NonceCareful(content, chain, l)
    ensures NonceCareful(content, chain, Opened(cfg, l))
  {
  }

  lemma NonceStep(cfg: Config, content: Content, chain: Chain, l: Lane, e: Event, l': Lane)
    requires Synced(cfg, l) && NonceCareful(content, chain, l)
    requires LaneStep(cfg, content, chain, l, e, l') && CleanStep(l, e)
    ensures NonceCareful(content, chain, l')
  {
    hide Synced, NonceCareful, LaneNext;
    if e.CheckedMined? {
      NonceCheck(cfg, content, chain, l, e.hash, e.check);
    } else if e.Wrote? {
      NonceWrite(cfg, content, chain, l, e.write);
    } else {
      NonceRest(cfg, content, chain, l, e);
    }
  }

  lemma NonceRest(cfg: Config, content: Content, chain: Chain, l: Lane, e: Event)
    requires Synced(cfg, l) && NonceCareful(content, chain, l) && !e.CheckedMined? && !e.Wrote?
    requires l.task.Some? && Fits(l.task.value.pc, e) && Truthful(content, chain, l.task.value, e)
    ensures NonceCareful(content, chain, LaneNext(cfg, l, e))
  {
  }

  lemma NonceCheck(cfg: Config, content: Content, chain: Chain, l: Lane, h: Hash, check: CheckAnswer)
    requires Synced(cfg, l) && NonceCareful(content, chain, l)
    requires LaneStep(cfg, content, chain, l, CheckedMined(h, check), LaneNext(cfg, l, CheckedMined(h, check)))
    ensures NonceCareful(content, chain, LaneNext(cfg, l, CheckedMined(h, check)))
  {
    var pc := l.task.value.pc;
    var visited := l.row.history - (pc.pending - {h});
    assert visited == l.row.history - pc.pending + {h};
    if check.Mined? && !check.receipt.success && pc.allMined && pc.clean {
      assert AllReverted(chain, visited);
    }
    if pc.pending == {h} {
      assert visited == l.row.history;
    }
  }

  lemma NonceWrite(cfg: Config, content: Content, chain: Chain, l: Lane, w: WriteAnswer)
    requires Synced(cfg, l) && NonceCareful(content, chain, l)
    requires LaneStep(cfg, content, chain, l, Wrote(w), LaneNext(cfg, l, Wrote(w))) && CleanStep(l, Wrote(w))
    ensures NonceCareful(content, chain, LaneNext(cfg, l, Wrote(w)))
  {
  }

  lemma NonceExtends(content: Content, chain: Chain, chain': Chain, l: Lane)
    requires NonceCareful(content, chain, l) && Extends(chain, chain')
    ensures NonceCareful(content, chain', l)
  {
  }

  /** Whatever L1 mined, a record's data took effect at most once. */
  lemma AtMostOneSuccess(content: Content, chain: Chain, l: Lane, g: Hash, h: Hash)
    requires OnePerNonce(content, chain) && Attempts(content, l) && NonceCareful(content, chain, l)
    requires g in l.row.history && h in l.row.history && Succeeded(chain, g) && Succeeded(chain, h)
    ensures g == h
  {
    assert Attempt(content, l.row, g) && Attempt(content, l.row, h);
  }

  // ----- Gas prices

  /** Both the row and the goroutine's copy hold a price of at most `cap`. */
  predicate Capped(cap: nat, l: Lane) {
    l.row.gasPrice <= cap && (l.task.Some? ==> l.task.value.mTx.gasPrice <= cap)
  }

  predicate PriceWithin(cfg: Config, cap: nat, e: Event) {
    e.SuggestedPrice? && e.price.Ok? ==> GasPrice.Adjusted(cfg.margin, cfg.maxGasPriceLimit, e.price.value) <= cap
  }

  lemma CappedStep(cfg: Config, cap: nat, l: Lane, e: Event)
    requires Capped(cap, l) && PriceWithin(cfg, cap, e)
    ensures Capped(cap, LaneNext(cfg, l, e))
  {
  }

  /** While prices fit 64 bits, a row's price never falls. */
  lemma PriceStep(cfg: Config, content: Content, chain: Chain, l: Lane, e: Event, l': Lane)
    requires Synced(cfg, l) && LaneStep(cfg, content, chain, l, e, l') && Capped(TWO_64 - 1, l)
    ensures l.row.gasPrice <= l'.row.gasPrice
  {
  }
}
