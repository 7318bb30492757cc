/** One monitored record: its persisted row, the goroutine working on it and what it handed to L1. */
module Lanes {
  import opened Basics
  import opened Records
  import opened Monitor
  import GasPrice

  /** What L1 has decided about the transactions of the signing account, and the height of its head. */
  datatype Chain = Chain(mined: map<Hash, Receipt>, head: nat)

  /** A transaction hash determines the signed transaction (collision freedom of Keccak-256). */
  type Content = Hash -> LegacyTx

  /** At most one transaction of an account is mined for each nonce (section 6 of the Ethereum
      Yellow Paper). */
  ghost predicate OnePerNonce(content: Content, chain: Chain) {
    forall g, h | g in chain.mined && h in chain.mined && content(g).nonce == content(h).nonce :: g == h
  }

  /** Receipts are stable and the head is monotone. */
  ghost predicate Extends(chain: Chain, chain': Chain) {
    && chain.head <= chain'.head
    && forall h | h in chain.mined :: h in chain'.mined && chain'.mined[h] == chain.mined[h]
  }

  predicate Reverted(chain: Chain, h: Hash) {
    h in chain.mined && !chain.mined[h].success
  }

  predicate Succeeded(chain: Chain, h: Hash) {
    h in chain.mined && chain.mined[h].success
  }

  /** `handed` are the hashes for which `SendTx` was called: a hash counts as soon as the goroutine is about to
      make the call, so that it stays counted if the process dies before the answer. `accepted` are those for
      which the call returned no error and `failedReviews` counts the persisted failed reviews. */
  datatype Lane = Lane(row: MonitoredTx, task: Option<Task>, handed: set<Hash>, accepted: set<Hash>, failedReviews: nat)

  function Fresh(m: MonitoredTx): Lane {
    Lane(Persisted(m), None, {}, {}, 0)
  }

  function Opened(cfg: Config, l: Lane): Lane {
    if Watched(l.row.status) then l.(task := Some(Begin(cfg, Normalised(l.row)))) else l
  }

  predicate Reached(e: Event) {
    e.Wrote? && !e.write.Refused?
  }

  /** One answered call of the goroutine. */
  function LaneNext(cfg: Config, l: Lane, e: Event): Lane {
    if l.task.None? || !Fits(l.task.value.pc, e) then l
    else
      var t := l.task.value;
      var l' := l.(task := Some(Next(cfg, t, e)));
      match e
      case Wrote(w) =>
        if w.Refused? then l'
        else l'.(row := Persisted(t.mTx),
                 failedReviews := l.failedReviews + if t.pc.SavingFailedReview? then 1 else 0)
      case LookedUp(found) => if found.NotFound? then l'.(handed := l.handed + {t.pc.hash}) else l'
      case SentOut(ok) => if ok then l'.(accepted := l.accepted + {t.pc.hash}) else l'
      case _ => l'
  }

  /** L1 answers from its state; answers not listed are arbitrary. */
  ghost predicate Truthful(content: Content, chain: Chain, t: Task, e: Event) {
    match e
    case CheckedMined(h, NotMined) => h !in chain.mined
    case CheckedMined(h, Mined(r)) => h in chain.mined && chain.mined[h] == r
    case Signed(Ok(h)) => content(h) == t.mTx.Tx()
    case FetchedReceipt(Ok(r)) => t.pc.FetchingReceipt? ==> t.pc.hash in chain.mined && chain.mined[t.pc.hash] == r
    case ReadHead(Head(n)) => n <= chain.head
    case Wrote(w) => w.Refused? || Storable(t.mTx)
    case _ => true
  }

  ghost predicate LaneStep(cfg: Config, content: Content, chain: Chain, l: Lane, e: Event, l': Lane) {
    && l.task.Some?
    && Fits(l.task.value.pc, e)
    && Truthful(content, chain, l.task.value, e)
    && l' == LaneNext(cfg, l, e)
  }

  // ----- The goroutine's copy against the row

  /** The copy as loaded, up to the normalised retry count. */
  predicate Loaded(r: MonitoredTx, m: MonitoredTx) {
    m == r.(numRetries := m.numRetries)
  }

  /** The row as written from the copy, up to the normalised retry count. */
  predicate Matches(r: MonitoredTx, m: MonitoredTx) {
    r == Persisted(m).(numRetries := r.numRetries) && m.value == r.value
  }

  ghost predicate TaskSynced(cfg: Config, r: MonitoredTx, t: Task) {
    var m := t.mTx;
    match t.pc
    case CheckingReceipts(pending, _, _, _) => Loaded(r, m) && pending <= r.history && pending != {}
    case ReviewingNonce(_) => Loaded(r, m)
    case AskingPending(_) => Loaded(r, m)
    case SavingNonce(_) => r.nonce <= m.nonce && Loaded(r, m.(nonce := r.nonce))
    case SavingExhausted =>
      m.status == Failed && m.numRetries >= cfg.maxRetries && Loaded(r, m.(status := r.status))
    case EstimatingGas => Loaded(r, m)
    case SuggestingPrice => r.gas <= m.gas && Loaded(r, m.(gas := r.gas))
    case SavingFailedReview => r.gas <= m.gas && Loaded(r, m.(gas := r.gas))
    case SavingReview =>
      r.gas <= m.gas && r.gasPrice <= m.gasPrice && Loaded(r, m.(gas := r.gas, gasPrice := r.gasPrice))
    case Signing => Matches(r, m)
    case SavingHistory(h) => m.history == r.history + {h} && Matches(r, m.(history := r.history))
    case LookingUp(h) => h in r.history && Matches(r, m)
    case Sending(h) => h in r.history && Matches(r, m)
    case SavingSent(h) => h in r.history && m.status == Sent && r.status == Created && Matches(r, m.(status := Created))
    case AwaitingMined(h) => h in r.history && Matches(r, m)
    case FetchingReceipt(h) => h in r.history && Matches(r, m)
    case CheckingHead(h, _) => h in r.history && Matches(r, m)
    case LookingUpFailed(h, _) => h in r.history && Matches(r, m)
    case AskingRevert(h, _) => h in r.history && Matches(r, m)
    case SavingOutcome(h, rc) =>
      && h in r.history
      && m.status == (if rc.success then Confirmed else Failed)
      && m.blockNumber == Some(rc.block)
      && Matches(r, m.(status := r.status, blockNumber := r.blockNumber))
    case Finished => true
  }

  /** A row holds narrowed integers, and an unfinished goroutine works on a watched row from which its
      copy differs only by what the next write is meant to change. */
  ghost predicate Synced(cfg: Config, l: Lane) {
    && l.row == Persisted(l.row)
    && (l.task.Some? && !l.task.value.pc.Finished? ==>
          Watched(l.row.status) && TaskSynced(cfg, l.row, l.task.value) && TaskReceipts(l.task.value))
  }

  /** What the branch taken says about the receipt in hand. */
  predicate TaskReceipts(t: Task) {
    match t.pc
    case CheckingHead(_, r) => r.success
    case LookingUpFailed(_, r) => !r.success
    case AskingRevert(_, r) => !r.success
    case _ => true
  }

  ghost predicate InStep(cfg: Config, r: MonitoredTx, t: Task) {
    t.pc.Finished? || (TaskSynced(cfg, r, t) && TaskReceipts(t))
  }

  /** The stretch of code between the receipt loop and the next call keeps the copy in step. */
  lemma TaskAfterNonce(cfg: Config, r: MonitoredTx, m: MonitoredTx, success: Option<Sighting>)
    requires r == Persisted(r) && Loaded(r, m)
    requires success.Some? ==> success.value.hash in r.history && success.value.receipt.success
    ensures InStep(cfg, r, AfterNonce(cfg, m, success))
  {
  }

  lemma TaskLoop(cfg: Config, r: MonitoredTx, m: MonitoredTx, pending: set<Hash>,
                 hasFailed: bool, allMined: bool, clean: bool)
    requires r == Persisted(r) && Loaded(r, m) && pending <= r.history
    ensures InStep(cfg, r, Loop(cfg, m, pending, hasFailed, allMined, clean))
  {
    hide AfterNonce;
    TaskAfterNonce(cfg, r, m, None);
  }

  lemma SyncedOpened(cfg: Config, l: Lane)
    requires Synced(cfg, l)
    ensures Synced(cfg, Opened(cfg, l))
  {
    hide TaskSynced, TaskReceipts, Loop, Persisted, Watched;
    var m := Normalised(l.row);
    TaskLoop(cfg, l.row, m, m.history, false, true, true);
  }

  lemma SyncedCheck(cfg: Config, l: Lane, h: Hash, check: CheckAnswer)
    requires Synced(cfg, l) && l.task.Some? && Fits(l.task.value.pc, CheckedMined(h, check))
    ensures Synced(cfg, LaneNext(cfg, l, CheckedMined(h, check)))
  {
    hide AfterNonce, Loop, Persisted, Watched;
    var r, m, pc := l.row, l.task.value.mTx, l.task.value.pc;
    var rest := pc.pending - {h};
    match check
    case CheckFailed => TaskLoop(cfg, r, m, rest, pc.hasFailed, pc.allMined, false);
    case NotMined => TaskLoop(cfg, r, m, rest, pc.hasFailed, false, pc.clean);
    case Mined(rc) =>
      if rc.success {
        TaskAfterNonce(cfg, r, m, Some(Sighting(h, rc)));
      } else {
        TaskLoop(cfg, r, m, rest, true, pc.allMined, pc.clean);
      }
  }

  lemma TaskWrite(cfg: Config, r: MonitoredTx, t: Task, stored: bool)
    requires r == Persisted(r) && Saving(t.pc) && InStep(cfg, r, t)
    ensures InStep(cfg, Persisted(t.mTx), AfterWrite(cfg, t, stored))
    ensures stored && (t.pc.SavingNonce? || t.pc.SavingReview? || t.pc.SavingHistory?) ==> t.mTx.status == r.status
    ensures t.pc.SavingSent? ==> t.mTx.status == Sent
  {
    hide AfterNonce;
    if t.pc.SavingNonce? {
      TaskAfterNonce(cfg, Persisted(t.mTx), t.mTx, None);
    }
  }

  lemma SyncedWrite(cfg: Config, l: Lane, w: WriteAnswer)
    requires Synced(cfg, l) && l.task.Some? && Fits(l.task.value.pc, Wrote(w))
    ensures Synced(cfg, LaneNext(cfg, l, Wrote(w)))
  {
    hide TaskSynced, TaskReceipts, AfterNonce;
    TaskWrite(cfg, l.row, l.task.value, w.Stored?);
  }

  /** Answers to the reviews of nonce, gas and gas price. */
  predicate ReviewAnswer(e: Event) {
    e.ReadCreated? || e.ReadPending? || e.EstimatedGas? || e.SuggestedPrice?
  }

  /** Answers other than receipt checks and writes leave the row alone. */
  lemma SyncedRest(cfg: Config, l: Lane, e: Event)
    requires Synced(cfg, l) && l.task.Some? && Fits(l.task.value.pc, e) && !e.CheckedMined? && !e.Wrote?
    ensures Synced(cfg, LaneNext(cfg, l, e))
  {
    hide TaskSynced, TaskReceipts, Next, Watched, Persisted;
    var r, t := l.row, l.task.value;
    FitsUnfinished(t.pc, e);
    if ReviewAnswer(e) {
      TaskReview(cfg, r, t, e);
    } else if e.Signed? {
      TaskSigned(cfg, r, t, e.signed);
    } else if e.LookedUp? || e.SentOut? || e.Waited? {
      TaskSend(cfg, r, t, e);
    } else {
      TaskConclusion(cfg, r, t, e);
    }
  }

  lemma FitsUnfinished(pc: Pc, e: Event)
    requires Fits(pc, e)
    ensures !pc.Finished?
  {
  }

  lemma TaskReview(cfg: Config, r: MonitoredTx, t: Task, e: Event)
    requires r == Persisted(r) && Fits(t.pc, e) && InStep(cfg, r, t)
    requires ReviewAnswer(e)
    ensures InStep(cfg, r, Next(cfg, t, e))
  {
    hide GasPrice.Adjusted;
  }

  lemma TaskSigned(cfg: Config, r: MonitoredTx, t: Task, s: Result<Hash>)
    requires Fits(t.pc, Signed(s)) && InStep(cfg, r, t)
    ensures InStep(cfg, r, Next(cfg, t, Signed(s)))
  {
    hide Loaded, GasPrice.Adjusted;
  }

  lemma TaskSend(cfg: Config, r: MonitoredTx, t: Task, e: Event)
    requires Fits(t.pc, e) && InStep(cfg, r, t)
    requires e.LookedUp? || e.SentOut? || e.Waited?
    ensures InStep(cfg, r, Next(cfg, t, e))
  {
    hide Loaded, GasPrice.Adjusted;
  }

  lemma TaskConclusion(cfg: Config, r: MonitoredTx, t: Task, e: Event)
    requires r == Persisted(r) && Fits(t.pc, e) && InStep(cfg, r, t)
    requires e.FetchedReceipt? || e.ReadHead? || e.LookedUpFailed? || e.AskedRevert?
    ensures InStep(cfg, r, Next(cfg, t, e))
  {
    hide Loaded, GasPrice.Adjusted;
  }

  lemma SyncedStep(cfg: Config, content: Content, chain: Chain, l: Lane, e: Event, l': Lane)
    requires Synced(cfg, l) && LaneStep(cfg, content, chain, l, e, l')
    ensures Synced(cfg, l')
  {
    hide Synced, LaneNext, Truthful, Fits;
    match e
    case CheckedMined(h, check) => SyncedCheck(cfg, l, h, check);
    case Wrote(w) => SyncedWrite(cfg, l, w);
    case _ => SyncedRest(cfg, l, e);
  }

  // ----- How a row may change

  /** Terminal rows are frozen, no row becomes Created, Reorged or Done, the payload is fixed, and nonce,
      gas and history only grow. */
  ghost predicate Evolves(r: MonitoredTx, r': MonitoredTx) {
    && (!Watched(r.status) ==> r' == r)
    && (r'.status == Created ==> r.status == Created)
    && (r'.status == Reorged ==> r.status == Reorged)
    && (r'.status == Done ==> r.status == Done)
    && r'.owner == r.owner && r'.id == r.id && r'.from == r.from
    && SamePayload(r, r')
    && r'.gasOffset == r.gasOffset
    && r.nonce <= r'.nonce
    && r.gas <= r'.gas
    && r.history <= r'.history
  }

  predicate SamePayload(r: MonitoredTx, r': MonitoredTx) {
    r'.to == r.to && r'.value == r.value && r'.data == r.data
  }

  lemma EvolvesStep(cfg: Config, content: Content, chain: Chain, l: Lane, e: Event, l': Lane)
    requires Synced(cfg, l) && LaneStep(cfg, content, chain, l, e, l')
    ensures Evolves(l.row, l'.row)
  {
  }
}
