/** `Client.monitorTx` as an automaton: one state for each call to L1 or to the storage that the
    code can be about to make, one event for each answer. */
module Monitor {
  import opened Basics
  import opened Records
  import GasPrice

  datatype Config = Config(maxRetries: uint64, forcedGas: uint64, margin: GasPrice.Factor, maxGasPriceLimit: uint64)

  datatype CheckAnswer = CheckFailed | NotMined | Mined(receipt: Receipt)
  datatype LookupAnswer = NotFound | Found | LookupFailed
  datatype WaitAnswer = WaitFailed | TimedOut | Included
  datatype HeadAnswer = HeadFailed | NotSynchronized | Head(block: uint64)
  datatype RevertAnswer = ExecutionReverted | NothingFound | RevertFailed | Message(text: string)

  /** A refused write leaves the row alone; one in doubt reports an error but reached the table. */
  datatype WriteAnswer = Stored | Refused | InDoubt

  datatype Event =
    | CheckedMined(hash: Hash, check: CheckAnswer)
    | ReadCreated(highest: Result<Option<uint64>>)
    | ReadPending(nonce: Result<uint64>)
    | Wrote(write: WriteAnswer)
    | EstimatedGas(gas: Result<uint64>)
    | SuggestedPrice(price: Result<nat>)
    | Signed(signed: Result<Hash>)
    | LookedUp(lookup: LookupAnswer)
    | SentOut(accepted: bool)
    | Waited(wait: WaitAnswer)
    | FetchedReceipt(receipt: Result<Receipt>)
    | ReadHead(head: HeadAnswer)
    | LookedUpFailed(found: bool)
    | AskedRevert(revert: RevertAnswer)

  datatype Pc =
    | CheckingReceipts(pending: set<Hash>, hasFailed: bool, allMined: bool, clean: bool)
    | ReviewingNonce(clean: bool)
    | AskingPending(clean: bool)
    | SavingNonce(clean: bool)
    | SavingExhausted
    | EstimatingGas
    | SuggestingPrice
    | SavingFailedReview
    | SavingReview
    | Signing
    | SavingHistory(hash: Hash)
    | LookingUp(hash: Hash)
    | Sending(hash: Hash)
    | SavingSent(hash: Hash)
    | AwaitingMined(hash: Hash)
    | FetchingReceipt(hash: Hash)
    | CheckingHead(hash: Hash, receipt: Receipt)
    | LookingUpFailed(hash: Hash, receipt: Receipt)
    | AskingRevert(hash: Hash, receipt: Receipt)
    | SavingOutcome(hash: Hash, receipt: Receipt)
    | Finished

  /** A goroutine of `monitorTxs`: where it is and its own copy of the record. `clean` is an
      auxiliary flag: no `CheckTxWasMined` call of this cycle has failed. */
  datatype Task = Task(pc: Pc, mTx: MonitoredTx)

  datatype Sighting = Sighting(hash: Hash, receipt: Receipt)

  /** The code from the retry limit test to the next call. */
  function AfterNonce(cfg: Config, m: MonitoredTx, success: Option<Sighting>): Task {
    if m.numRetries >= cfg.maxRetries then
      Task(SavingExhausted, m.(status := Failed))
    else match success
      case Some(s) => Task(CheckingHead(s.hash, s.receipt), m)
      case None =>
        if m.status == Reorged then Task(Finished, m)
        else if m.status == Sent then Task(EstimatingGas, m)
        else Task(Signing, m)
  }

  /** The code from the end of the receipt loop to the next call. */
  function AfterReceipts(cfg: Config, m: MonitoredTx, success: Option<Sighting>,
                         hasFailed: bool, allMined: bool, clean: bool): Task {
    if success.None? && hasFailed && allMined then Task(ReviewingNonce(clean), m)
    else AfterNonce(cfg, m, success)
  }

  /** The receipt loop with `pending` still to be visited. */
  function Loop(cfg: Config, m: MonitoredTx, pending: set<Hash>, hasFailed: bool, allMined: bool, clean: bool): Task {
    if pending == {} then AfterReceipts(cfg, m, None, hasFailed, allMined, clean)
    else Task(CheckingReceipts(pending, hasFailed, allMined, clean), m)
  }

  function Begin(cfg: Config, m: MonitoredTx): Task {
    Loop(cfg, m, m.history, false, true, true)
  }

  /** `AddHistory` and the write or look-up that follows it. */
  function AfterSigning(m: MonitoredTx, h: Hash): Task {
    if h in m.history then Task(LookingUp(h), m)
    else Task(SavingHistory(h), m.(history := m.history + {h}, numRetries := Increment(m.numRetries)))
  }

  function Concluded(m: MonitoredTx, s: Status, h: Hash, r: Receipt): Task {
    Task(SavingOutcome(h, r), m.(status := s, blockNumber := Some(r.block)))
  }

  /** Which answers fit the call being made. */
  predicate Fits(pc: Pc, e: Event) {
    match e
    case CheckedMined(h, _) => pc.CheckingReceipts? && h in pc.pending
    case ReadCreated(_) => pc.ReviewingNonce?
    case ReadPending(_) => pc.AskingPending?
    case Wrote(_) => Saving(pc)
    case EstimatedGas(_) => pc.EstimatingGas?
    case SuggestedPrice(_) => pc.SuggestingPrice?
    case Signed(_) => pc.Signing?
    case LookedUp(_) => pc.LookingUp?
    case SentOut(_) => pc.Sending?
    case Waited(_) => pc.AwaitingMined?
    case FetchedReceipt(_) => pc.FetchingReceipt?
    case ReadHead(_) => pc.CheckingHead?
    case LookedUpFailed(_) => pc.LookingUpFailed?
    case AskedRevert(_) => pc.AskingRevert?
  }

  predicate Saving(pc: Pc) {
    || pc.SavingNonce? || pc.SavingExhausted? || pc.SavingFailedReview? || pc.SavingReview?
    || pc.SavingHistory? || pc.SavingSent? || pc.SavingOutcome?
  }

  function AfterWrite(cfg: Config, t: Task, stored: bool): Task {
    var stop := Task(Finished, t.mTx);
    if !stored then stop
    else match t.pc
      case SavingNonce(_) => AfterNonce(cfg, t.mTx, None)
      case SavingReview => Task(Signing, t.mTx)
      case SavingHistory(h) => Task(LookingUp(h), t.mTx)
      case SavingSent(h) => Task(AwaitingMined(h), t.mTx)
      case _ => stop
  }

  function AfterCheck(cfg: Config, t: Task, h: Hash, check: CheckAnswer): Task
    requires t.pc.CheckingReceipts?
  {
    var rest := t.pc.pending - {h};
    match check
    case CheckFailed => Loop(cfg, t.mTx, rest, t.pc.hasFailed, t.pc.allMined, false)
    case NotMined => Loop(cfg, t.mTx, rest, t.pc.hasFailed, false, t.pc.clean)
    case Mined(r) =>
      if r.success then AfterReceipts(cfg, t.mTx, Some(Sighting(h, r)), t.pc.hasFailed, t.pc.allMined, t.pc.clean)
      else Loop(cfg, t.mTx, rest, true, t.pc.allMined, t.pc.clean)
  }

  /** `reviewMonitoredTxNonce` with the nonce read. */
  function AfterNonceReview(m: MonitoredTx, n: uint64, clean: bool): Task {
    Task(SavingNonce(clean), if n > m.nonce then m.(nonce := n) else m)
  }

  /** One answered call. An answer that does not fit the call changes nothing. */
  function Next(cfg: Config, t: Task, e: Event): Task {
    var m := t.mTx;
    var stop := Task(Finished, m);
    if !Fits(t.pc, e) then t
    else match e
      case CheckedMined(h, check) => AfterCheck(cfg, t, h, check)
      case ReadCreated(r) =>
        if r.Err? then stop
        else if r.value.None? then Task(AskingPending(t.pc.clean), m)
        else AfterNonceReview(m, Increment(r.value.value), t.pc.clean)
      case ReadPending(n) => if n.Err? then stop else AfterNonceReview(m, n.value, t.pc.clean)
      case Wrote(w) => AfterWrite(cfg, t, w.Stored?)
      case EstimatedGas(g) =>
        if g.Err? then Task(SavingFailedReview, m.(numRetries := Increment(m.numRetries)))
        else Task(SuggestingPrice, if g.value > m.gas then m.(gas := g.value) else m)
      case SuggestedPrice(p) =>
        if p.Err? then Task(SavingFailedReview, m.(numRetries := Increment(m.numRetries)))
        else
          var price := GasPrice.Adjusted(cfg.margin, cfg.maxGasPriceLimit, p.value);
          Task(SavingReview, if price > m.gasPrice then m.(gasPrice := price) else m)
      case Signed(s) => if s.Err? then stop else AfterSigning(m, s.value)
      case LookedUp(l) => if l.NotFound? then Task(Sending(t.pc.hash), m) else Task(AwaitingMined(t.pc.hash), m)
      case SentOut(ok) =>
        if !ok then stop
        else if m.status == Created then Task(SavingSent(t.pc.hash), m.(status := Sent))
        else Task(AwaitingMined(t.pc.hash), m)
      case Waited(w) => if w.Included? then Task(FetchingReceipt(t.pc.hash), m) else stop
      case FetchedReceipt(r) =>
        if r.Err? then stop
        else if r.value.success then Task(CheckingHead(t.pc.hash, r.value), m)
        else Task(LookingUpFailed(t.pc.hash, r.value), m)
      case ReadHead(hd) =>
        if hd.Head? && hd.block >= Low64(t.pc.receipt.block) then Concluded(m, Confirmed, t.pc.hash, t.pc.receipt)
        else stop
      case LookedUpFailed(found) =>
        if found then Task(AskingRevert(t.pc.hash, t.pc.receipt), m)
        else Concluded(m, Failed, t.pc.hash, t.pc.receipt)
      case AskedRevert(a) => if a.ExecutionReverted? then stop else Concluded(m, Failed, t.pc.hash, t.pc.receipt)
  }
}
