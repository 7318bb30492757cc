/** The transaction manager's own code: `Client` of txmanager/txmanager.go. */
module Client {
  import opened Basics
  import opened Records
  import opened Monitor
  import opened Lanes
  import opened Nonces
  import opened Storage
  import opened Manager
  import opened Interleaving
  import opened ReceiptLoop
  import opened Protocol
  import GasPrice

  /** What L1 answers to the n-th call, whatever that may be. */
  datatype L1 = L1(
    check: (nat, Hash) -> CheckAnswer,
    pendingNonce: (nat, Address) -> Result<uint64>,
    estimateGas: (nat, Address, Option<Address>, Option<nat>, Option<Bytes>) -> Result<uint64>,
    gasPrice: nat -> Result<nat>,
    sign: (nat, LegacyTx) -> Result<Hash>,
    lookup: (nat, Hash) -> LookupAnswer,
    send: (nat, Hash) -> bool,
    wait: (nat, Hash) -> WaitAnswer,
    receipt: (nat, Hash) -> Result<Option<Receipt>>,
    head: nat -> HeadAnswer,
    revertMessage: (nat, Hash) -> RevertAnswer)

  /** A goroutine just started on the record `m` loaded from the row `r`. */
  function Started(cfg: Config, r: MonitoredTx, m: MonitoredTx): Lane {
    Lane(r, Some(Begin(cfg, m)), {}, {}, 0)
  }

  /** The events take a goroutine from its start to its end. */
  ghost predicate Cycle(cfg: Config, r: MonitoredTx, m: MonitoredTx, events: seq<Event>) {
    && LanePath(cfg, Started(cfg, r, m), events)
    && var task := LaneAfter(cfg, Started(cfg, r, m), events).task;
       task.Some? && task.value.pc.Finished?
  }

  /** A goroutine never changes the key and the sender of its record. */
  lemma KeyKept(cfg: Config, t: Task, e: Event)
    ensures Next(cfg, t, e).mTx.PrimaryKey() == t.mTx.PrimaryKey() && Next(cfg, t, e).mTx.from == t.mTx.from
  {
    hide GasPrice.Adjusted;
  }

  lemma WriteNext(cfg: Config, t: Task, w: WriteAnswer)
    requires Saving(t.pc)
    ensures Fits(t.pc, Wrote(w)) && Next(cfg, t, Wrote(w)) == AfterWrite(cfg, t, w == Stored)
  {
    hide AfterWrite, GasPrice.Adjusted;
  }

  lemma LaneNextTask(cfg: Config, l: Lane, e: Event)
    requires l.task.Some? && Fits(l.task.value.pc, e)
    ensures LaneNext(cfg, l, e).task == Some(Next(cfg, l.task.value, e))
    ensures LaneNext(cfg, l, e).row == if Reached(e) then Persisted(l.task.value.mTx) else l.row
  {
    hide Next;
  }

  lemma PathEmpty(cfg: Config, l1: L1, first: nat, l: Lane)
    ensures LanePath(cfg, l, []) && LaneAfter(cfg, l, []) == l && Heard(cfg, l1, first, l, []) && Asked([]) == 0
  {
  }

  lemma KeyAtStart(cfg: Config, m: MonitoredTx)
    ensures Begin(cfg, m).mTx == m || Begin(cfg, m).mTx == m.(status := Failed)
  {
  }

  /** Where a goroutine with a receipt in hand goes. */
  function Examining(s: Sighting): Pc {
    if s.receipt.success then CheckingHead(s.hash, s.receipt) else LookingUpFailed(s.hash, s.receipt)
  }

  /** What was read of the Created rows is what the table holds. */
  ghost predicate NonceAnswer(table: Table, from: Address, e: Event) {
    e.ReadCreated? && e.highest.Ok? ==>
      match e.highest.value
      case None => forall k | k in table :: !(table[k].status == Created && table[k].from == from)
      case Some(n) =>
        exists j | j in table && table[j].status == Created && table[j].from == from ::
          && table[j].nonce == n
          && forall k | k in table && table[k].status == Created && table[k].from == from :: table[k].nonce <= n
  }

  lemma NonceAnswerIs(table: Table, from: Address, e: Event)
    ensures NonceAnswer(table, from, e) <==>
            (e.ReadCreated? && e.highest.Ok? ==> e.highest.value == Highest(table, from))
  {
    HighestMeaning(table, from);
  }

  ghost predicate NonceAnswers(table: Table, from: Address, events: seq<Event>) {
    forall e | e in events :: NonceAnswer(table, from, e)
  }

  /** Answers of L1; the others come from the storage. */
  predicate FromL1(e: Event) {
    !e.Wrote? && !e.ReadCreated?
  }

  /** How many calls to L1 the events answer. */
  function Asked(events: seq<Event>): nat {
    if events == [] then 0
    else Asked(events[..|events| - 1]) + if FromL1(events[|events| - 1]) then 1 else 0
  }

  /** A receipt that is not there is an error where one is needed. */
  function Needed(r: Result<Option<Receipt>>): Result<Receipt> {
    if r.Ok? && r.value.Some? then Ok(r.value.value) else Err
  }

  /** `e` is what L1 answers to call `n`, made by the goroutine at `t`. */
  ghost predicate AnswerAt(l1: L1, n: nat, t: Task, e: Event)
    requires Fits(t.pc, e)
  {
    match e
    case CheckedMined(h, check) => check == l1.check(n, h)
    case ReadPending(nonce) => nonce == l1.pendingNonce(n, t.mTx.from)
    case EstimatedGas(gas) => gas == l1.estimateGas(n, t.mTx.from, t.mTx.to, t.mTx.value, t.mTx.data)
    case SuggestedPrice(price) => price == l1.gasPrice(n)
    case Signed(signed) => signed == l1.sign(n, t.mTx.Tx())
    case LookedUp(lookup) => lookup == l1.lookup(n, t.pc.hash)
    case SentOut(ok) => ok == l1.send(n, t.pc.hash)
    case Waited(wait) => wait == l1.wait(n, t.pc.hash)
    case FetchedReceipt(receipt) => receipt == Needed(l1.receipt(n, t.pc.hash))
    case ReadHead(head) => head == l1.head(n)
    case LookedUpFailed(found) => found == (l1.lookup(n, t.pc.hash) == Found)
    case AskedRevert(revert) => revert == l1.revertMessage(n, t.pc.hash)
    case _ => true
  }

  /** The events that are answers of L1 are what it answers to the calls from number `first` on, in order. */
  ghost predicate Heard(cfg: Config, l1: L1, first: nat, l: Lane, events: seq<Event>)
    requires LanePath(cfg, l, events)
  {
    events != [] ==>
      var before := events[..|events| - 1];
      && Heard(cfg, l1, first, l, before)
      && AnswerAt(l1, first + Asked(before), LaneAfter(cfg, l, before).task.value, events[|events| - 1])
  }

  lemma NextNonceIs(table: Table, from: Address, pending: Result<uint64>)
    ensures NextNonce(table, from, pending) ==
            match Highest(table, from)
            case None => pending
            case Some(n) => Ok(Increment(n))
  {
  }

  lemma NotATableRead(table: Table, from: Address, e: Event)
    requires FromL1(e)
    ensures NonceAnswer(table, from, e) && !e.Wrote?
  {
  }

  lemma WroteNothingRead(table: Table, from: Address, w: WriteAnswer)
    ensures NonceAnswer(table, from, Wrote(w))
  {
  }

  /** Where the answers to the review of gas and gas price lead. */
  lemma FeesNext(cfg: Config, m: MonitoredTx, e: Event)
    requires e.EstimatedGas? || e.SuggestedPrice?
    ensures
      var failed := Task(SavingFailedReview, m.(numRetries := Increment(m.numRetries)));
      if e.EstimatedGas? then
        Next(cfg, Task(EstimatingGas, m), e) ==
        if e.gas.Err? then failed
        else Task(SuggestingPrice, if e.gas.value > m.gas then m.(gas := e.gas.value) else m)
      else
        Next(cfg, Task(SuggestingPrice, m), e) ==
        if e.price.Err? then failed
        else
          var price := GasPrice.Adjusted(cfg.margin, cfg.maxGasPriceLimit, e.price.value);
          Task(SavingReview, if price > m.gasPrice then m.(gasPrice := price) else m)
  {
    hide GasPrice.Adjusted;
  }

  /** Where a signature leads. */
  lemma SignedNext(cfg: Config, m: MonitoredTx, s: Result<Hash>)
    ensures Next(cfg, Task(Signing, m), Signed(s)) ==
            if s.Err? then Task(Finished, m)
            else if s.value in m.history then Task(LookingUp(s.value), m)
            else
              Task(SavingHistory(s.value),
                   m.(history := m.history + {s.value}, numRetries := Increment(m.numRetries)))
  {
    hide GasPrice.Adjusted;
  }

  /** Where the writes of reviews and of the history lead. */
  lemma SavedNext(cfg: Config, m: MonitoredTx, h: Hash, stored: bool)
    ensures AfterWrite(cfg, Task(SavingFailedReview, m), stored) == Task(Finished, m)
    ensures AfterWrite(cfg, Task(SavingReview, m), stored) == Task(if stored then Signing else Finished, m)
    ensures AfterWrite(cfg, Task(SavingHistory(h), m), stored) == Task(if stored then LookingUp(h) else Finished, m)
  {
  }

  lemma LoopLeft(cfg: Config, m: MonitoredTx, success: Option<Sighting>, hasFailed: bool, allMined: bool, clean: bool)
    ensures !AfterReceipts(cfg, m, success, hasFailed, allMined, clean).pc.CheckingReceipts?
  {
  }

  lemma CheckAnswered(l1: L1, n: nat, t: Task, h: Hash, a: CheckAnswer)
    requires Fits(t.pc, CheckedMined(h, a)) && a == l1.check(n, h)
    ensures AnswerAt(l1, n, t, CheckedMined(h, a))
  {
  }

  lemma HeardSnoc(cfg: Config, l1: L1, first: nat, l: Lane, events: seq<Event>, e: Event)
    requires LanePath(cfg, l, events) && LanePath(cfg, l, events + [e]) && Heard(cfg, l1, first, l, events)
    requires LaneAfter(cfg, l, events).task.Some? && Fits(LaneAfter(cfg, l, events).task.value.pc, e)
    requires AnswerAt(l1, first + Asked(events), LaneAfter(cfg, l, events).task.value, e)
    ensures Heard(cfg, l1, first, l, events + [e])
    ensures Asked(events + [e]) == Asked(events) + if FromL1(e) then 1 else 0
  {
    hide LaneAfter, Fits, AnswerAt, FromL1;
    assert (events + [e])[..|events + [e]| - 1] == events;
  }

  /** What the query for a result reports about one transaction of the history. */
  datatype TxResult = TxResult(found: bool, receipt: Option<Receipt>, revertMessage: string)

  datatype MonitoredTxResult = MonitoredTxResult(id: string, status: Status, txs: map<Hash, TxResult>)

  /** `x` is what L1 reports about the transaction in calls `n`, `n + 1` and, if it is found, `n + 2`. */
  ghost predicate ReportedAt(l1: L1, n: nat, h: Hash, x: TxResult) {
    && l1.lookup(n, h) == (if x.found then Found else NotFound)
    && l1.receipt(n + 1, h) == Ok(x.receipt)
    && (if x.found && l1.revertMessage(n + 2, h).Message? then x.revertMessage == l1.revertMessage(n + 2, h).text
        else x.revertMessage == "")
    && (x.found ==> !l1.revertMessage(n + 2, h).RevertFailed?)
  }

  ghost predicate QueryFailsAt(l1: L1, n: nat, h: Hash) {
    || l1.lookup(n, h) == LookupFailed
    || l1.receipt(n + 1, h) == Err
    || (l1.lookup(n, h) == Found && l1.revertMessage(n + 2, h).RevertFailed?)
  }

  /** The result has the record's id and status and reports on exactly the transactions of its history, each
      as L1 answered among its calls from `first` up to `last`. */
  ghost predicate ResultFor(l1: L1, first: nat, last: nat, m: MonitoredTx, r: MonitoredTxResult) {
    && r.id == m.id && r.status == m.status
    && r.txs.Keys == m.history
    && forall h | h in r.txs :: exists n | first <= n < last :: ReportedAt(l1, n, h, r.txs[h])
  }

  class Client {
    const cfg: Config
    const l1: L1
    const storage: PostgresStorage
    var calls: nat

    /** The automaton's view of the goroutine being run. */
    ghost var base: Table
    ghost var key: Key
    ghost var sender: Address
    ghost var first: nat
    ghost var start: Lane
    ghost var events: seq<Event>
    ghost var lane: Lane

    constructor (cfg: Config, l1: L1, storage: PostgresStorage)
      ensures this.cfg == cfg && this.l1 == l1 && this.storage == storage
    {
      this.cfg, this.l1, this.storage := cfg, l1, storage;
      calls := 0;
    }

    /** The code and the automaton agree: the goroutine is at `t`, its row is the automaton's and the rest
        of the table is as it was at the start. */
    ghost predicate On(t: Task)
      reads `base, `key, `sender, `first, `start, `events, `lane, storage`rows
    {
      && storage.Valid()
      && LanePath(cfg, start, events) && Heard(cfg, l1, first, start, events)
      && lane == LaneAfter(cfg, start, events)
      && lane.task == Some(t)
      && t.mTx.PrimaryKey() == key && t.mTx.from == sender
      && NonceAnswers(base, sender, events)
      && storage.Contents() == base[key := lane.row]
    }

    /** Besides, every call to L1 made since the start has been answered. */
    ghost predicate At(t: Task)
      reads `base, `key, `sender, `first, `start, `events, `lane, `calls, storage`rows
    {
      On(t) && calls == first + Asked(events)
    }

    lemma AtLane(t: Task)
      requires At(t)
      ensures lane.task == Some(t) && t.mTx.from == sender && storage.Valid()
      ensures On(t) && calls == first + Asked(events)
    {
    }

    /** Tells the automaton about an answer other than to a write. */
    ghost method Note(t: Task, e: Event)
      requires On(t) && Fits(t.pc, e) && !e.Wrote?
      requires NonceAnswer(base, sender, e) && AnswerAt(l1, first + Asked(events), t, e)
      modifies `lane, `events
      ensures On(Next(cfg, t, e))
      ensures Asked(events) == Asked(old(events)) + if FromL1(e) then 1 else 0
    {
      hide Next, Fits, LaneNext, LaneAfter, LanePath, Heard, AnswerAt, Asked, FromL1;
      hide PostgresStorage.Valid, PostgresStorage.Contents;
      PathSnoc(cfg, start, events, e);
      HeardSnoc(cfg, l1, first, start, events, e);
      LaneNextTask(cfg, lane, e);
      KeyKept(cfg, t, e);
      events := events + [e];
      lane := LaneNext(cfg, lane, e);
    }

    /** Counts a call to L1 that was just answered. */
    method Heed(ghost t: Task, ghost e: Event)
      requires At(t) && Fits(t.pc, e) && FromL1(e) && AnswerAt(l1, calls, t, e)
      modifies `calls, `lane, `events
      ensures At(Next(cfg, t, e)) && calls == old(calls) + 1
    {
      hide On, Next, Fits, Asked, AnswerAt, NonceAnswer;
      NotATableRead(base, sender, e);
      Note(t, e);
      calls := calls + 1;
    }

    /** `storage.Update(mTx)`. */
    method Save(m: MonitoredTx) returns (stored: bool)
      requires lane.task.Some? && At(lane.task.value) && Saving(lane.task.value.pc) && lane.task.value.mTx == m
      modifies `lane, `events, storage
      ensures At(AfterWrite(cfg, old(lane.task.value), stored))
      ensures stored ==> lane.row == Persisted(m)
    {
      hide Saving, Next, AfterWrite, LaneNext, LaneAfter, LanePath, Heard, Asked, Persisted, NonceAnswer, Holds;
      hide PostgresStorage.Valid, PostgresStorage.Contents;
      var w := storage.Update(m);
      var e := Wrote(w);
      WroteNothingRead(base, sender, w);
      PathSnoc(cfg, start, events, e);
      HeardSnoc(cfg, l1, first, start, events, e);
      LaneNextTask(cfg, lane, e);
      KeyKept(cfg, lane.task.value, e);
      WriteNext(cfg, lane.task.value, w);
      events := events + [e];
      lane := LaneNext(cfg, lane, e);
      stored := w == Stored;
    }

    /** The receipt loop; the history is visited in an arbitrary order. Where it ends is what the specification
        says for the answers given. */
    method CheckReceipts(m: MonitoredTx)
      returns (success: Option<Sighting>, hasFailed: bool, allMined: bool, ghost clean: bool,
               ghost given: map<Hash, CheckAnswer>)
      requires At(Begin(cfg, m))
      modifies `calls, `lane, `events
      ensures At(AfterReceipts(cfg, m, success, hasFailed, allMined, clean))
      ensures success.Some? ==> success.value.receipt.success
      ensures given.Keys <= m.history
      ensures LoopResult(cfg, m, AfterReceipts(cfg, m, success, hasFailed, allMined, clean), Given(given))
    {
      hide At, AfterReceipts, Summarises, LoopResult, AnswerAt;
      success, hasFailed, allMined, clean, given := None, false, true, true, map[];
      var pending := m.history;
      LoopStarts(cfg, m);
      assert given.Keys == m.history - pending;
      while pending != {}
        invariant At(Loop(cfg, m, pending, hasFailed, allMined, clean))
        invariant success == None
        invariant pending <= m.history && given.Keys == m.history - pending
        invariant LoopSpec(cfg, m, Loop(cfg, m, pending, hasFailed, allMined, clean), Given(given))
        decreases pending
      {
        var txHash :| txHash in pending;
        ghost var t := Loop(cfg, m, pending, hasFailed, allMined, clean);
        var answer := l1.check(calls, txHash);
        CheckAnswered(l1, calls, t, txHash, answer);
        Heed(t, CheckedMined(txHash, answer));
        LoopGiven(cfg, m, t, txHash, answer, given);
        given := given[txHash := answer];
        pending := pending - {txHash};
        match answer {
          case CheckFailed =>
            clean := false;
          case NotMined =>
            allMined := false;
          case Mined(receipt) =>
            if receipt.success {
              success := Some(Sighting(txHash, receipt));
              LoopLeft(cfg, m, success, hasFailed, allMined, clean);
              return;
            }
            hasFailed := true;
        }
      }
      LoopLeft(cfg, m, None, hasFailed, allMined, clean);
    }

    lemma AtRow(t: Task)
      requires At(t)
      ensures storage.Valid() && key in storage.Contents() && storage.Contents()[key] == lane.row
    {
      hide PostgresStorage.Contents, PostgresStorage.Valid;
    }

    lemma OnTable(t: Task)
      requires On(t)
      ensures t.mTx.from == sender && lane.task == Some(t)
      ensures lane.row == base[key := lane.row][key] && storage.Contents() == base[key := lane.row]
    {
    }

    /** Neither L1 nor the storage ever fails a call that allocates a nonce for `from`. */
    ghost predicate Obliging(from: Address) {
      forall n: nat :: l1.pendingNonce(n, from).Ok? && storage.faults(n) == Stored && !storage.outages(n)
    }

    /** `getTxNonce`; also gives what was read of the table and, if that was asked for, of L1. */
    method GetTxNonce(from: Address)
      returns (r: Result<uint64>, ghost highest: Result<Option<uint64>>, ghost pending: Result<uint64>)
      requires storage.Valid()
      modifies `calls, storage`calls
      ensures storage.Valid() && storage.Contents() == old(storage.Contents())
      ensures highest.Err? <==> storage.outages(old(storage.calls))
      ensures highest.Ok? ==> highest.value == Highest(storage.Contents(), from)
      ensures highest.Ok? ==> r == NextNonce(storage.Contents(), from, pending)
      ensures highest.Err? ==> r == Err
      ensures if highest == Ok(None) then pending == l1.pendingNonce(old(calls), from) && calls == old(calls) + 1
              else calls == old(calls)
      ensures if storage.outages(old(storage.calls)) then r == Err
              else NonceGiven(storage.Contents(), from, l1.pendingNonce(old(calls), from), r)
    {
      hide PostgresStorage.Valid, PostgresStorage.Contents, Highest, NextNonce, NonceGiven;
      NextNonceMeaning(storage.Contents(), from, l1.pendingNonce(old(calls), from));
      NextNonceIs(storage.Contents(), from, l1.pendingNonce(old(calls), from));
      pending := Err;
      var createdTxs := storage.GetBySenderAndStatus(from, {Created});
      if createdTxs.Err? {
        return Err, Err, pending;
      }
      var txs := createdTxs.value;
      highest := Ok(Highest(storage.Contents(), from));
      if |txs| > 0 {
        var nonce: uint64 := 0;
        ghost var top := 0;
        for i := 0 to |txs|
          invariant forall j | 0 <= j < i :: txs[j].nonce <= nonce
          invariant if i == 0 then nonce == 0 == top else 0 <= top < i && txs[top].nonce == nonce
        {
          if txs[i].nonce > nonce {
            nonce := txs[i].nonce;
            top := i;
          }
        }
        MaxOfSelection(storage.Contents(), from, txs, nonce);
        NextNonceIs(storage.Contents(), from, pending);
        r := Ok(Increment(nonce));
      } else {
        NoneSelected(storage.Contents(), from, txs);
        r := l1.pendingNonce(calls, from);
        calls := calls + 1;
        pending := r;
        NextNonceIs(storage.Contents(), from, pending);
      }
    }

    /** `suggestedGasPrice`; also gives the price L1 suggested. */
    method SuggestedGasPrice() returns (r: Result<nat>, suggestion: Result<nat>)
      modifies `calls
      ensures suggestion == l1.gasPrice(old(calls)) && calls == old(calls) + 1
      ensures r.Ok? == suggestion.Ok?
      ensures r.Ok? ==> r.value == GasPrice.Adjusted(cfg.margin, cfg.maxGasPriceLimit, suggestion.value)
    {
      suggestion := l1.gasPrice(calls);
      calls := calls + 1;
      if suggestion.Err? {
        return Err, suggestion;
      }
      var adjusted := GasPrice.Scaled(cfg.margin, suggestion.value);
      if cfg.maxGasPriceLimit > 0 && adjusted > cfg.maxGasPriceLimit {
        adjusted := cfg.maxGasPriceLimit;
      }
      return Ok(adjusted), suggestion;
    }

    /** `EstimateGas` in a goroutine. */
    method ReviewGas(m: MonitoredTx) returns (gas: Result<uint64>)
      requires At(Task(EstimatingGas, m))
      modifies `calls, `lane, `events
      ensures At(Next(cfg, Task(EstimatingGas, m), EstimatedGas(gas)))
      ensures gas == l1.estimateGas(old(calls), m.from, m.to, m.value, m.data) && calls == old(calls) + 1
    {
      hide At, Next;
      gas := l1.estimateGas(calls, m.from, m.to, m.value, m.data);
      Heed(Task(EstimatingGas, m), EstimatedGas(gas));
    }

    /** `suggestedGasPrice` in a goroutine. */
    method ReviewPrice(m: MonitoredTx) returns (r: Result<nat>, ghost suggestion: Result<nat>)
      requires At(Task(SuggestingPrice, m))
      modifies `calls, `lane, `events
      ensures At(Next(cfg, Task(SuggestingPrice, m), SuggestedPrice(suggestion)))
      ensures suggestion == l1.gasPrice(old(calls))
      ensures r.Ok? == suggestion.Ok?
      ensures r.Ok? ==> r.value == GasPrice.Adjusted(cfg.margin, cfg.maxGasPriceLimit, suggestion.value)
    {
      hide On, Next, GasPrice.Adjusted;
      AtLane(Task(SuggestingPrice, m));
      var price;
      r, price := SuggestedGasPrice();
      suggestion := price;
      Note(Task(SuggestingPrice, m), SuggestedPrice(suggestion));
    }

    /** `reviewMonitoredTx` and the write that follows it. */
    method ReviewMonitoredTx(m: MonitoredTx) returns (goOn: bool, mTx: MonitoredTx)
      requires At(Task(EstimatingGas, m))
      modifies `calls, `lane, `events, storage
      ensures At(Task(if goOn then Signing else Finished, mTx))
      ensures
        var gas := l1.estimateGas(old(calls), m.from, m.to, m.value, m.data);
        var price, retries := l1.gasPrice(old(calls) + 1), (m.numRetries + 1) % TWO_64;
        if gas.Err? then !goOn && mTx == m.(numRetries := retries)
        else if price.Err? then !goOn && mTx == m.(gas := Larger(m.gas, gas.value), numRetries := retries)
        else
          var adjusted := GasPrice.Adjusted(cfg.margin, cfg.maxGasPriceLimit, price.value);
          mTx == m.(gas := Larger(m.gas, gas.value), gasPrice := Larger(m.gasPrice, adjusted))
    {
      hide At, Next, AfterWrite, GasPrice.Adjusted;
      mTx := m;
      var gas := ReviewGas(mTx);
      FeesNext(cfg, mTx, EstimatedGas(gas));
      if gas.Err? {
        mTx := mTx.(numRetries := Increment(mTx.numRetries));
        AtLane(Task(SavingFailedReview, mTx));
        var stored := Save(mTx);
        SavedNext(cfg, mTx, ANY, stored);
        return false, mTx;
      }
      if gas.value > mTx.gas {
        mTx := mTx.(gas := gas.value);
      }
      var gasPrice, suggestion := ReviewPrice(mTx);
      FeesNext(cfg, mTx, SuggestedPrice(suggestion));
      if gasPrice.Err? {
        mTx := mTx.(numRetries := Increment(mTx.numRetries));
        AtLane(Task(SavingFailedReview, mTx));
        var stored := Save(mTx);
        SavedNext(cfg, mTx, ANY, stored);
        return false, mTx;
      }
      if gasPrice.value > mTx.gasPrice {
        mTx := mTx.(gasPrice := gasPrice.value);
      }
      AtLane(Task(SavingReview, mTx));
      goOn := Save(mTx);
      SavedNext(cfg, mTx, ANY, goOn);
    }

    /** Signs the transaction built from the record and, if it is new, records it. */
    method SignTx(m: MonitoredTx) returns (txHash: Option<Hash>, mTx: MonitoredTx)
      requires At(Task(Signing, m))
      modifies `calls, `lane, `events, storage
      ensures At(Task(if txHash.Some? then LookingUp(txHash.value) else Finished, mTx))
      ensures
        var signed := l1.sign(old(calls), LegacyTx(m.to, m.nonce, m.value, m.data,
                                                   (m.gas + m.gasOffset) % TWO_64, m.gasPrice));
        if signed.Err? then txHash.None? && mTx == m
        else
          var h := signed.value;
          && (txHash.Some? ==> txHash.value == h)
          && mTx == m.(history := m.history + {h},
                       numRetries := if h in m.history then m.numRetries else (m.numRetries + 1) % TWO_64)
    {
      hide At, AfterWrite, Next;
      mTx := m;
      var signedTx := l1.sign(calls, mTx.Tx());
      Heed(Task(Signing, mTx), Signed(signedTx));
      SignedNext(cfg, mTx, signedTx);
      if signedTx.Err? {
        return None, mTx;
      }
      if signedTx.value !in mTx.history {
        mTx := mTx.(history := mTx.history + {signedTx.value}, numRetries := Increment(mTx.numRetries));
        AtLane(Task(SavingHistory(signedTx.value), mTx));
        var stored := Save(mTx);
        SavedNext(cfg, mTx, signedTx.value, stored);
        if !stored {
          return None, mTx;
        }
      } else {
        assert mTx.history + {signedTx.value} == mTx.history;
      }
      return Some(signedTx.value), mTx;
    }

    /** From the unsigned transaction to the receipt of the signed one: sign, record, look up, send, wait. */
    method Broadcast(m: MonitoredTx) returns (sighting: Option<Sighting>, mTx: MonitoredTx)
      requires At(Task(Signing, m))
      modifies `calls, `lane, `events, storage
      ensures At(if sighting.Some? then Task(Examining(sighting.value), mTx) else Task(Finished, mTx))
      ensures
        var signed := l1.sign(old(calls), LegacyTx(m.to, m.nonce, m.value, m.data,
                                                   (m.gas + m.gasOffset) % TWO_64, m.gasPrice));
        if signed.Err? then sighting.None? && mTx == m
        else
          var h := signed.value;
          && (sighting.Some? ==> sighting.value.hash == h)
          && mTx == m.(history := m.history + {h}, status := mTx.status,
                       numRetries := if h in m.history then m.numRetries else (m.numRetries + 1) % TWO_64)
          && (mTx.status == m.status || (m.status == Created && mTx.status == Sent))
    {
      hide At, AfterNonce, GasPrice.Adjusted;
      var txHash;
      txHash, mTx := SignTx(m);
      if txHash.None? {
        return None, mTx;
      }
      var lookup := l1.lookup(calls, txHash.value);
      Heed(Task(LookingUp(txHash.value), mTx), LookedUp(lookup));
      if lookup == NotFound {
        var goOn;
        goOn, mTx := SendTx(mTx, txHash.value);
        if !goOn {
          return None, mTx;
        }
      }
      sighting := AwaitReceipt(mTx, txHash.value);
    }

    /** `SendTx` and, on the first success, the change of status to Sent. */
    method SendTx(m: MonitoredTx, txHash: Hash) returns (goOn: bool, mTx: MonitoredTx)
      requires At(Task(Sending(txHash), m))
      modifies `calls, `lane, `events, storage
      ensures At(Task(if goOn then AwaitingMined(txHash) else Finished, mTx))
      ensures goOn ==> l1.send(old(calls), txHash)
      ensures mTx == if l1.send(old(calls), txHash) && m.status == Created then m.(status := Sent) else m
    {
      hide At, AfterNonce, GasPrice.Adjusted;
      mTx := m;
      var sent := l1.send(calls, txHash);
      Heed(Task(Sending(txHash), mTx), SentOut(sent));
      if !sent {
        return false, mTx;
      }
      if mTx.status == Created {
        mTx := mTx.(status := Sent);
        AtLane(Task(SavingSent(txHash), mTx));
        goOn := Save(mTx);
      } else {
        goOn := true;
      }
    }

    /** `WaitTxToBeMined` and `GetTxReceipt`. */
    method AwaitReceipt(mTx: MonitoredTx, txHash: Hash) returns (sighting: Option<Sighting>)
      requires At(Task(AwaitingMined(txHash), mTx))
      modifies `calls, `lane, `events
      ensures At(if sighting.Some? then Task(Examining(sighting.value), mTx) else Task(Finished, mTx))
      ensures
        var receipt := l1.receipt(old(calls) + 1, txHash);
        if l1.wait(old(calls), txHash) == Included && receipt.Ok? && receipt.value.Some?
        then sighting == Some(Sighting(txHash, receipt.value.value))
        else sighting == None
    {
      hide At;
      var wait := l1.wait(calls, txHash);
      Heed(Task(AwaitingMined(txHash), mTx), Waited(wait));
      if wait != Included {
        return None;
      }
      var receipt := Needed(l1.receipt(calls, txHash));
      Heed(Task(FetchingReceipt(txHash), mTx), FetchedReceipt(receipt));
      if receipt.Err? {
        return None;
      }
      return Some(Sighting(txHash, receipt.value));
    }

    /** `shouldContinueToMonitorThisTx` for a failed receipt. */
    method ShouldContinue(mTx: MonitoredTx, s: Sighting) returns (goOn: bool)
      requires At(Task(LookingUpFailed(s.hash, s.receipt), mTx))
      modifies `calls, `lane, `events
      ensures At(if goOn then Task(Finished, mTx) else Concluded(mTx, Failed, s.hash, s.receipt))
      ensures goOn <==>
                l1.lookup(old(calls), s.hash) == Found && l1.revertMessage(old(calls) + 1, s.hash) == ExecutionReverted
    {
      hide At;
      var lookup := l1.lookup(calls, s.hash);
      Heed(Task(LookingUpFailed(s.hash, s.receipt), mTx), LookedUpFailed(lookup == Found));
      if lookup != Found {
        return false;
      }
      var message := l1.revertMessage(calls, s.hash);
      Heed(Task(AskingRevert(s.hash, s.receipt), mTx), AskedRevert(message));
      return message == ExecutionReverted;
    }

    /** Marks the record Confirmed or Failed from the receipt in hand. */
    method Conclude(m: MonitoredTx, s: Sighting) returns (mTx: MonitoredTx)
      requires At(Task(Examining(s), m))
      modifies `calls, `lane, `events, storage
      ensures At(Task(Finished, mTx))
      ensures
        var block, n := s.receipt.block, old(calls);
        if s.receipt.success then
          mTx == if l1.head(n).Head? && l1.head(n).block >= block % TWO_64
                 then m.(status := Confirmed, blockNumber := Some(block)) else m
        else
          mTx == if l1.lookup(n, s.hash) == Found && l1.revertMessage(n + 1, s.hash) == ExecutionReverted
                 then m else m.(status := Failed, blockNumber := Some(block))
    {
      hide At;
      mTx := m;
      if s.receipt.success {
        var head := l1.head(calls);
        Heed(Task(CheckingHead(s.hash, s.receipt), mTx), ReadHead(head));
        if !head.Head? || head.block < Low64(s.receipt.block) {
          return mTx;
        }
        mTx := mTx.(status := Confirmed, blockNumber := Some(s.receipt.block));
      } else {
        var goOn := ShouldContinue(mTx, s);
        if goOn {
          return mTx;
        }
        mTx := mTx.(status := Failed, blockNumber := Some(s.receipt.block));
      }
      AtLane(Task(SavingOutcome(s.hash, s.receipt), mTx));
      var _ := Save(mTx);
    }

    /** `getTxNonce` in a goroutine. */
    method ReadNonce(m: MonitoredTx, ghost clean: bool) returns (nonce: Result<uint64>)
      requires At(Task(ReviewingNonce(clean), m)) && storage.Contents() == base
      modifies `calls, `lane, `events, storage
      ensures At(if nonce.Ok? then AfterNonceReview(m, nonce.value, clean) else Task(Finished, m))
      ensures nonce.Ok? ==> NonceGiven(base, m.from, l1.pendingNonce(old(calls), m.from), nonce)
    {
      hide On, AfterNonceReview, Highest, NonceAnswer, NextNonce, NonceGiven;
      hide PostgresStorage.Valid, PostgresStorage.Contents;
      ghost var highest, pending;
      AtLane(Task(ReviewingNonce(clean), m));
      nonce, highest, pending := GetTxNonce(m.from);
      OnTable(Task(ReviewingNonce(clean), m));
      NonceAnswerIs(base, sender, ReadCreated(highest));
      NotATableRead(base, sender, ReadPending(pending));
      NextNonceIs(base, m.from, l1.pendingNonce(old(calls), m.from));
      NextNonceIs(base, m.from, pending);
      Note(Task(ReviewingNonce(clean), m), ReadCreated(highest));
      if highest == Ok(None) {
        Note(Task(AskingPending(clean), m), ReadPending(pending));
      }
    }

    /** `reviewMonitoredTxNonce` and the write that follows it. */
    method ReviewNonce(m: MonitoredTx, ghost clean: bool) returns (goOn: bool, mTx: MonitoredTx, ghost n: uint64)
      requires At(Task(ReviewingNonce(clean), m)) && storage.Contents() == base
      modifies `calls, `lane, `events, storage
      ensures At(if goOn then AfterNonce(cfg, mTx, None) else Task(Finished, mTx))
      ensures goOn ==>
                && key in storage.Contents() && storage.Contents()[key].nonce == mTx.nonce
                && mTx == m.(nonce := Larger(m.nonce, n))
                && NonceGiven(base, m.from, l1.pendingNonce(old(calls), m.from), Ok(n))
    {
      hide At, AfterNonce, NonceGiven, Persisted, PostgresStorage.Valid, PostgresStorage.Contents;
      mTx, n := m, 0;
      var nonce := ReadNonce(mTx, clean);
      if nonce.Err? {
        return false, mTx, n;
      }
      n := nonce.value;
      if nonce.value > mTx.nonce {
        mTx := mTx.(nonce := nonce.value);
      }
      AtLane(Task(SavingNonce(clean), mTx));
      goOn := Save(mTx);
      if goOn {
        AtRow(AfterNonce(cfg, mTx, None));
      }
    }

    /** `monitorTx` of the record `m`: whatever L1 and the storage answer, its calls and answers are a path of
        the automaton from its start to its end, and the table changes in this record's row only, to what
        the automaton's writes leave there. */
    method MonitorTx(m: MonitoredTx) returns (ghost answers: seq<Event>)
      requires storage.Valid() && m.PrimaryKey() in storage.Contents()
      modifies this, storage
      ensures storage.Valid()
      ensures NonceAnswers(old(storage.Contents()), m.from, answers)
      ensures calls == old(calls) + Asked(answers)
      ensures
        var r := old(storage.Contents())[m.PrimaryKey()];
        && Cycle(cfg, r, m, answers)
        && Heard(cfg, l1, old(calls), Started(cfg, r, m), answers)
        && (r.status in {Created, Sent, Reorged} && m == r.(numRetries := m.numRetries) ==>
              Complete(cfg, Started(cfg, r, m), m, answers))
        && storage.Contents() ==
           old(storage.Contents())[m.PrimaryKey() := LaneAfter(cfg, Started(cfg, r, m), answers).row]
    {
      hide PostgresStorage.Valid, PostgresStorage.Contents, LanePath, LaneAfter, Heard, Asked, Begin, Persisted;
      storage.RowsNarrow();
      base, key, sender := storage.Contents(), m.PrimaryKey(), m.from;
      first, start, events := calls, Started(cfg, base[key], m), [];
      lane := start;
      PathEmpty(cfg, l1, first, start);
      assert base[key := lane.row] == base;
      KeyAtStart(cfg, m);
      ghost var last := Monitored(m);
      answers := events;
    }

    method Monitored(m: MonitoredTx) returns (ghost last: MonitoredTx)
      requires At(Begin(cfg, m)) && storage.Contents() == base
      modifies `calls, `lane, `events, storage
      ensures At(Task(Finished, last))
    {
      hide At, NonceGiven, LoopResult, Persisted;
      hide PostgresStorage.Valid, PostgresStorage.Contents;
      var mTx := m;
      var success, hasFailed, allMined, clean, given := CheckReceipts(mTx);
      if success.None? && hasFailed && allMined {
        var goOn;
        ghost var n;
        goOn, mTx, n := ReviewNonce(mTx, clean);
        if !goOn {
          return mTx;
        }
      }
      if mTx.numRetries >= cfg.maxRetries {
        mTx := mTx.(status := Failed);
        AtLane(Task(SavingExhausted, mTx));
        var _ := Save(mTx);
        return mTx;
      }
      var sighting := success;
      if success.None? {
        if mTx.status == Reorged {
          return mTx;
        }
        if mTx.status == Sent {
          var goOn;
          goOn, mTx := ReviewMonitoredTx(mTx);
          if !goOn {
            return mTx;
          }
        }
        sighting, mTx := Broadcast(mTx);
        if sighting.None? {
          return mTx;
        }
      }
      last := Conclude(mTx, sighting.value);
    }

    /** `monitorTxs`, with the goroutines of the cycle run one after the other. Every watched record of the
        table is visited once and goes through one cycle on its own answers; nothing else changes. */
    method MonitorTxs() returns (ok: bool, ghost visits: seq<Visit>)
      requires storage.Valid()
      modifies this, storage
      ensures storage.Valid()
      ensures !ok ==> storage.Contents() == old(storage.Contents())
      ensures ok ==> Visits(cfg, l1, old(calls), old(storage.Contents()), visits)
      ensures ok ==> storage.Contents() == Swept(cfg, old(storage.Contents()), visits)
      ensures ok ==>
                var table := old(storage.Contents());
                KeysVisited(visits) == set k | k in table && table[k].status in {Created, Sent, Reorged}
      ensures ok ==> CompleteVisits(cfg, old(storage.Contents()), visits)
      ensures ok ==> calls == old(calls) + AskedBy(visits)
    {
      hide *;
      visits := [];
      ghost var table, number := storage.Contents(), calls;
      var mTxs := storage.GetByStatus(None, {Created, Sent, Reorged});
      if mTxs.Err? {
        return false, visits;
      }
      var ms := mTxs.value;
      ghost var keys := WithStatus(table, None, {Created, Sent, Reorged});
      storage.RowsNarrow();
      VisitsNone(cfg, l1, number, table);
      KeysOfPrefix(table, keys, ms, 0);
      for i := 0 to |ms|
        invariant storage.Valid() && Selects(table, keys, ms)
        invariant KeysVisited(visits) == KeysOf(ms[..i])
        invariant Visits(cfg, l1, number, table, visits) && calls == number + AskedBy(visits)
        invariant storage.Contents() == Swept(cfg, table, visits)
      {
        var mTx := ms[i];
        KeysOfPrefix(table, keys, ms, i);
        SweptElsewhere(cfg, table, visits, mTx.PrimaryKey());
        NormalisedKey(mTx);
        ghost var answers := MonitorTx(Normalised(mTx));
        VisitsMore(cfg, l1, number, table, visits, Visit(mTx.PrimaryKey(), answers));
        visits := visits + [Visit(mTx.PrimaryKey(), answers)];
      }
      assert ms[..|ms|] == ms;
      KeysOfPrefix(table, keys, ms, |ms|);
      WatchedKeys(table);
      VisitsComplete(cfg, l1, number, table, visits);
      ok := true;
    }

    /** The record `Add` builds from its arguments, with L1 answering from call `n` on: blank, with the nonce
        `getTxNonce` gives on the table, the gas L1 estimates, or the forced one if it cannot, and its adjusted
        suggestion as price. */
    ghost predicate Built(table: Table, n: nat, m: MonitoredTx) {
      var next := if Highest(table, m.from).None? then n + 1 else n;
      var gas := l1.estimateGas(next, m.from, m.to, m.value, m.data);
      && Blank(m)
      && NextNonce(table, m.from, l1.pendingNonce(n, m.from)) == Ok(m.nonce)
      && (if gas.Ok? then m.gas == gas.value else m.gas == cfg.forcedGas > 0)
      && l1.gasPrice(next + 1).Ok?
      && m.gasPrice == GasPrice.Adjusted(cfg.margin, cfg.maxGasPriceLimit, l1.gasPrice(next + 1).value)
    }

    predicate Carries(m: MonitoredTx, owner: string, id: string, from: Address, to: Option<Address>,
                      value: Option<nat>, data: Option<Bytes>, gasOffset: uint64) {
      && m.owner == owner && m.id == id && m.from == from && m.to == to
      && m.value == value && m.data == data && m.gasOffset == gasOffset
    }

    ghost predicate ObligingPrices(from: Address, to: Option<Address>, value: Option<nat>, data: Option<Bytes>) {
      Obliging(from) && forall n: nat :: l1.estimateGas(n, from, to, value, data).Ok? && l1.gasPrice(n).Ok?
    }

    /** The part of `Add` before the insertion. */
    method Build(owner: string, id: string, from: Address, to: Option<Address>, value: Option<nat>,
                 data: Option<Bytes>, gasOffset: uint64) returns (r: Result<MonitoredTx>)
      requires storage.Valid()
      modifies `calls, storage`calls
      ensures storage.Valid() && storage.Contents() == old(storage.Contents())
      ensures r.Ok? ==>
                && Carries(r.value, owner, id, from, to, value, data, gasOffset)
                && Blank(r.value) && Built(storage.Contents(), old(calls), r.value)
                && NonceGiven(storage.Contents(), from, l1.pendingNonce(old(calls), from), Ok(r.value.nonce))
      ensures ObligingPrices(from, to, value, data) ==> r.Ok?
    {
      hide PostgresStorage.Valid, PostgresStorage.Contents, Highest, NextNonce, NonceGiven, GasPrice.Adjusted;
      var nonce, highest, pending := GetTxNonce(from);
      NextNonceIs(storage.Contents(), from, pending);
      NextNonceIs(storage.Contents(), from, l1.pendingNonce(old(calls), from));
      if nonce.Err? {
        return Err;
      }
      var gas := l1.estimateGas(calls, from, to, value, data);
      calls := calls + 1;
      if gas.Err? {
        if cfg.forcedGas == 0 {
          return Err;
        }
        gas := Ok(cfg.forcedGas);
      }
      var gasPrice, suggestion := SuggestedGasPrice();
      if gasPrice.Err? {
        return Err;
      }
      return Ok(MonitoredTx(owner, id, from, to, nonce.value, value, data, gas.value, gasOffset, gasPrice.value,
                            Created, None, {}, 0));
    }

    /** `Add`. The one row that may be inserted is new, carries the arguments and is `Built` on the table; an
        error leaves the table alone unless the insertion itself was in doubt. */
    method Add(owner: string, id: string, from: Address, to: Option<Address>, value: Option<nat>,
               data: Option<Bytes>, gasOffset: uint64) returns (added: bool, ghost m: Option<MonitoredTx>)
      requires storage.Valid()
      modifies `calls, storage
      ensures storage.Valid()
      ensures added ==> m.Some?
      ensures storage.Contents() ==
              if m.Some? then old(storage.Contents())[Key(owner, id) := Persisted(m.value)] else old(storage.Contents())
      ensures m.Some? ==>
                && Key(owner, id) !in old(storage.Contents())
                && Carries(m.value, owner, id, from, to, value, data, gasOffset)
                && Built(old(storage.Contents()), old(calls), m.value)
      ensures m.Some? ==>
                NonceGiven(old(storage.Contents()), from, l1.pendingNonce(old(calls), from), Ok(m.value.nonce))
      ensures ObligingPrices(from, to, value, data) && Key(owner, id) !in old(storage.Contents()) ==> added
    {
      hide PostgresStorage.Valid, PostgresStorage.Contents, Persisted, Built, NonceGiven;
      m := None;
      var mTx := Build(owner, id, from, to, value, data, gasOffset);
      if mTx.Err? {
        return false, m;
      }
      var answer := storage.Add(mTx.value);
      added := answer == Added;
      if storage.Contents() != old(storage.Contents()) || added {
        m := Some(mTx.value);
      }
    }

    /** `buildResult`: an error of L1 other than "not found" and the bare "execution reverted" is passed on. */
    method BuildResult(m: MonitoredTx) returns (r: Result<MonitoredTxResult>)
      modifies `calls
      ensures r.Ok? ==> ResultFor(l1, old(calls), calls, m, r.value)
      ensures r.Err? ==> exists n, h | n >= old(calls) && h in m.history :: QueryFailsAt(l1, n, h)
    {
      hide ReportedAt;
      var txs: map<Hash, TxResult> := map[];
      var rest := m.history;
      while rest != {}
        invariant rest <= m.history && txs.Keys == m.history - rest
        invariant old(calls) <= calls
        invariant forall h | h in txs :: exists n | old(calls) <= n < calls :: ReportedAt(l1, n, h, txs[h])
        decreases rest
      {
        var txHash :| txHash in rest;
        var x := QueryTx(txHash);
        if x.Err? {
          return Err;
        }
        txs := txs[txHash := x.value];
        rest := rest - {txHash};
      }
      return Ok(MonitoredTxResult(m.id, m.status, txs));
    }

    /** One round of the loop of `buildResult`. */
    method QueryTx(txHash: Hash) returns (r: Result<TxResult>)
      modifies `calls
      ensures calls > old(calls)
      ensures r.Ok? ==> ReportedAt(l1, old(calls), txHash, r.value)
      ensures r.Err? ==> QueryFailsAt(l1, old(calls), txHash)
    {
      var lookup := l1.lookup(calls, txHash);
      calls := calls + 1;
      if lookup == LookupFailed {
        return Err;
      }
      var receipt := l1.receipt(calls, txHash);
      calls := calls + 1;
      if receipt.Err? {
        return Err;
      }
      var text := "";
      if lookup == Found {
        var message := l1.revertMessage(calls, txHash);
        calls := calls + 1;
        if message.RevertFailed? {
          return Err;
        }
        text := if message.Message? then message.text else "";
      }
      return Ok(TxResult(lookup == Found, receipt.value, text));
    }

    /** `Result`. */
    method ResultOf(owner: string, id: string) returns (r: Result<MonitoredTxResult>)
      requires storage.Valid()
      modifies `calls, storage`calls
      ensures storage.Valid() && storage.Contents() == old(storage.Contents())
      ensures r.Ok? ==>
                && Key(owner, id) in storage.Contents()
                && ResultFor(l1, old(calls), calls, storage.Contents()[Key(owner, id)], r.value)
      ensures r.Err? ==>
                || storage.outages(old(storage.calls))
                || Key(owner, id) !in storage.Contents()
                || exists n, h | h in storage.Contents()[Key(owner, id)].history :: QueryFailsAt(l1, n, h)
    {
      hide PostgresStorage.Valid, PostgresStorage.Contents, ResultFor, QueryFailsAt;
      var answer := storage.Get(owner, id);
      if !answer.Got? {
        return Err;
      }
      r := BuildResult(answer.mTx);
    }
  }

  /** A record that was visited, and the answers its goroutine got. */
  datatype Visit = Visit(key: Key, answers: seq<Event>)

  function KeysVisited(visits: seq<Visit>): set<Key> {
    set v | v in visits :: v.key
  }

  function AskedBy(visits: seq<Visit>): nat {
    if visits == [] then 0 else AskedBy(visits[..|visits| - 1]) + Asked(visits[|visits| - 1].answers)
  }

  /** The goroutine of `k` as a cycle on this table starts it. */
  function StartedOn(cfg: Config, table: Table, k: Key): Lane
    requires k in table
  {
    Started(cfg, table[k], Normalised(table[k]))
  }

  /** The table with every visited record taken through its answers. */
  function Swept(cfg: Config, table: Table, visits: seq<Visit>): Table {
    if visits == [] then table
    else
      var before, v := Swept(cfg, table, visits[..|visits| - 1]), visits[|visits| - 1];
      if v.key in table then before[v.key := LaneAfter(cfg, StartedOn(cfg, table, v.key), v.answers).row] else before
  }

  /** Each visit is a full cycle of a record not visited before; its nonce review reads the table the visits
      before it left, and L1 is asked call after call. */
  ghost predicate Visits(cfg: Config, l1: L1, first: nat, table: Table, visits: seq<Visit>) {
    visits != [] ==>
      var before, v := visits[..|visits| - 1], visits[|visits| - 1];
      && Visits(cfg, l1, first, table, before)
      && v.key in table && v.key !in KeysVisited(before)
      && Cycle(cfg, table[v.key], Normalised(table[v.key]), v.answers)
      && NonceAnswers(Swept(cfg, table, before), table[v.key].from, v.answers)
      && Heard(cfg, l1, first + AskedBy(before), StartedOn(cfg, table, v.key), v.answers)
  }

  lemma VisitsNone(cfg: Config, l1: L1, first: nat, table: Table)
    ensures Visits(cfg, l1, first, table, []) && Swept(cfg, table, []) == table
    ensures KeysVisited([]) == {} && AskedBy([]) == 0
  {
  }

  lemma VisitsMore(cfg: Config, l1: L1, first: nat, table: Table, visits: seq<Visit>, v: Visit)
    requires Visits(cfg, l1, first, table, visits) && v.key in table && v.key !in KeysVisited(visits)
    requires Cycle(cfg, table[v.key], Normalised(table[v.key]), v.answers)
    requires NonceAnswers(Swept(cfg, table, visits), Normalised(table[v.key]).from, v.answers)
    requires Heard(cfg, l1, first + AskedBy(visits), Started(cfg, table[v.key], Normalised(table[v.key])), v.answers)
    ensures Visits(cfg, l1, first, table, visits + [v])
    ensures
      var l := LaneAfter(cfg, Started(cfg, table[v.key], Normalised(table[v.key])), v.answers);
      Swept(cfg, table, visits + [v]) == Swept(cfg, table, visits)[v.key := l.row]
    ensures KeysVisited(visits + [v]) == KeysVisited(visits) + {v.key}
    ensures AskedBy(visits + [v]) == AskedBy(visits) + Asked(v.answers)
  {
    hide LanePath, Started, Heard, LaneAfter, NonceAnswers, Asked;
    assert (visits + [v])[..|visits + [v]| - 1] == visits;
  }

  lemma WatchedKeys(table: Table)
    ensures WithStatus(table, None, {Created, Sent, Reorged}) ==
            set k | k in table && table[k].status in {Created, Sent, Reorged}
  {
  }

  /** Every visit is a complete cycle of the row; a zero retry count starts as the size of the history. */
  ghost predicate CompleteVisits(cfg: Config, table: Table, visits: seq<Visit>) {
    forall v | v in visits ::
      && v.key in table
      && var r := table[v.key];
         var m := r.(numRetries := if r.numRetries == 0 then |r.history| % TWO_64 else r.numRetries);
         Complete(cfg, Started(cfg, r, m), m, v.answers)
  }

  lemma VisitComplete(cfg: Config, r: MonitoredTx, answers: seq<Event>)
    requires Cycle(cfg, r, Normalised(r), answers) && r == Persisted(r) && r.status in {Created, Sent, Reorged}
    ensures
      var m := r.(numRetries := if r.numRetries == 0 then |r.history| % TWO_64 else r.numRetries);
      Complete(cfg, Started(cfg, r, m), m, answers)
  {
    hide LanePath, LaneAfter, Begin, Persisted;
  }

  lemma {:induction false} VisitsComplete(cfg: Config, l1: L1, first: nat, table: Table, visits: seq<Visit>)
    requires Visits(cfg, l1, first, table, visits)
    requires forall k | k in table :: table[k] == Persisted(table[k])
    requires forall k | k in KeysVisited(visits) :: k in table && table[k].status in {Created, Sent, Reorged}
    ensures CompleteVisits(cfg, table, visits)
  {
    hide Heard, NonceAnswers, Swept, Cycle, Complete, Started, Normalised, StartedOn, Persisted;
    if visits != [] {
      var before, last := visits[..|visits| - 1], visits[|visits| - 1];
      assert visits == before + [last];
      VisitsComplete(cfg, l1, first, table, before);
      assert last.key in KeysVisited(visits);
      VisitComplete(cfg, table[last.key], last.answers);
    }
  }

  /** A record that was not visited is still as it was. */
  lemma {:induction false} SweptElsewhere(cfg: Config, table: Table, visits: seq<Visit>, k: Key)
    requires k in table && k !in KeysVisited(visits)
    ensures k in Swept(cfg, table, visits) && Swept(cfg, table, visits)[k] == table[k]
  {
    hide StartedOn, LaneAfter;
    if visits != [] {
      assert visits[|visits| - 1].key in KeysVisited(visits);
      SweptElsewhere(cfg, table, visits[..|visits| - 1], k);
    }
  }

  lemma {:induction false} SweptKeys(cfg: Config, table: Table, visits: seq<Visit>)
    ensures Swept(cfg, table, visits).Keys == table.Keys
  {
    hide StartedOn, LaneAfter;
    if visits != [] {
      SweptKeys(cfg, table, visits[..|visits| - 1]);
    }
  }

  /** What a record is for: its key, sender, target, value, data and gas offset. */
  predicate SameCargo(r: MonitoredTx, r': MonitoredTx) {
    && r'.PrimaryKey() == r.PrimaryKey() && r'.from == r.from && SamePayload(r, r') && r'.gasOffset == r.gasOffset
  }

  lemma NextCargo(cfg: Config, t: Task, e: Event)
    ensures SameCargo(t.mTx, Next(cfg, t, e).mTx)
  {
    hide GasPrice.Adjusted;
  }

  /** Whatever a goroutine is answered, it leaves its record's cargo. */
  lemma {:induction false} CargoKept(cfg: Config, l: Lane, events: seq<Event>)
    requires l.task.Some? && SameCargo(l.row, l.task.value.mTx) && l.row.value == Narrow(l.row.value)
    ensures
      var l' := LaneAfter(cfg, l, events);
      l'.task.Some? && SameCargo(l.row, l'.row) && SameCargo(l.row, l'.task.value.mTx)
  {
    hide Next;
    if events != [] {
      var before := events[..|events| - 1];
      CargoKept(cfg, l, before);
      NextCargo(cfg, LaneAfter(cfg, l, before).task.value, events[|events| - 1]);
    }
  }

  lemma {:induction false} SweptCargo(cfg: Config, table: Table, visits: seq<Visit>, k: Key)
    requires k in table && table[k].value == Narrow(table[k].value)
    ensures k in Swept(cfg, table, visits) && SameCargo(table[k], Swept(cfg, table, visits)[k])
  {
    hide LaneAfter;
    if visits != [] {
      SweptCargo(cfg, table, visits[..|visits| - 1], k);
      var v := visits[|visits| - 1];
      if v.key == k {
        KeyAtStart(cfg, Normalised(table[k]));
        CargoKept(cfg, StartedOn(cfg, table, k), v.answers);
      }
    }
  }

  function KeysOf(ms: seq<MonitoredTx>): set<Key> {
    set m | m in ms :: m.PrimaryKey()
  }

  /** A query result names each selected key once. */
  lemma KeysOfPrefix(table: Table, keys: set<Key>, ms: seq<MonitoredTx>, i: nat)
    requires Selects(table, keys, ms) && i <= |ms|
    ensures KeysOf([]) == {} && KeysOf(ms) == keys && ms[..0] == []
    ensures i < |ms| ==>
              && KeysOf(ms[..i + 1]) == KeysOf(ms[..i]) + {ms[i].PrimaryKey()}
              && ms[i].PrimaryKey() !in KeysOf(ms[..i])
              && ms[i].PrimaryKey() in table && table[ms[i].PrimaryKey()] == ms[i]
  {
    if i < |ms| {
      assert ms[..i + 1] == ms[..i] + [ms[i]];
    }
    forall k | k in keys ensures k in KeysOf(ms) {
      assert table[k] in ms;
    }
  }

  lemma NormalisedKey(m: MonitoredTx)
    ensures Normalised(m).PrimaryKey() == m.PrimaryKey()
  {
  }

  lemma MaxOfSelection(table: Table, from: Address, txs: seq<MonitoredTx>, nonce: uint64)
    requires Selects(table, FromSender(table, from, {Created}), txs)
    requires forall j | 0 <= j < |txs| :: txs[j].nonce <= nonce
    requires exists j | 0 <= j < |txs| :: txs[j].nonce == nonce
    ensures Highest(table, from) == Some(nonce)
  {
    var ns := CreatedNonces(table, from);
    var j :| 0 <= j < |txs| && txs[j].nonce == nonce;
    assert table[txs[j].PrimaryKey()] == txs[j];
    assert nonce in ns;
    forall n | n in ns ensures n <= nonce {
      var k :| k in table && CreatedBy(from, table[k]) && table[k].nonce == n;
      assert table[k] in txs;
    }
    assert Max(ns) == nonce;
  }

  lemma NoneSelected(table: Table, from: Address, txs: seq<MonitoredTx>)
    requires Selects(table, FromSender(table, from, {Created}), txs) && txs == []
    ensures Highest(table, from) == None
  {
    assert CreatedNonces(table, from) == {};
  }
}
