/** What holds in every run of the transaction manager. */
module Theorems {
  import opened Basics
  import opened Records
  import opened Monitor
  import opened Lanes
  import opened Invariants
  import opened Nonces
  import opened Manager
  import GasPrice

  /** An empty table satisfies every invariant the theorems start from. */
  lemma StartFine(cfg: Config, content: Content, chain: Chain, cap: nat)
    requires OnePerNonce(content, chain)
    ensures Sound(cfg, content, Start(chain)) && Counted(cfg, Start(chain)) && Careful(content, Start(chain))
    ensures AllCapped(cap, Start(chain)) && DistinctCreated(Start(chain).Table())
  {
  }

  // ----- Theorems

  /** At every point of every run, each transaction for which `SendTx` was called is in the persisted history
      of its record, also if the process died during the call; histories never shrink and nothing once handed
      out is forgotten. */
  lemma WriteAheadTheorem(cfg: Config, content: Content, w: World, moves: seq<Move>, k: Key)
    requires Sound(cfg, content, w) && Run(cfg, content, w, moves)
    requires k in After(cfg, w, moves).lanes
    ensures
      var w' := After(cfg, w, moves);
      && w'.lanes[k].handed <= w'.Table()[k].history
      && (w'.lanes[k].task.Some? && w'.lanes[k].task.value.pc.Sending? ==>
            w'.lanes[k].task.value.pc.hash in w'.lanes[k].handed)
      && (k in w.lanes ==>
            w.lanes[k].handed <= w'.lanes[k].handed && w.Table()[k].history <= w'.Table()[k].history)
  {
    hide Run, After, Sound, Synced, Backed, Attempts;
    LaneRun(cfg, content, w, moves, k);
  }

  /** The transaction is the one the row describes, field by field. The row holds the low 64 bits of the price. */
  predicate Describes(r: MonitoredTx, tx: LegacyTx) {
    && tx.to == r.to && tx.value == r.value && tx.data == r.data && tx.nonce == r.nonce
    && tx.gas == (r.gas + r.gasOffset) % TWO_64
    && tx.gasPrice % TWO_64 == r.gasPrice
  }

  /** A transaction that gets signed is the one the row describes at that moment. */
  lemma SignedMove(cfg: Config, content: Content, w: World, k: Key, h: Hash)
    requires Sound(cfg, content, w) && Allowed(cfg, content, w, Work(k, Signed(Ok(h))))
    ensures Describes(w.Table()[k], content(h))
    ensures Capped(TWO_64 - 1, w.lanes[k]) ==> content(h).gasPrice == w.Table()[k].gasPrice
  {
    hide Attempts, Backed, WriteAhead;
    assert LaneOk(cfg, content, w.chain, k, w.lanes[k]);
  }

  /** The goroutine of the record is about to record `h`. */
  predicate Recording(l: Lane, h: Hash) {
    l.task.Some? && l.task.value.pc == SavingHistory(h)
  }

  /** A hash gets into a history only by having been signed. */
  lemma HistoryGrows(cfg: Config, l: Lane, e: Event, h: Hash)
    requires Synced(cfg, l) && l.task.Some? && Fits(l.task.value.pc, e)
    requires h in LaneNext(cfg, l, e).row.history || Recording(LaneNext(cfg, l, e), h)
    ensures h in l.row.history || Recording(l, h) || e == Signed(Ok(h))
  {
    hide GasPrice.Adjusted;
  }

  /** Every transaction of a history was there at the start of the run or is the one the row described at some
      point of it. */
  lemma {:induction false} AttemptOrigin(cfg: Config, content: Content, w: World, moves: seq<Move>, k: Key, h: Hash)
    requires Sound(cfg, content, w) && Run(cfg, content, w, moves) && k in After(cfg, w, moves).lanes
    requires h in After(cfg, w, moves).Table()[k].history || Recording(After(cfg, w, moves).lanes[k], h)
    ensures
      || (k in w.lanes && (h in w.Table()[k].history || Recording(w.lanes[k], h)))
      || exists i | 0 <= i <= |moves| && k in After(cfg, w, moves[..i]).lanes ::
           Describes(After(cfg, w, moves[..i]).Table()[k], content(h))
  {
    hide Describes, LaneNext, LaneStep, Synced, Allowed, Run, After, Sound, Begin;
    if moves == [] {
      NoMoves(cfg, content, w);
    } else {
      var before, last := moves[..|moves| - 1], moves[|moves| - 1];
      LastMove(cfg, content, w, moves);
      SoundRun(cfg, content, w, before);
      var v := After(cfg, w, before);
      OriginMove(cfg, content, v, last, k, h);
      if last == Work(k, Signed(Ok(h))) {
        SignedMove(cfg, content, v, k, h);
        assert Describes(After(cfg, w, moves[..|moves| - 1]).Table()[k], content(h));
      } else {
        AttemptOrigin(cfg, content, w, before, k, h);
        forall i | 0 <= i <= |before| ensures moves[..i] == before[..i] {
        }
      }
    }
  }

  lemma OriginMove(cfg: Config, content: Content, v: World, move: Move, k: Key, h: Hash)
    requires Sound(cfg, content, v) && Allowed(cfg, content, v, move) && k in Apply(cfg, v, move).lanes
    requires
      var v' := Apply(cfg, v, move);
      h in v'.Table()[k].history || Recording(v'.lanes[k], h)
    ensures k in v.lanes
    ensures h in v.Table()[k].history || Recording(v.lanes[k], h) || move == Work(k, Signed(Ok(h)))
  {
    hide LaneNext;
    if k in v.lanes {
      assert LaneOk(cfg, content, v.chain, k, v.lanes[k]);
    }
    if move.Work? && move.key == k {
      HistoryGrows(cfg, v.lanes[k], move.event, h);
    } else if move.BeginCycle? {
      NotRecording(cfg, v.lanes[k]);
    }
  }

  lemma NotRecording(cfg: Config, l: Lane)
    ensures Opened(cfg, l).row == l.row && forall h :: Recording(Opened(cfg, l), h) ==> Recording(l, h)
  {
  }

  /** A record's key, sender, target, value, data and gas offset never change, and every transaction of
      its history carries that target, value and data, a nonce of at most the record's, and an estimate
      of at most the record's plus the offset as gas. Its nonce and gas never fall. Every transaction that got into
      the history during the run is the one the row described at some point of the run, its gas price included. */
  lemma PayloadTheorem(cfg: Config, content: Content, w: World, moves: seq<Move>, k: Key, h: Hash)
    requires Sound(cfg, content, w) && Run(cfg, content, w, moves)
    requires k in After(cfg, w, moves).lanes
    ensures
      var r' := After(cfg, w, moves).Table()[k];
      && r'.PrimaryKey() == k
      && (h in r'.history ==>
            && content(h).to == r'.to && content(h).value == r'.value && content(h).data == r'.data
            && content(h).nonce <= r'.nonce && GasFrom(content(h), r')
            && (|| (k in w.lanes && (h in w.Table()[k].history || Recording(w.lanes[k], h)))
                || exists i | 0 <= i <= |moves| && k in After(cfg, w, moves[..i]).lanes ::
                     Describes(After(cfg, w, moves[..i]).Table()[k], content(h))))
      && (k in w.lanes ==>
            var r := w.Table()[k];
            && r'.from == r.from && SamePayload(r, r') && r'.gasOffset == r.gasOffset
            && r.nonce <= r'.nonce && r.gas <= r'.gas)
  {
    hide Run, After, Sound, Synced, Backed, GasFrom, Describes, Recording;
    LaneRun(cfg, content, w, moves, k);
    var l := After(cfg, w, moves).lanes[k];
    if h in l.row.history {
      AttemptOrigin(cfg, content, w, moves, k, h);
      assert Attempt(content, l.row, h);
    }
  }

  /** Confirmed, Failed and Done rows are never changed again and no row becomes Created, Reorged or Done. A
      Sent row had a transaction of its history accepted by L1; a Confirmed row names the block of a
      successful receipt of its history that the head has reached; a Failed row exhausted its retries
      or has a reverted transaction in its history. */
  lemma StatusTheorem(cfg: Config, content: Content, w: World, moves: seq<Move>, k: Key)
    requires Sound(cfg, content, w) && Run(cfg, content, w, moves)
    requires k in After(cfg, w, moves).lanes
    ensures
      var w' := After(cfg, w, moves);
      && StatusExplained(cfg, w'.chain, w'.lanes[k])
      && (k in w.lanes ==> StatusKept(w.Table()[k], w'.Table()[k]))
  {
    hide Run, After, Sound, LaneOk, StatusKept, StatusExplained, Evolves;
    LaneRun(cfg, content, w, moves, k);
    var w' := After(cfg, w, moves);
    StatusLane(cfg, content, w'.chain, k, w'.lanes[k]);
    if k in w.lanes {
      StatusEvolves(w.lanes[k].row, w'.lanes[k].row);
    }
  }

  lemma StatusEvolves(r: MonitoredTx, r': MonitoredTx)
    requires Evolves(r, r')
    ensures StatusKept(r, r')
  {
  }

  predicate StatusKept(r: MonitoredTx, r': MonitoredTx) {
    && (r.status in {Confirmed, Failed, Done} ==> r' == r)
    && (r.status == Sent ==> r'.status in {Sent, Confirmed, Failed})
    && (r'.status in {Created, Reorged, Done} ==> r.status == r'.status)
  }

  ghost predicate StatusExplained(cfg: Config, chain: Chain, l: Lane) {
    && (l.row.status == Sent ==> exists h :: h in l.accepted && h in l.row.history)
    && (l.row.status == Confirmed ==> ConfirmedOnL1(chain, l.row))
    && (l.row.status == Failed ==> l.row.numRetries >= cfg.maxRetries || RevertedOnL1(chain, l.row))
  }

  lemma StatusLane(cfg: Config, content: Content, chain: Chain, k: Key, l: Lane)
    requires LaneOk(cfg, content, chain, k, l)
    ensures StatusExplained(cfg, chain, l)
  {
    if l.row.status == Sent {
      var h :| h in l.accepted;
    }
  }

  // ----- Retry accounting

  ghost predicate Counted(cfg: Config, w: World) {
    forall k | k in w.lanes :: RetriesCounted(cfg, w.lanes[k])
  }

  lemma CountedMove(cfg: Config, content: Content, w: World, move: Move)
    requires Counted(cfg, w) && Allowed(cfg, content, w, move)
    ensures Counted(cfg, Apply(cfg, w, move))
  {
    if move.Work? {
      var l := w.lanes[move.key];
      RetriesStep(cfg, content, w.chain, l, move.event, LaneNext(cfg, l, move.event));
    } else if move.BeginCycle? {
      forall k | k in w.lanes ensures RetriesCounted(cfg, Opened(cfg, w.lanes[k])) {
        RetriesOpened(cfg, w.lanes[k]);
      }
    }
  }

  /** The persisted retry count is the history size plus the persisted failed reviews and never exceeds
      the limit, so a record hands at most `maxRetries` distinct transactions to L1, and the rule for
      zero counts changes no such record. */
  lemma RetryTheorem(cfg: Config, content: Content, w: World, moves: seq<Move>, k: Key)
    requires Sound(cfg, content, w) && Counted(cfg, w) && Run(cfg, content, w, moves)
    requires k in After(cfg, w, moves).lanes
    ensures
      var l := After(cfg, w, moves).lanes[k];
      && l.row.numRetries == |l.row.history| + l.failedReviews <= cfg.maxRetries
      && |l.handed| <= cfg.maxRetries
      && Normalised(l.row) == l.row
  {
    var inv := v => Counted(cfg, v);
    forall v, move | inv(v) && Allowed(cfg, content, v, move) ensures inv(Apply(cfg, v, move)) {
      CountedMove(cfg, content, v, move);
    }
    AlongTrivially(cfg, w, moves);
    RunInduction(cfg, content, w, moves, (v, move) => true, inv);
    SoundRun(cfg, content, w, moves);
    var w' := After(cfg, w, moves);
    var l := w'.lanes[k];
    assert LaneOk(cfg, content, w'.chain, k, l) && RetriesCounted(cfg, l);
    NormalisedIdentity(cfg, l);
    SubsetCardinality(l.handed, l.row.history);
  }

  lemma {:induction false} SubsetCardinality<T>(a: set<T>, b: set<T>)
    requires a <= b
    ensures |a| <= |b|
  {
    if a != {} {
      var x :| x in a;
      SubsetCardinality(a - {x}, b - {x});
    }
  }

  // ----- At most one success

  ghost predicate Careful(content: Content, w: World) {
    forall k | k in w.lanes :: NonceCareful(content, w.chain, w.lanes[k])
  }

  predicate CleanMove(w: World, move: Move) {
    move.Work? && move.key in w.lanes ==> CleanStep(w.lanes[move.key], move.event)
  }

  lemma CarefulMove(cfg: Config, content: Content, w: World, move: Move)
    requires Sound(cfg, content, w) && Careful(content, w)
    requires Allowed(cfg, content, w, move) && CleanMove(w, move)
    ensures Careful(content, Apply(cfg, w, move))
  {
    var w' := Apply(cfg, w, move);
    forall k | k in w.lanes ensures k in w'.lanes && NonceCareful(content, w'.chain, w'.lanes[k]) {
      CarefulLane(cfg, content, w, move, k);
    }
  }

  lemma CarefulLane(cfg: Config, content: Content, w: World, move: Move, k: Key)
    requires Allowed(cfg, content, w, move) && CleanMove(w, move)
    requires k in w.lanes && Synced(cfg, w.lanes[k]) && NonceCareful(content, w.chain, w.lanes[k])
    ensures
      var w' := Apply(cfg, w, move);
      k in w'.lanes && NonceCareful(content, w'.chain, w'.lanes[k])
  {
    var l := w.lanes[k];
    match move
    case Advance(chain) => NonceExtends(content, w.chain, chain, l);
    case BeginCycle => NonceOpened(cfg, content, w.chain, l);
    case Work(j, e) => if j == k { NonceStep(cfg, content, w.chain, l, e, LaneNext(cfg, l, e)); }
    case _ =>
  }

  /** In every run that raises no nonce in a cycle with a receipt-check error, at most one transaction
      of a record's history is ever mined successfully, and each one below the record's current nonce
      is mined and reverted. */
  lemma AtMostOnceTheorem(cfg: Config, content: Content, w: World, moves: seq<Move>, k: Key, g: Hash, h: Hash)
    requires Sound(cfg, content, w) && Careful(content, w)
    requires Run(cfg, content, w, moves) && Along(cfg, w, moves, (v, move) => CleanMove(v, move))
    requires k in After(cfg, w, moves).lanes
    requires g in After(cfg, w, moves).Table()[k].history && h in After(cfg, w, moves).Table()[k].history
    ensures
      var w' := After(cfg, w, moves);
      && (Succeeded(w'.chain, g) && Succeeded(w'.chain, h) ==> g == h)
      && (content(g).nonce < w'.Table()[k].nonce ==> Reverted(w'.chain, g))
  {
    var inv := v => Sound(cfg, content, v) && Careful(content, v);
    var hyp := (v, move) => CleanMove(v, move);
    forall v, move | inv(v) && Allowed(cfg, content, v, move) && hyp(v, move) ensures inv(Apply(cfg, v, move)) {
      SoundMove(cfg, content, v, move);
      CarefulMove(cfg, content, v, move);
    }
    RunInduction(cfg, content, w, moves, hyp, inv);
    var w' := After(cfg, w, moves);
    var l := w'.lanes[k];
    assert LaneOk(cfg, content, w'.chain, k, l) && NonceCareful(content, w'.chain, l);
    if Succeeded(w'.chain, g) && Succeeded(w'.chain, h) {
      AtMostOneSuccess(content, w'.chain, l, g, h);
    }
  }

  // ----- Gas prices

  ghost predicate AllCapped(cap: nat, w: World) {
    forall k | k in w.lanes :: Capped(cap, w.lanes[k])
  }

  /** The prices a move brings in are at most `cap`. */
  predicate PricedMove(cfg: Config, cap: nat, move: Move) {
    && (move.Work? ==> PriceWithin(cfg, cap, move.event))
    && (move.Insert? ==> move.mTx.gasPrice <= cap)
  }

  lemma CappedMove(cfg: Config, content: Content, cap: nat, w: World, move: Move)
    requires AllCapped(cap, w) && Allowed(cfg, content, w, move) && PricedMove(cfg, cap, move)
    ensures AllCapped(cap, Apply(cfg, w, move))
  {
    if move.Work? {
      CappedStep(cfg, cap, w.lanes[move.key], move.event);
    }
  }

  /** With a configured limit every record stays within it, in the table and in memory, so narrowing the
      price to 64 bits on a write loses nothing. */
  lemma PriceLimitTheorem(cfg: Config, content: Content, w: World, moves: seq<Move>, k: Key)
    requires cfg.maxGasPriceLimit > 0 && AllCapped(cfg.maxGasPriceLimit, w) && Run(cfg, content, w, moves)
    requires k in After(cfg, w, moves).lanes
    ensures
      var l := After(cfg, w, moves).lanes[k];
      && l.row.gasPrice <= cfg.maxGasPriceLimit
      && (l.task.Some? ==>
            && l.task.value.mTx.gasPrice <= cfg.maxGasPriceLimit
            && Persisted(l.task.value.mTx).gasPrice == l.task.value.mTx.gasPrice)
  {
    var cap := cfg.maxGasPriceLimit;
    var inv := v => AllCapped(cap, v);
    forall v, move | inv(v) && Allowed(cfg, content, v, move) ensures inv(Apply(cfg, v, move)) {
      LimitedMove(cfg, content, v, move);
      CappedMove(cfg, content, cap, v, move);
    }
    AlongTrivially(cfg, w, moves);
    RunInduction(cfg, content, w, moves, (v, move) => true, inv);
    assert Capped(cap, After(cfg, w, moves).lanes[k]);
  }

  lemma LimitedMove(cfg: Config, content: Content, w: World, move: Move)
    requires cfg.maxGasPriceLimit > 0 && Allowed(cfg, content, w, move)
    ensures PricedMove(cfg, cfg.maxGasPriceLimit, move)
  {
    if move.Insert? {
      var p: nat :| move.mTx.gasPrice == GasPrice.Adjusted(cfg.margin, cfg.maxGasPriceLimit, p);
    }
  }

  /** While adjusted prices fit 64 bits, the price of a record never falls. */
  lemma PriceMonotoneTheorem(cfg: Config, content: Content, w: World, moves: seq<Move>, k: Key)
    requires Sound(cfg, content, w) && AllCapped(TWO_64 - 1, w)
    requires Run(cfg, content, w, moves) && Along(cfg, w, moves, (v, move) => PricedMove(cfg, TWO_64 - 1, move))
    requires k in w.lanes
    ensures k in After(cfg, w, moves).lanes && w.Table()[k].gasPrice <= After(cfg, w, moves).Table()[k].gasPrice
  {
    var low := w.lanes[k].row.gasPrice;
    var inv := v => Sound(cfg, content, v) && AllCapped(TWO_64 - 1, v) && PriceAtLeast(k, low, v);
    var hyp := (v: World, move) => PricedMove(cfg, TWO_64 - 1, move);
    forall v, move | inv(v) && Allowed(cfg, content, v, move) && hyp(v, move) ensures inv(Apply(cfg, v, move)) {
      SoundMove(cfg, content, v, move);
      CappedMove(cfg, content, TWO_64 - 1, v, move);
      PriceMove(cfg, content, v, move, k);
    }
    RunInduction(cfg, content, w, moves, hyp, inv);
  }

  // ----- Prices of attempts

  /** No attempt of the record costs more than its row says. */
  ghost predicate AttemptsPriced(content: Content, l: Lane) {
    forall h | h in l.row.history || Recording(l, h) :: content(h).gasPrice <= l.row.gasPrice
  }

  lemma PricedStep(cfg: Config, content: Content, chain: Chain, l: Lane, e: Event)
    requires Synced(cfg, l) && Capped(TWO_64 - 1, l) && AttemptsPriced(content, l)
    requires LaneStep(cfg, content, chain, l, e, LaneNext(cfg, l, e))
    ensures AttemptsPriced(content, LaneNext(cfg, l, e))
  {
    hide LaneNext, Synced;
    var l' := LaneNext(cfg, l, e);
    PriceStep(cfg, content, chain, l, e, l');
    forall h | h in l'.row.history || Recording(l', h) ensures content(h).gasPrice <= l'.row.gasPrice {
      HistoryGrows(cfg, l, e, h);
      if e == Signed(Ok(h)) {
        SignedPrice(cfg, content, chain, l, h);
      }
    }
  }

  lemma SignedPrice(cfg: Config, content: Content, chain: Chain, l: Lane, h: Hash)
    requires Synced(cfg, l) && Capped(TWO_64 - 1, l) && l.task.Some? && Fits(l.task.value.pc, Signed(Ok(h)))
    requires Truthful(content, chain, l.task.value, Signed(Ok(h)))
    ensures content(h).gasPrice == l.row.gasPrice
  {
  }

  ghost predicate AllPriced(content: Content, w: World) {
    forall k | k in w.lanes :: AttemptsPriced(content, w.lanes[k])
  }

  lemma PricedAll(cfg: Config, content: Content, w: World, move: Move)
    requires Sound(cfg, content, w) && AllCapped(TWO_64 - 1, w) && AllPriced(content, w)
    requires Allowed(cfg, content, w, move)
    ensures AllPriced(content, Apply(cfg, w, move))
  {
    hide AttemptsPriced, LaneNext, LaneStep, Opened;
    if move.Work? {
      assert LaneOk(cfg, content, w.chain, move.key, w.lanes[move.key]);
      PricedStep(cfg, content, w.chain, w.lanes[move.key], move.event);
    } else if move.Insert? {
      assert AttemptsPriced(content, Fresh(move.mTx)) by {
        FreshPriced(content, move.mTx);
      }
    } else {
      forall k | k in w.lanes ensures AttemptsPriced(content, Apply(cfg, w, move).lanes[k]) {
        IdlePriced(cfg, content, w.lanes[k]);
      }
    }
  }

  lemma FreshPriced(content: Content, m: MonitoredTx)
    requires Blank(m)
    ensures AttemptsPriced(content, Fresh(m))
  {
  }

  lemma IdlePriced(cfg: Config, content: Content, l: Lane)
    requires AttemptsPriced(content, l)
    ensures AttemptsPriced(content, Opened(cfg, l)) && AttemptsPriced(content, l.(task := None))
  {
    NotRecording(cfg, l);
  }

  /** While adjusted prices fit 64 bits, no transaction of a history has a higher price than its record. */
  lemma AttemptPriceTheorem(cfg: Config, content: Content, w: World, moves: seq<Move>, k: Key, h: Hash)
    requires Sound(cfg, content, w) && AllCapped(TWO_64 - 1, w) && AllPriced(content, w)
    requires Run(cfg, content, w, moves) && Along(cfg, w, moves, (v, move) => PricedMove(cfg, TWO_64 - 1, move))
    requires k in After(cfg, w, moves).lanes && h in After(cfg, w, moves).Table()[k].history
    ensures content(h).gasPrice <= After(cfg, w, moves).Table()[k].gasPrice
  {
    var inv := v => Sound(cfg, content, v) && AllCapped(TWO_64 - 1, v) && AllPriced(content, v);
    var hyp := (v: World, move) => PricedMove(cfg, TWO_64 - 1, move);
    forall v, move | inv(v) && Allowed(cfg, content, v, move) && hyp(v, move) ensures inv(Apply(cfg, v, move)) {
      SoundMove(cfg, content, v, move);
      CappedMove(cfg, content, TWO_64 - 1, v, move);
      PricedAll(cfg, content, v, move);
    }
    RunInduction(cfg, content, w, moves, hyp, inv);
    assert AttemptsPriced(content, After(cfg, w, moves).lanes[k]);
  }

  predicate PriceAtLeast(k: Key, low: nat, w: World) {
    k in w.lanes && low <= w.lanes[k].row.gasPrice
  }

  lemma PriceMove(cfg: Config, content: Content, w: World, move: Move, k: Key)
    requires Allowed(cfg, content, w, move)
    requires k in w.lanes && Synced(cfg, w.lanes[k]) && Capped(TWO_64 - 1, w.lanes[k])
    ensures PriceAtLeast(k, w.lanes[k].row.gasPrice, Apply(cfg, w, move))
  {
    if move.Work? && move.key == k {
      var l := w.lanes[k];
      PriceStep(cfg, content, w.chain, l, move.event, LaneNext(cfg, l, move.event));
    }
  }

  // ----- Distinct nonces

  /** A nonce is written while the reading it came from is still what the table says, and no nonce has
      reached the largest 64-bit value. */
  ghost predicate AtomicMove(w: World, move: Move) {
    && NoncesBelowMax(w.Table())
    && match move
       case Insert(m) => Allocated(w.Table(), m.from, m.nonce)
       case Work(k, e) =>
         k in w.lanes && w.lanes[k].task.Some? && w.lanes[k].task.value.pc.SavingNonce? && Reached(e)
         && w.lanes[k].task.value.mTx.nonce > w.lanes[k].row.nonce ==>
           Allocated(w.Table(), w.lanes[k].row.from, w.lanes[k].task.value.mTx.nonce)
       case _ => true
  }

  lemma DistinctMove(cfg: Config, content: Content, w: World, move: Move)
    requires Sound(cfg, content, w) && DistinctCreated(w.Table())
    requires Allowed(cfg, content, w, move) && AtomicMove(w, move)
    ensures DistinctCreated(Apply(cfg, w, move).Table())
  {
    TableAfter(cfg, w, move);
    if move.Insert? {
      DistinctUpdate(w.Table(), move.mTx.PrimaryKey(), Persisted(move.mTx));
    } else if move.Work? {
      assert LaneOk(cfg, content, w.chain, move.key, w.lanes[move.key]);
      DistinctWork(cfg, content, w, move.key, move.event);
    }
  }

  /** Only a committed `Add` and a goroutine's own write change the table, one row at a time. */
  lemma TableAfter(cfg: Config, w: World, move: Move)
    ensures Apply(cfg, w, move).Table() ==
            match move
            case Insert(m) => w.Table()[m.PrimaryKey() := Persisted(m)]
            case Work(k, e) => if k in w.lanes then w.Table()[k := LaneNext(cfg, w.lanes[k], e).row] else w.Table()
            case _ => w.Table()
  {
  }

  lemma DistinctWork(cfg: Config, content: Content, w: World, k: Key, e: Event)
    requires DistinctCreated(w.Table()) && Allowed(cfg, content, w, Work(k, e)) && AtomicMove(w, Work(k, e))
    requires Synced(cfg, w.lanes[k])
    ensures DistinctCreated(w.Table()[k := LaneNext(cfg, w.lanes[k], e).row])
  {
    var l := w.lanes[k];
    EvolvesStep(cfg, content, w.chain, l, e, LaneNext(cfg, l, e));
    NonceSource(cfg, l, e);
    DistinctUpdate(w.Table(), k, LaneNext(cfg, l, e).row);
  }

  /** A row's nonce changes only when a reviewed nonce is written. */
  lemma NonceSource(cfg: Config, l: Lane, e: Event)
    requires Synced(cfg, l) && l.task.Some? && Fits(l.task.value.pc, e)
    ensures
      var r' := LaneNext(cfg, l, e).row;
      r'.nonce != l.row.nonce ==>
        l.task.value.pc.SavingNonce? && Reached(e) && r'.nonce == l.task.value.mTx.nonce > l.row.nonce
  {
  }

  /** With atomic nonce allocation, Created records of one sender have pairwise distinct nonces. */
  lemma DistinctNonceTheorem(cfg: Config, content: Content, w: World, moves: seq<Move>)
    requires Sound(cfg, content, w) && DistinctCreated(w.Table())
    requires Run(cfg, content, w, moves) && Along(cfg, w, moves, (v, move) => AtomicMove(v, move))
    ensures DistinctCreated(After(cfg, w, moves).Table())
  {
    var inv := v => Sound(cfg, content, v) && DistinctCreated(v.Table());
    var hyp := (v, move) => AtomicMove(v, move);
    forall v, move | inv(v) && Allowed(cfg, content, v, move) && hyp(v, move) ensures inv(Apply(cfg, v, move)) {
      SoundMove(cfg, content, v, move);
      DistinctMove(cfg, content, v, move);
    }
    RunInduction(cfg, content, w, moves, hyp, inv);
  }

  /** Two submissions of one sender that read the same table collide unless the sender has no Created row and L1
      gives them different pending nonces. */
  lemma StaleNoncesIff(cfg: Config, content: Content, w: World, a: MonitoredTx, b: MonitoredTx,
                       p: Result<uint64>, q: Result<uint64>)
    requires DistinctCreated(w.Table()) && Insertable(cfg, w, a) && Insertable(cfg, w, b)
    requires a.from == b.from && a.PrimaryKey() != b.PrimaryKey()
    requires NextNonce(w.Table(), a.from, p) == Ok(a.nonce) && NextNonce(w.Table(), b.from, q) == Ok(b.nonce)
    ensures Run(cfg, content, w, [Insert(a), Insert(b)])
    ensures DistinctCreated(After(cfg, w, [Insert(a), Insert(b)]).Table()) <==>
            Highest(w.Table(), a.from).None? && p != q
  {
    hide Max, Suggested;
    var first, table := [Insert(a)], w.Table();
    assert first[..0] == [] && [Insert(a), Insert(b)][..1] == first;
    assert After(cfg, w, []) == w && Run(cfg, content, w, first);
    TableAfter(cfg, w, Insert(a));
    TableAfter(cfg, Apply(cfg, w, Insert(a)), Insert(b));
    var a', b' := Persisted(a), Persisted(b);
    var table' := table[a.PrimaryKey() := a'];
    assert After(cfg, w, [Insert(a), Insert(b)]).Table() == table'[b.PrimaryKey() := b'];
    NewNonces(table, a.PrimaryKey(), a', a.from);
    DistinctInsertIff(table, a.PrimaryKey(), a');
    if DistinctCreated(table') {
      DistinctInsertIff(table', b.PrimaryKey(), b');
    } else {
      Undistinct(table, a.PrimaryKey(), a', b.PrimaryKey(), b');
    }
  }

  ghost predicate Insertable(cfg: Config, w: World, m: MonitoredTx) {
    Blank(m) && m.PrimaryKey() !in w.lanes && Suggested(cfg, m.gasPrice)
  }

  /** A collision stays when one more row is inserted. */
  lemma Undistinct(table: Table, j: Key, a: MonitoredTx, k: Key, b: MonitoredTx)
    requires !DistinctCreated(table[j := a]) && k !in table[j := a]
    ensures !DistinctCreated(table[j := a][k := b])
  {
    var t, t' := table[j := a], table[j := a][k := b];
    var x, y :| x in t && y in t && x != y && t[x].status == Created && t[y].status == Created
                && t[x].from == t[y].from && t[x].nonce == t[y].nonce;
    assert t'[x] == t[x] && t'[y] == t[y];
  }
}
