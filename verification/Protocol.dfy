/** What `monitorTx` asks, writes and leaves, read off the answers and the rows of one cycle alone. */
module Protocol {
  import opened Basics
  import opened Records
  import opened Monitor
  import opened Lanes
  import opened Manager
  import opened Interleaving
  import opened Outcomes
  import GasPrice

  // ----- How the goroutine's place and copy follow from its answers

  /** The `k`-th last event. */
  function Ago(events: seq<Event>, k: nat): Option<Event> {
    if 1 <= k <= |events| then Some(events[|events| - k]) else None
  }

  predicate AllChecks(events: seq<Event>) {
    forall e | e in events :: e.CheckedMined?
  }

  predicate Errs(e: Event) {
    e.CheckedMined? && e.check.CheckFailed?
  }

  predicate NoneErrs(events: seq<Event>) {
    forall i | 0 <= i < |events| :: !Errs(events[i])
  }

  /** `clean` says that no receipt check failed. */
  predicate CleanIs(pc: Pc, events: seq<Event>) {
    pc.CheckingReceipts? || pc.ReviewingNonce? || pc.AskingPending? || pc.SavingNonce? ==>
      pc.clean == NoneErrs(events)
  }

  predicate NoneSigned(events: seq<Event>) {
    forall e | e in events :: !e.Signed?
  }

  predicate OnlySigned(events: seq<Event>, h: Hash) {
    Signed(Ok(h)) in events && forall e | e in events && e.Signed? :: e == Signed(Ok(h))
  }

  /** The retry count of the copy: one more than at the start once a new transaction was signed. */
  ghost function Retries(m: MonitoredTx, events: seq<Event>): uint64 {
    if exists h :: h !in m.history && Signed(Ok(h)) in events then (m.numRetries + 1) % TWO_64 else m.numRetries
  }

  /** The copy is the row but for the retry count. */
  predicate Same(r: MonitoredTx, c: MonitoredTx) {
    c == r.(numRetries := c.numRetries)
  }

  /** The copy is the row but for the retry count and the high bits of the price. */
  predicate Near(r: MonitoredTx, c: MonitoredTx) {
    c == r.(numRetries := c.numRetries, gasPrice := c.gasPrice) && r.gasPrice == c.gasPrice % TWO_64
  }

  function Larger(a: nat, b: nat): nat {
    if a >= b then a else b
  }

  /** A nonce was read, and the copy has it if it is larger. */
  predicate NonceRead(last: Option<Event>, r: MonitoredTx, c: MonitoredTx) {
    && last.Some?
    && Same(r, c.(nonce := r.nonce))
    && match last.value
       case ReadCreated(Ok(Some(n))) => c.nonce == Larger(r.nonce, (n + 1) % TWO_64)
       case ReadPending(Ok(n)) => c.nonce == Larger(r.nonce, n)
       case _ => false
  }

  /** The last event before the code between the nonce review and the next call. */
  predicate Enters(last: Option<Event>) {
    last.None? || last.value.CheckedMined? || last.value == Wrote(Stored)
  }

  predicate GasRead(e: Option<Event>, r: MonitoredTx, c: MonitoredTx) {
    e.Some? && e.value.EstimatedGas? && e.value.gas.Ok? && c.gas == Larger(r.gas, e.value.gas.value)
  }

  predicate FailedReview(last: Option<Event>, last2: Option<Event>, r: MonitoredTx, c: MonitoredTx) {
    && Same(r, c.(gas := r.gas))
    && (|| (last == Some(EstimatedGas(Err)) && c.gas == r.gas)
        || (last == Some(SuggestedPrice(Err)) && GasRead(last2, r, c)))
  }

  predicate PriceRead(cfg: Config, last: Option<Event>, r: MonitoredTx, c: MonitoredTx) {
    && last.Some? && last.value.SuggestedPrice? && last.value.price.Ok?
    && c.gasPrice ==
       Larger(r.gasPrice, GasPrice.Adjusted(cfg.margin, cfg.maxGasPriceLimit, last.value.price.value))
  }

  /** The copy's price is the row's or the one just suggested. */
  predicate PriceInHand(cfg: Config, last2: Option<Event>, r: MonitoredTx, c: MonitoredTx) {
    || c.gasPrice == r.gasPrice
    || (&& last2.Some? && last2.value.SuggestedPrice? && last2.value.price.Ok?
        && c.gasPrice == GasPrice.Adjusted(cfg.margin, cfg.maxGasPriceLimit, last2.value.price.value))
  }

  predicate ReceiptSeen(last: Option<Event>, h: Hash, rc: Receipt) {
    last == Some(FetchedReceipt(Ok(rc))) || last == Some(CheckedMined(h, Mined(rc)))
  }

  /** A receipt in hand stems from the loop or from the transaction signed. */
  predicate InHandFrom(events: seq<Event>, h: Hash) {
    NoneSigned(events) || OnlySigned(events, h)
  }

  ghost predicate OutcomeRead(events: seq<Event>, h: Hash, rc: Receipt, r: MonitoredTx, c: MonitoredTx) {
    && Near(r, c.(status := r.status, blockNumber := r.blockNumber))
    && c.blockNumber == Some(rc.block)
    && InHandFrom(events, h)
    && Ago(events, 1).Some?
    && match Ago(events, 1).value
       case ReadHead(Head(n)) =>
         n >= rc.block % TWO_64 && rc.success && c.status == Confirmed && ReceiptSeen(Ago(events, 2), h, rc)
       case LookedUpFailed(found) =>
         !found && !rc.success && c.status == Failed && Ago(events, 2) == Some(FetchedReceipt(Ok(rc)))
       case AskedRevert(a) =>
         && a != ExecutionReverted && !rc.success && c.status == Failed
         && Ago(events, 2) == Some(LookedUpFailed(true)) && Ago(events, 3) == Some(FetchedReceipt(Ok(rc)))
       case _ => false
  }

  /** Where the goroutine that loaded `m` is after `events`, and how its copy differs from the row. */
  ghost predicate Tracks(cfg: Config, m: MonitoredTx, events: seq<Event>, r: MonitoredTx, t: Task) {
    var c, last := t.mTx, Ago(events, 1);
    && r == Persisted(r) && (!t.pc.Finished? ==> r.status in {Created, Sent, Reorged})
    && CleanIs(t.pc, events)
    && (!t.pc.Finished? && !t.pc.SavingFailedReview? ==> c.numRetries == Retries(m, events))
    && match t.pc
       case CheckingReceipts(_, _, _, _) =>
         Same(r, c) && NoneSigned(events) && r.history == m.history && AllChecks(events)
       case ReviewingNonce(_) => Same(r, c) && NoneSigned(events) && r.history == m.history && AllChecks(events)
       case AskingPending(_) =>
         Same(r, c) && NoneSigned(events) && r.history == m.history && last == Some(ReadCreated(Ok(None)))
       case SavingNonce(_) => NonceRead(last, r, c) && NoneSigned(events) && r.history == m.history
       case SavingExhausted =>
         && Same(r, c.(status := r.status)) && c.status == Failed && c.numRetries >= cfg.maxRetries
         && Enters(last) && NoneSigned(events)
       case EstimatingGas =>
         Same(r, c) && r.status == Sent && Enters(last) && NoneSigned(events) && r.history == m.history
       case SuggestingPrice =>
         Same(r, c.(gas := r.gas)) && GasRead(last, r, c) && NoneSigned(events) && r.history == m.history
       case SavingFailedReview =>
         FailedReview(last, Ago(events, 2), r, c) && c.numRetries == (m.numRetries + 1) % TWO_64
       case SavingReview =>
         && Same(r, c.(gas := r.gas, gasPrice := r.gasPrice))
         && PriceRead(cfg, last, r, c) && GasRead(Ago(events, 2), r, c) && NoneSigned(events) && r.history == m.history
       case Signing =>
         && Near(r, c) && NoneSigned(events) && r.history == m.history
         && Enters(last) && PriceInHand(cfg, Ago(events, 2), r, c)
       case SavingHistory(h) =>
         && Near(r, c.(history := r.history)) && c.history == r.history + {h}
         && last == Some(Signed(Ok(h))) && h !in m.history && r.history == m.history && OnlySigned(events, h)
       case LookingUp(h) =>
         && Near(r, c) && OnlySigned(events, h) && h in r.history
         && (last == Some(Wrote(Stored)) || (last == Some(Signed(Ok(h))) && h in m.history))
       case Sending(h) => Near(r, c) && OnlySigned(events, h) && h in r.history && last == Some(LookedUp(NotFound))
       case SavingSent(h) =>
         && Near(r, c.(status := r.status)) && r.status == Created && c.status == Sent
         && OnlySigned(events, h) && last == Some(SentOut(true))
       case AwaitingMined(h) => Near(r, c) && OnlySigned(events, h)
       case FetchingReceipt(h) => Near(r, c) && OnlySigned(events, h) && last == Some(Waited(Included))
       case CheckingHead(h, rc) => Near(r, c) && InHandFrom(events, h) && rc.success && ReceiptSeen(last, h, rc)
       case LookingUpFailed(h, rc) =>
         Near(r, c) && OnlySigned(events, h) && !rc.success && last == Some(FetchedReceipt(Ok(rc)))
       case AskingRevert(h, rc) =>
         && Near(r, c) && OnlySigned(events, h) && !rc.success
         && last == Some(LookedUpFailed(true)) && Ago(events, 2) == Some(FetchedReceipt(Ok(rc)))
       case SavingOutcome(h, rc) => OutcomeRead(events, h, rc, r, c)
       case Finished => true
  }

  lemma AgoSnoc(events: seq<Event>, e: Event)
    ensures Ago(events + [e], 1) == Some(e)
    ensures Ago(events + [e], 2) == Ago(events, 1)
    ensures Ago(events + [e], 3) == Ago(events, 2)
    ensures AllChecks(events + [e]) <==> AllChecks(events) && e.CheckedMined?
    ensures NoneSigned(events + [e]) <==> NoneSigned(events) && !e.Signed?
    ensures NoneErrs(events + [e]) <==> NoneErrs(events) && !Errs(e)
  {
    assert (events + [e])[|events|] == e && forall i | 0 <= i < |events| :: (events + [e])[i] == events[i];
    assert forall x :: x in events + [e] <==> x in events || x == e;
  }

  lemma SignedSnoc(m: MonitoredTx, events: seq<Event>, e: Event, h: Hash)
    ensures !e.Signed? ==> (OnlySigned(events + [e], h) <==> OnlySigned(events, h))
    ensures !e.Signed? ==> Retries(m, events + [e]) == Retries(m, events)
    ensures NoneSigned(events) ==> Retries(m, events) == m.numRetries
    ensures NoneSigned(events) && e == Signed(Ok(h)) ==>
              && OnlySigned(events + [e], h)
              && Retries(m, events + [e]) == (if h in m.history then m.numRetries else (m.numRetries + 1) % TWO_64)
  {
    assert forall x :: x in events + [e] <==> x in events || x == e;
    if e == Signed(Ok(h)) && h !in m.history {
      assert Signed(Ok(h)) in events + [e];
    }
  }

  /** The code between the nonce review and the next call. */
  lemma TracksAfterNonce(cfg: Config, m: MonitoredTx, events: seq<Event>, r: MonitoredTx, c: MonitoredTx,
                         success: Option<Sighting>)
    requires r == Persisted(r) && Same(r, c) && c.numRetries == Retries(m, events)
    requires Enters(Ago(events, 1)) && NoneSigned(events) && r.history == m.history
    requires r.status in {Created, Sent, Reorged}
    requires success.Some? ==>
               Ago(events, 1) == Some(CheckedMined(success.value.hash, Mined(success.value.receipt)))
               && success.value.receipt.success
    ensures Tracks(cfg, m, events, r, AfterNonce(cfg, c, success))
  {
    hide Retries, NoneSigned;
  }

  lemma TracksLoop(cfg: Config, m: MonitoredTx, events: seq<Event>, r: MonitoredTx, c: MonitoredTx,
                   pending: set<Hash>, hasFailed: bool, allMined: bool, clean: bool)
    requires r == Persisted(r) && Same(r, c) && c.numRetries == Retries(m, events)
    requires AllChecks(events) && NoneSigned(events) && r.history == m.history
    requires r.status in {Created, Sent, Reorged} && clean == NoneErrs(events)
    ensures Tracks(cfg, m, events, r, Loop(cfg, c, pending, hasFailed, allMined, clean))
  {
    hide AfterNonce, Retries, NoneSigned;
    TracksAfterNonce(cfg, m, events, r, c, None);
  }

  lemma TracksBegin(cfg: Config, m: MonitoredTx, r: MonitoredTx)
    requires r == Persisted(r) && m == r.(numRetries := m.numRetries) && r.status in {Created, Sent, Reorged}
    ensures Tracks(cfg, m, [], r, Begin(cfg, m))
  {
    hide Loop;
    TracksLoop(cfg, m, [], r, m, m.history, false, true, true);
  }

  lemma TracksCheck(cfg: Config, m: MonitoredTx, events: seq<Event>, r: MonitoredTx, t: Task, h: Hash,
                    check: CheckAnswer)
    requires Tracks(cfg, m, events, r, t) && Fits(t.pc, CheckedMined(h, check))
    ensures Tracks(cfg, m, events + [CheckedMined(h, check)], r, Next(cfg, t, CheckedMined(h, check)))
  {
    hide AfterNonce, Loop, Retries, NoneSigned, NoneErrs, Same, Persisted;
    var e := CheckedMined(h, check);
    var events', rest := events + [e], t.pc.pending - {h};
    AgoSnoc(events, e);
    SignedSnoc(m, events, e, h);
    match check
    case CheckFailed => TracksLoop(cfg, m, events', r, t.mTx, rest, t.pc.hasFailed, t.pc.allMined, false);
    case NotMined => TracksLoop(cfg, m, events', r, t.mTx, rest, t.pc.hasFailed, false, t.pc.clean);
    case Mined(rc) =>
      if rc.success {
        TracksAfterNonce(cfg, m, events', r, t.mTx, Some(Sighting(h, rc)));
      } else {
        TracksLoop(cfg, m, events', r, t.mTx, rest, true, t.pc.allMined, t.pc.clean);
      }
  }

  lemma TracksReview(cfg: Config, m: MonitoredTx, events: seq<Event>, r: MonitoredTx, t: Task, e: Event)
    requires Tracks(cfg, m, events, r, t) && Fits(t.pc, e) && ReviewAnswer(e)
    ensures Tracks(cfg, m, events + [e], r, Next(cfg, t, e))
  {
    hide GasPrice.Adjusted, Retries, NoneSigned, NoneErrs, AllChecks;
    AgoSnoc(events, e);
    SignedSnoc(m, events, e, ANY);
  }

  /** A hash for lemmas that do not care which. */
  const ANY: Hash := Hash(seq(32, _ => 0))

  lemma TracksSigned(cfg: Config, m: MonitoredTx, events: seq<Event>, r: MonitoredTx, t: Task, s: Result<Hash>)
    requires Tracks(cfg, m, events, r, t) && Fits(t.pc, Signed(s))
    ensures Tracks(cfg, m, events + [Signed(s)], r, Next(cfg, t, Signed(s)))
  {
    hide GasPrice.Adjusted, Retries, NoneSigned, NoneErrs, Persisted, AllChecks, OnlySigned;
    AgoSnoc(events, Signed(s));
    if s.Ok? {
      SignedSnoc(m, events, Signed(s), s.value);
    }
  }

  lemma TracksSend(cfg: Config, m: MonitoredTx, events: seq<Event>, r: MonitoredTx, t: Task, e: Event)
    requires Tracks(cfg, m, events, r, t) && Fits(t.pc, e) && (e.LookedUp? || e.SentOut? || e.Waited?)
    ensures Tracks(cfg, m, events + [e], r, Next(cfg, t, e))
  {
    hide GasPrice.Adjusted, Retries, NoneSigned, NoneErrs, Persisted, AllChecks, OnlySigned;
    AgoSnoc(events, e);
    SignedSnoc(m, events, e, t.pc.hash);
  }

  lemma TracksConclusion(cfg: Config, m: MonitoredTx, events: seq<Event>, r: MonitoredTx, t: Task, e: Event)
    requires Tracks(cfg, m, events, r, t) && Fits(t.pc, e)
    requires e.FetchedReceipt? || e.ReadHead? || e.LookedUpFailed? || e.AskedRevert?
    ensures Tracks(cfg, m, events + [e], r, Next(cfg, t, e))
  {
    hide GasPrice.Adjusted, Retries, NoneSigned, NoneErrs, Persisted, AllChecks, OnlySigned;
    AgoSnoc(events, e);
    SignedSnoc(m, events, e, t.pc.hash);
  }

  lemma TracksWrite(cfg: Config, m: MonitoredTx, events: seq<Event>, r: MonitoredTx, t: Task, w: WriteAnswer)
    requires Tracks(cfg, m, events, r, t) && Saving(t.pc)
    ensures
      var r' := if w.Refused? then r else Persisted(t.mTx);
      Tracks(cfg, m, events + [Wrote(w)], r', AfterWrite(cfg, t, w.Stored?))
  {
    hide GasPrice.Adjusted, Retries, NoneSigned, NoneErrs, AllChecks, OnlySigned, AfterNonce;
    AgoSnoc(events, Wrote(w));
    SignedSnoc(m, events, Wrote(w), if t.pc.SavingHistory? || t.pc.SavingSent? then t.pc.hash else ANY);
    if t.pc.SavingNonce? && w.Stored? {
      TracksAfterNonce(cfg, m, events + [Wrote(w)], Persisted(t.mTx), t.mTx, None);
    }
  }

  lemma TracksStep(cfg: Config, m: MonitoredTx, events: seq<Event>, l: Lane, e: Event)
    requires l.task.Some? && Tracks(cfg, m, events, l.row, l.task.value) && Fits(l.task.value.pc, e)
    ensures
      var l' := LaneNext(cfg, l, e);
      l'.task.Some? && Tracks(cfg, m, events + [e], l'.row, l'.task.value)
  {
    hide Tracks, Next, Persisted;
    var r, t := l.row, l.task.value;
    match e
    case CheckedMined(h, check) => TracksCheck(cfg, m, events, r, t, h, check);
    case Wrote(w) =>
      TracksWrite(cfg, m, events, r, t, w);
      assert Next(cfg, t, e) == AfterWrite(cfg, t, w.Stored?) by { NextWrite(cfg, t, w); }
    case Signed(s) => TracksSigned(cfg, m, events, r, t, s);
    case LookedUp(_) => TracksSend(cfg, m, events, r, t, e);
    case SentOut(_) => TracksSend(cfg, m, events, r, t, e);
    case Waited(_) => TracksSend(cfg, m, events, r, t, e);
    case ReadCreated(_) => TracksReview(cfg, m, events, r, t, e);
    case ReadPending(_) => TracksReview(cfg, m, events, r, t, e);
    case EstimatedGas(_) => TracksReview(cfg, m, events, r, t, e);
    case SuggestedPrice(_) => TracksReview(cfg, m, events, r, t, e);
    case _ => TracksConclusion(cfg, m, events, r, t, e);
  }

  lemma NextWrite(cfg: Config, t: Task, w: WriteAnswer)
    requires Fits(t.pc, Wrote(w))
    ensures Next(cfg, t, Wrote(w)) == AfterWrite(cfg, t, w.Stored?)
  {
  }

  /** A goroutine just started on `m`, which it loaded from the row. */
  predicate Loads(cfg: Config, l: Lane, m: MonitoredTx) {
    && l.row == Persisted(l.row) && l.row.status in {Created, Sent, Reorged}
    && m == l.row.(numRetries := m.numRetries) && l.task == Some(Begin(cfg, m))
  }

  lemma {:induction false} TracksPath(cfg: Config, l: Lane, m: MonitoredTx, events: seq<Event>)
    requires Loads(cfg, l, m) && LanePath(cfg, l, events)
    ensures
      var l' := LaneAfter(cfg, l, events);
      l'.task.Some? && Tracks(cfg, m, events, l'.row, l'.task.value)
  {
    hide Tracks, LaneNext, Fits, Begin, Persisted;
    if events == [] {
      TracksBegin(cfg, m, l.row);
    } else {
      var before, e := events[..|events| - 1], events[|events| - 1];
      TracksPath(cfg, l, m, before);
      TracksStep(cfg, m, before, LaneAfter(cfg, l, before), e);
      assert before + [e] == events;
    }
  }

  /** The auxiliary flag of a nonce about to be written says what it is meant to say. */
  lemma CleanMeaning(cfg: Config, l: Lane, m: MonitoredTx, events: seq<Event>)
    requires Loads(cfg, l, m) && LanePath(cfg, l, events)
    requires LaneAfter(cfg, l, events).task.Some? && LaneAfter(cfg, l, events).task.value.pc.SavingNonce?
    ensures LaneAfter(cfg, l, events).task.value.pc.clean <==>
            forall i | 0 <= i < |events| && events[i].CheckedMined? :: events[i].check != CheckFailed
  {
    hide Loads, LanePath, LaneAfter;
    TracksPath(cfg, l, m, events);
  }

  // ----- One complete cycle

  /** The goroutine of a watched row that loaded `m` from it got these answers, to its end. */
  ghost predicate Complete(cfg: Config, l: Lane, m: MonitoredTx, events: seq<Event>) {
    && Loads(cfg, l, m) && LanePath(cfg, l, events)
    && var task := LaneAfter(cfg, l, events).task;
       task.Some? && task.value.pc.Finished?
  }

  /** The row after the first `i` answers. */
  function RowAt(cfg: Config, l: Lane, events: seq<Event>, i: nat): MonitoredTx
    requires i <= |events|
  {
    LaneAfter(cfg, l, events[..i]).row
  }

  lemma {:induction false} PathPrefix(cfg: Config, l: Lane, events: seq<Event>, i: nat)
    requires LanePath(cfg, l, events) && i <= |events|
    ensures LanePath(cfg, l, events[..i])
  {
    hide LaneAfter, Fits;
    if i == |events| {
      assert events[..i] == events;
    } else {
      PathPrefix(cfg, l, events[..|events| - 1], i);
      assert events[..|events| - 1][..i] == events[..i];
    }
  }

  /** What is known around answer `i` of a cycle. */
  lemma Around(cfg: Config, l: Lane, m: MonitoredTx, events: seq<Event>, i: nat) returns (t: Task, t': Task)
    requires Complete(cfg, l, m, events) && i < |events|
    ensures
      var r := RowAt(cfg, l, events, i);
      && LaneAfter(cfg, l, events[..i]).task == Some(t) && LaneAfter(cfg, l, events[..i + 1]).task == Some(t')
      && Tracks(cfg, m, events[..i], r, t) && Fits(t.pc, events[i])
      && t' == Next(cfg, t, events[i])
      && RowAt(cfg, l, events, i + 1) ==
         if events[i].Wrote? && !events[i].write.Refused? then Persisted(t.mTx) else r
    ensures if i + 1 < |events| then Fits(t'.pc, events[i + 1]) else t'.pc.Finished?
    ensures forall k | 1 <= k <= 3 :: Ago(events[..i], k) == if k <= i then Some(events[i - k]) else None
  {
    hide Tracks, Next, Fits, Persisted, Loads;
    PathPrefix(cfg, l, events, i);
    PathPrefix(cfg, l, events, i + 1);
    TracksPath(cfg, l, m, events[..i]);
    var l1 := LaneAfter(cfg, l, events[..i]);
    assert events[..i + 1][..i] == events[..i] && events[..i + 1][i] == events[i];
    t, t' := l1.task.value, Next(cfg, l1.task.value, events[i]);
    if i + 1 < |events| {
      PathPrefix(cfg, l, events, i + 2);
      assert events[..i + 2][..i + 1] == events[..i + 1] && events[..i + 2][i + 1] == events[i + 1];
    } else {
      assert events[..i + 1] == events;
    }
  }

  lemma FitsNot(pc: Pc, e: Event)
    ensures Fits(pc, e) ==> !pc.Finished?
  {
  }

  /** What follows an answer in the reviews of nonce, gas and gas price. */
  lemma ReviewCalls(cfg: Config, l: Lane, m: MonitoredTx, events: seq<Event>, i: nat)
    requires Complete(cfg, l, m, events) && i < |events|
    ensures events[i] == ReadCreated(Err) ==> i + 1 == |events|
    ensures events[i] == ReadCreated(Ok(None)) ==> i + 1 < |events| && events[i + 1].ReadPending?
    ensures events[i].ReadCreated? && events[i].highest.Ok? && events[i].highest.value.Some? ==>
              i + 1 < |events| && events[i + 1].Wrote?
    ensures events[i] == ReadPending(Err) ==> i + 1 == |events|
    ensures events[i].ReadPending? && events[i].nonce.Ok? ==> i + 1 < |events| && events[i + 1].Wrote?
    ensures events[i] == EstimatedGas(Err) ==> i + 1 < |events| && events[i + 1].Wrote?
    ensures events[i].EstimatedGas? && events[i].gas.Ok? ==> i + 1 < |events| && events[i + 1].SuggestedPrice?
    ensures events[i].SuggestedPrice? ==> i + 1 < |events| && events[i + 1].Wrote?
  {
    hide Complete, Tracks, GasPrice.Adjusted, LaneAfter, Persisted;
    var t, t' := Around(cfg, l, m, events, i);
  }

  /** What follows an answer from the signature to the receipt. */
  lemma BroadcastCalls(cfg: Config, l: Lane, m: MonitoredTx, events: seq<Event>, i: nat)
    requires Complete(cfg, l, m, events) && i < |events|
    ensures events[i] == Signed(Err) ==> i + 1 == |events|
    ensures events[i].Signed? && events[i].signed.Ok? ==>
              && i + 1 < |events|
              && if events[i].signed.value in l.row.history then events[i + 1].LookedUp? else events[i + 1].Wrote?
    ensures events[i] == LookedUp(NotFound) ==> i + 1 < |events| && events[i + 1].SentOut?
    ensures events[i] == LookedUp(Found) || events[i] == LookedUp(LookupFailed) ==>
              i + 1 < |events| && events[i + 1].Waited?
    ensures events[i] == SentOut(false) ==> i + 1 == |events|
    ensures events[i] == SentOut(true) ==>
              && i + 1 < |events|
              && if RowAt(cfg, l, events, i).status == Created then events[i + 1].Wrote? else events[i + 1].Waited?
    ensures events[i] == Waited(Included) ==> i + 1 < |events| && events[i + 1].FetchedReceipt?
    ensures events[i] == Waited(TimedOut) || events[i] == Waited(WaitFailed) ==> i + 1 == |events|
    ensures events[i] == FetchedReceipt(Err) ==> i + 1 == |events|
    ensures events[i].FetchedReceipt? && events[i].receipt.Ok? ==>
              && i + 1 < |events|
              && if events[i].receipt.value.success then events[i + 1].ReadHead? else events[i + 1].LookedUpFailed?
  {
    hide Complete, GasPrice.Adjusted, LaneAfter, Persisted, Retries, NoneSigned, OnlySigned;
    var t, t' := Around(cfg, l, m, events, i);
    if events[i].Signed? {
      LoadedHistory(cfg, l, m, events);
    }
  }

  lemma LoadedHistory(cfg: Config, l: Lane, m: MonitoredTx, events: seq<Event>)
    requires Complete(cfg, l, m, events)
    ensures m.history == l.row.history
  {
  }

  /** What follows the head and the questions about a failed receipt. */
  lemma OutcomeCalls(cfg: Config, l: Lane, m: MonitoredTx, events: seq<Event>, i: nat)
    requires Complete(cfg, l, m, events) && i < |events|
    ensures events[i].ReadHead? ==>
              && i > 0
              && (|| (events[i - 1].FetchedReceipt? && events[i - 1].receipt.Ok?)
                  || (events[i - 1].CheckedMined? && events[i - 1].check.Mined?))
              && var rc := if events[i - 1].FetchedReceipt? then events[i - 1].receipt.value
                           else events[i - 1].check.receipt;
                 && rc.success
                 && if events[i].head.Head? && events[i].head.block >= rc.block % TWO_64
                    then i + 1 < |events| && events[i + 1].Wrote?
                    else i + 1 == |events|
    ensures events[i] == LookedUpFailed(true) ==> i + 1 < |events| && events[i + 1].AskedRevert?
    ensures events[i] == LookedUpFailed(false) ==> i + 1 < |events| && events[i + 1].Wrote?
    ensures events[i] == AskedRevert(ExecutionReverted) ==> i + 1 == |events|
    ensures events[i].AskedRevert? && events[i] != AskedRevert(ExecutionReverted) ==>
              i + 1 < |events| && events[i + 1].Wrote?
  {
    hide Complete, GasPrice.Adjusted, LaneAfter, Persisted, Retries, NoneSigned, OnlySigned;
    var t, t' := Around(cfg, l, m, events, i);
  }

  /** What follows the write of a reviewed nonce. */
  lemma NonceWriteCalls(cfg: Config, l: Lane, m: MonitoredTx, events: seq<Event>, i: nat)
    requires Complete(cfg, l, m, events) && 0 < i < |events| && events[i] == Wrote(Stored)
    requires events[i - 1].ReadCreated? || events[i - 1].ReadPending?
    ensures if m.numRetries >= cfg.maxRetries then i + 2 == |events| && events[i + 1].Wrote?
            else if RowAt(cfg, l, events, i).status == Reorged then i + 1 == |events|
            else
              && i + 1 < |events|
              && if RowAt(cfg, l, events, i).status == Sent then events[i + 1].EstimatedGas?
                 else events[i + 1].Signed?
  {
    hide Complete, GasPrice.Adjusted, LaneAfter, Persisted, Retries, OnlySigned, NoneErrs;
    var t, t' := Around(cfg, l, m, events, i);
    SignedSnoc(m, events[..i], events[i], ANY);
    if m.numRetries >= cfg.maxRetries {
      LastWrite(cfg, l, m, events, i + 1);
    }
  }

  /** A write after a write is the last one. */
  lemma LastWrite(cfg: Config, l: Lane, m: MonitoredTx, events: seq<Event>, i: nat)
    requires Complete(cfg, l, m, events) && i < |events| && events[i].Wrote?
    requires i == 0 || events[i - 1].CheckedMined? || events[i - 1].Wrote?
    ensures i + 1 == |events|
  {
    hide Complete, GasPrice.Adjusted, LaneAfter, Persisted, Retries, OnlySigned, NoneSigned, NoneErrs, AfterNonce;
    var t, t' := Around(cfg, l, m, events, i);
  }

  /** What follows any other write, depending on the answer before it. */
  lemma WriteCalls(cfg: Config, l: Lane, m: MonitoredTx, events: seq<Event>, i: nat)
    requires Complete(cfg, l, m, events) && i < |events| && events[i].Wrote?
    ensures events[i] != Wrote(Stored) ==> i + 1 == |events|
    ensures events[i] == Wrote(Stored) && i > 0 && events[i - 1].SuggestedPrice? && events[i - 1].price.Ok? ==>
              i + 1 < |events| && events[i + 1].Signed?
    ensures events[i] == Wrote(Stored) && i > 0 && events[i - 1].Signed? ==>
              i + 1 < |events| && events[i + 1].LookedUp?
    ensures events[i] == Wrote(Stored) && i > 0 && events[i - 1].SentOut? ==>
              i + 1 < |events| && events[i + 1].Waited?
    ensures i > 0 && (|| events[i - 1] == EstimatedGas(Err) || events[i - 1] == SuggestedPrice(Err)
                      || events[i - 1].ReadHead? || events[i - 1].LookedUpFailed? || events[i - 1].AskedRevert?) ==>
              i + 1 == |events|
    ensures i == 0 || events[i - 1].CheckedMined? || events[i - 1].Wrote? ==> i + 1 == |events|
  {
    hide Complete, GasPrice.Adjusted, LaneAfter, Persisted, Retries, OnlySigned, NoneSigned, NoneErrs, AfterNonce;
    var t, t' := Around(cfg, l, m, events, i);
  }

  /** Nothing but a write changes the row, and a refused one does not. */
  lemma RowStays(cfg: Config, l: Lane, m: MonitoredTx, events: seq<Event>, i: nat)
    requires Complete(cfg, l, m, events) && i < |events|
    requires !events[i].Wrote? || events[i] == Wrote(Refused)
    ensures RowAt(cfg, l, events, i + 1) == RowAt(cfg, l, events, i)
  {
    hide Complete, Tracks, Next, LaneAfter, Persisted;
    var t, t' := Around(cfg, l, m, events, i);
  }

  /** What a write that reaches the table after a review makes of the row: a larger nonce, or more gas and a higher
      price, or one more retry if the review failed. */
  lemma ReviewWrites(cfg: Config, l: Lane, m: MonitoredTx, events: seq<Event>, i: nat)
    requires Complete(cfg, l, m, events) && 0 < i < |events|
    requires events[i].Wrote? && events[i] != Wrote(Refused)
    ensures
      var r, r', before := RowAt(cfg, l, events, i), RowAt(cfg, l, events, i + 1), events[i - 1];
      && (before.ReadPending? ==>
            && before.nonce.Ok?
            && r' == r.(nonce := Larger(r.nonce, before.nonce.value), numRetries := m.numRetries))
      && (before.ReadCreated? ==>
            && before.highest.Ok? && before.highest.value.Some?
            && r' == r.(nonce := Larger(r.nonce, (before.highest.value.value + 1) % TWO_64),
                        numRetries := m.numRetries))
      && (before.EstimatedGas? ==>
            before == EstimatedGas(Err) && r' == r.(numRetries := (m.numRetries + 1) % TWO_64))
      && (before.SuggestedPrice? ==>
            && i > 1 && events[i - 2].EstimatedGas? && events[i - 2].gas.Ok?
            && var gas := Larger(r.gas, events[i - 2].gas.value);
               if before.price.Err? then r' == r.(gas := gas, numRetries := (m.numRetries + 1) % TWO_64)
               else
                 var price := GasPrice.Adjusted(cfg.margin, cfg.maxGasPriceLimit, before.price.value);
                 r' == r.(gas := gas, gasPrice := Larger(r.gasPrice, price) % TWO_64, numRetries := m.numRetries))
  {
    hide Complete, GasPrice.Adjusted, LaneAfter, NoneSigned, OnlySigned, NoneErrs, Retries, Next, AfterWrite;
    var t, t' := Around(cfg, l, m, events, i);
    SignedSnoc(m, events[..i], events[i], ANY);
  }

  /** What any other write that reaches the table makes of the row: one more transaction in the history and one more
      retry, or a status with or without its block. */
  lemma StatusWrites(cfg: Config, l: Lane, m: MonitoredTx, events: seq<Event>, i: nat)
    requires Complete(cfg, l, m, events) && i < |events|
    requires events[i].Wrote? && events[i] != Wrote(Refused)
    requires i > 0 ==> !events[i - 1].ReadPending? && !events[i - 1].ReadCreated?
                       && !events[i - 1].EstimatedGas? && !events[i - 1].SuggestedPrice?
    ensures
      var r, r' := RowAt(cfg, l, events, i), RowAt(cfg, l, events, i + 1);
      var retries := if exists h :: h !in l.row.history && Signed(Ok(h)) in events[..i]
                     then (m.numRetries + 1) % TWO_64 else m.numRetries;
      var before := if i > 0 then events[i - 1] else Wrote(Stored);
      if before.Signed? then
        && before.signed.Ok? && before.signed.value !in r.history
        && r' == r.(history := r.history + {before.signed.value}, numRetries := (m.numRetries + 1) % TWO_64)
      else if before.SentOut? then
        before.accepted && r.status == Created && r' == r.(status := Sent, numRetries := retries)
      else if before.ReadHead? then
        && i > 1
        && (|| (events[i - 2].FetchedReceipt? && events[i - 2].receipt.Ok?)
            || (events[i - 2].CheckedMined? && events[i - 2].check.Mined?))
        && var rc := if events[i - 2].FetchedReceipt? then events[i - 2].receipt.value else events[i - 2].check.receipt;
           && rc.success
           && r' == r.(status := Confirmed, blockNumber := Some(rc.block % TWO_64), numRetries := retries)
      else if before.LookedUpFailed? then
        && i > 1 && events[i - 2].FetchedReceipt? && events[i - 2].receipt.Ok? && !events[i - 2].receipt.value.success
        && r' == r.(status := Failed, blockNumber := Some(events[i - 2].receipt.value.block % TWO_64),
                    numRetries := retries)
      else if before.AskedRevert? then
        && i > 2 && events[i - 3].FetchedReceipt? && events[i - 3].receipt.Ok? && !events[i - 3].receipt.value.success
        && r' == r.(status := Failed, blockNumber := Some(events[i - 3].receipt.value.block % TWO_64),
                    numRetries := retries)
      else
        m.numRetries >= cfg.maxRetries && r' == r.(status := Failed, numRetries := m.numRetries)
  {
    hide Complete, GasPrice.Adjusted, LaneAfter, NoneSigned, NoneErrs, Next, AfterWrite;
    var t, t' := Around(cfg, l, m, events, i);
    LoadedHistory(cfg, l, m, events);
    SignedSnoc(m, events[..i], events[i], ANY);
  }

  /** The unsigned transaction, field by field: the row's, at the price of the row or, if that was raised just now
      to more than 64 bits hold, at the full price of which the row keeps the low bits. */
  lemma UnsignedTx(cfg: Config, l: Lane, m: MonitoredTx, events: seq<Event>, i: nat) returns (t: Task)
    requires Complete(cfg, l, m, events) && i < |events| && events[i].Signed?
    ensures LaneAfter(cfg, l, events[..i]).task == Some(t)
    ensures
      var r, tx := RowAt(cfg, l, events, i), t.mTx.Tx();
      && tx.to == r.to && tx.nonce == r.nonce && tx.value == r.value && tx.data == r.data
      && tx.gas == (r.gas + r.gasOffset) % TWO_64
      && tx.gasPrice % TWO_64 == r.gasPrice
      && (tx.gasPrice == r.gasPrice
          || (&& i > 1 && events[i - 2].SuggestedPrice? && events[i - 2].price.Ok?
              && tx.gasPrice == GasPrice.Adjusted(cfg.margin, cfg.maxGasPriceLimit, events[i - 2].price.value)))
  {
    hide Complete, GasPrice.Adjusted, LaneAfter, Next, Retries, NoneSigned, OnlySigned;
    var t';
    t, t' := Around(cfg, l, m, events, i);
  }

  /** From the signature on it is the signed transaction that is looked up, sent, recorded as sent, waited for and
      asked about, and it is in the row's history before it is sent. */
  lemma HandedOver(cfg: Config, l: Lane, m: MonitoredTx, events: seq<Event>, i: nat) returns (h: Hash)
    requires Complete(cfg, l, m, events) && i < |events|
    requires events[i].LookedUp? || events[i].SentOut? || events[i].Waited? || events[i].FetchedReceipt?
             || events[i].LookedUpFailed? || events[i].AskedRevert?
    ensures Signed(Ok(h)) in events[..i] && forall e | e in events[..i] && e.Signed? :: e == Signed(Ok(h))
    ensures
      var before, after := LaneAfter(cfg, l, events[..i]), LaneAfter(cfg, l, events[..i + 1]);
      && before.task.Some? && CallHash(before.task.value.pc) == Some(h)
      && (events[i].LookedUp? || events[i].SentOut? ==> h in before.row.history)
      && after.handed == before.handed + (if events[i] == LookedUp(NotFound) then {h} else {})
      && after.accepted == before.accepted + (if events[i] == SentOut(true) then {h} else {})
  {
    hide Complete, GasPrice.Adjusted, Next, Retries, NoneSigned, LaneAfter;
    var t, t' := Around(cfg, l, m, events, i);
    h := t.pc.hash;
    LastLane(cfg, l, events, i);
  }

  /** The transaction a call is about. */
  function CallHash(pc: Pc): Option<Hash> {
    match pc
    case LookingUp(h) => Some(h)
    case Sending(h) => Some(h)
    case AwaitingMined(h) => Some(h)
    case FetchingReceipt(h) => Some(h)
    case LookingUpFailed(h, _) => Some(h)
    case AskingRevert(h, _) => Some(h)
    case _ => None
  }

  lemma LastLane(cfg: Config, l: Lane, events: seq<Event>, i: nat)
    requires i < |events|
    ensures LaneAfter(cfg, l, events[..i + 1]) == LaneNext(cfg, LaneAfter(cfg, l, events[..i]), events[i])
  {
    hide LaneNext;
    assert events[..i + 1][..i] == events[..i];
  }

  // ----- The receipt checks at the start of a cycle

  predicate Succeeds(e: Event) {
    e.CheckedMined? && e.check.Mined? && e.check.receipt.success
  }

  predicate Fails(e: Event) {
    e.CheckedMined? && e.check.Mined? && !e.check.receipt.success
  }

  predicate Misses(e: Event) {
    e.CheckedMined? && e.check.NotMined?
  }

  ghost predicate SomeFails(events: seq<Event>) {
    exists i | 0 <= i < |events| :: Fails(events[i])
  }

  predicate NoneMisses(events: seq<Event>) {
    forall i | 0 <= i < |events| :: !Misses(events[i])
  }

  predicate NoneSucceeds(events: seq<Event>) {
    forall i | 0 <= i < |events| :: !Succeeds(events[i])
  }

  function HashesOf(events: seq<Event>): set<Hash> {
    set e | e in events && e.CheckedMined? :: e.hash
  }

  predicate Distinct(events: seq<Event>) {
    forall i, j | 0 <= i < j < |events| && events[i].CheckedMined? && events[j].CheckedMined? ::
      events[i].hash != events[j].hash
  }

  /** In the loop, after these checks. */
  ghost predicate Looping(m: MonitoredTx, events: seq<Event>, t: Task) {
    && t.pc.CheckingReceipts? && t.mTx == m
    && AllChecks(events) && Distinct(events) && HashesOf(events) <= m.history
    && t.pc.pending == m.history - HashesOf(events)
    && t.pc.hasFailed == SomeFails(events) && t.pc.allMined == NoneMisses(events)
    && t.pc.clean == NoneErrs(events) && NoneSucceeds(events)
  }

  /** Right after the loop. */
  ghost predicate Left(cfg: Config, m: MonitoredTx, events: seq<Event>, t: Task) {
    && AllChecks(events) && Distinct(events) && HashesOf(events) <= m.history
    && (events != [] ==> NoneSucceeds(events[..|events| - 1]))
    && if events != [] && Succeeds(events[|events| - 1]) then
         var e := events[|events| - 1];
         t == AfterNonce(cfg, m, Some(Sighting(e.hash, e.check.receipt)))
       else
         && HashesOf(events) == m.history
         && t == AfterReceipts(cfg, m, None, SomeFails(events), NoneMisses(events), NoneErrs(events))
  }

  ghost predicate LoopedOrLeft(cfg: Config, m: MonitoredTx, events: seq<Event>, t: Task) {
    if t.pc.CheckingReceipts? then Looping(m, events, t) else Left(cfg, m, events, t)
  }

  lemma LoopBegins(cfg: Config, m: MonitoredTx)
    ensures LoopedOrLeft(cfg, m, [], Begin(cfg, m))
  {
  }

  lemma LoopGoesOn(cfg: Config, m: MonitoredTx, events: seq<Event>, t: Task, h: Hash, check: CheckAnswer)
    requires Looping(m, events, t) && h in t.pc.pending
    ensures LoopedOrLeft(cfg, m, events + [CheckedMined(h, check)], Next(cfg, t, CheckedMined(h, check)))
  {
    hide SomeFails, NoneMisses, NoneErrs, NoneSucceeds, AllChecks, Distinct, HashesOf;
    var e := CheckedMined(h, check);
    var events' := events + [e];
    CheckSnoc(events, e);
    AgoSnoc(events, e);
    assert events'[..|events'| - 1] == events;
    assert t.pc.pending - {h} == m.history - HashesOf(events');
    assert t.pc.pending == {h} ==> HashesOf(events') == m.history;
  }

  lemma CheckSnoc(events: seq<Event>, e: Event)
    requires e.CheckedMined?
    ensures SomeFails(events + [e]) <==> SomeFails(events) || Fails(e)
    ensures NoneMisses(events + [e]) <==> NoneMisses(events) && !Misses(e)
    ensures NoneErrs(events + [e]) <==> NoneErrs(events) && !Errs(e)
    ensures NoneSucceeds(events + [e]) <==> NoneSucceeds(events) && !Succeeds(e)
    ensures HashesOf(events + [e]) == HashesOf(events) + {e.hash}
    ensures Distinct(events) && e.hash !in HashesOf(events) ==> Distinct(events + [e])
  {
    var events' := events + [e];
    assert events'[|events|] == e && forall i | 0 <= i < |events| :: events'[i] == events[i];
    assert forall x :: x in events' <==> x in events || x == e;
    assert forall i | 0 <= i < |events| :: events[i].CheckedMined? ==> events[i].hash in HashesOf(events);
  }

  /** Checks come first, and only while the loop runs. */
  lemma {:induction false} ChecksFirst(cfg: Config, l: Lane, m: MonitoredTx, events: seq<Event>) returns (n: nat)
    requires l.task == Some(Begin(cfg, m)) && LanePath(cfg, l, events)
    ensures n <= |events| && forall i | n <= i < |events| :: !events[i].CheckedMined?
    ensures LaneAfter(cfg, l, events).task.Some?
    ensures LaneAfter(cfg, l, events).task.value.pc.CheckingReceipts? ==> n == |events|
    ensures LaneAfter(cfg, l, events[..n]).task.Some?
    ensures LoopedOrLeft(cfg, m, events[..n], LaneAfter(cfg, l, events[..n]).task.value)
    ensures n < |events| ==> !LaneAfter(cfg, l, events[..n]).task.value.pc.CheckingReceipts?
  {
    hide LoopedOrLeft, Looping, Next, Begin;
    if events == [] {
      n := 0;
      LoopBegins(cfg, m);
    } else {
      var before, e := events[..|events| - 1], events[|events| - 1];
      n := ChecksFirst(cfg, l, m, before);
      var t := LaneAfter(cfg, l, before).task.value;
      CheckEnds(cfg, t, e);
      assert before[..n] == events[..n];
      if t.pc.CheckingReceipts? {
        assert before[..n] == before && before + [e] == events && events[..n + 1] == events;
        Unfolded(cfg, m, before, t, e);
        LoopGoesOn(cfg, m, before, t, e.hash, e.check);
        n := n + 1;
      }
    }
  }

  lemma Unfolded(cfg: Config, m: MonitoredTx, events: seq<Event>, t: Task, e: Event)
    requires t.pc.CheckingReceipts? && LoopedOrLeft(cfg, m, events, t) && Fits(t.pc, e)
    ensures e.CheckedMined? && Looping(m, events, t) && e.hash in t.pc.pending
  {
  }

  lemma CheckEnds(cfg: Config, t: Task, e: Event)
    requires Fits(t.pc, e)
    ensures e.CheckedMined? <==> t.pc.CheckingReceipts?
    ensures Next(cfg, t, e).pc.CheckingReceipts? ==> t.pc.CheckingReceipts?
  {
    hide GasPrice.Adjusted;
  }

  /** A cycle starts with `n` receipt checks of different hashes of the history, ending with the first success or
      when all were asked for. From there: after a success, the head is asked for below the retry limit; if none
      succeeded, some failed and none was reported missing, the nonce is reviewed; from the retry limit on there
      is one write; and otherwise the status decides. */
  lemma ChecksThen(cfg: Config, l: Lane, m: MonitoredTx, events: seq<Event>) returns (n: nat)
    requires Complete(cfg, l, m, events)
    ensures n <= |events|
    ensures forall i | 0 <= i < |events| :: events[i].CheckedMined? <==> i < n
    ensures forall i | 0 <= i < n :: events[i].hash in l.row.history && (i + 1 < n ==> !Succeeds(events[i]))
    ensures forall i, j | 0 <= i < j < n :: events[i].hash != events[j].hash
    ensures
      var success := n > 0 && Succeeds(events[n - 1]);
      var review := (exists i | 0 <= i < n :: Fails(events[i])) && forall i | 0 <= i < n :: !Misses(events[i]);
      && (!success ==> forall h | h in l.row.history :: exists i | 0 <= i < n :: events[i].hash == h)
      && if !success && review then n < |events| && events[n].ReadCreated?
         else if m.numRetries >= cfg.maxRetries then n + 1 == |events| && events[n].Wrote?
         else if success then n < |events| && events[n].ReadHead?
         else if l.row.status == Reorged then n == |events|
         else n < |events| && if l.row.status == Sent then events[n].EstimatedGas? else events[n].Signed?
  {
    hide Tracks, Next, Persisted, Begin, LaneAfter, LanePath, Left, Looping, Fails, Misses, Succeeds, Complete, Fits;
    hide LoopedOrLeft;
    CompletePath(cfg, l, m, events);
    n := ChecksFirst(cfg, l, m, events);
    var checks := events[..n];
    var t := LaneAfter(cfg, l, checks).task.value;
    LoopOver(cfg, l, m, events, n, t);
    LeftShape(cfg, m, events, n, t);
    LeftHashes(cfg, m, events, n, t);
    if n < |events| && t.pc.SavingExhausted? {
      WriteCalls(cfg, l, m, events, n);
    }
  }

  lemma CompletePath(cfg: Config, l: Lane, m: MonitoredTx, events: seq<Event>)
    requires Complete(cfg, l, m, events)
    ensures l.task == Some(Begin(cfg, m)) && LanePath(cfg, l, events)
  {
  }

  lemma LoopOver(cfg: Config, l: Lane, m: MonitoredTx, events: seq<Event>, n: nat, t: Task)
    requires Complete(cfg, l, m, events) && n <= |events| && LaneAfter(cfg, l, events[..n]).task == Some(t)
    requires LoopedOrLeft(cfg, m, events[..n], t) && (n < |events| ==> !t.pc.CheckingReceipts?)
    ensures Left(cfg, m, events[..n], t)
    ensures t.pc.Finished? <==> n == |events|
    ensures n < |events| ==>
              && (t.pc.ReviewingNonce? ==> events[n].ReadCreated?)
              && (t.pc.SavingExhausted? ==> events[n].Wrote?)
              && (t.pc.CheckingHead? ==> events[n].ReadHead?)
              && (t.pc.EstimatingGas? ==> events[n].EstimatedGas?)
              && (t.pc.Signing? ==> events[n].Signed?)
    ensures m.history == l.row.history && m.status == l.row.status
  {
    hide Tracks, Next, Persisted, Begin, LanePath, Left, Looping;
    if n == |events| {
      assert events[..n] == events;
    } else {
      var _, _ := Around(cfg, l, m, events, n);
    }
  }

  /** Where the loop leads. */
  lemma LeftShape(cfg: Config, m: MonitoredTx, events: seq<Event>, n: nat, t: Task)
    requires n <= |events| && Left(cfg, m, events[..n], t)
    ensures
      var success := n > 0 && Succeeds(events[n - 1]);
      var review := (exists i | 0 <= i < n :: Fails(events[i])) && forall i | 0 <= i < n :: !Misses(events[i]);
      if !success && review then t.pc.ReviewingNonce?
      else if m.numRetries >= cfg.maxRetries then t.pc.SavingExhausted?
      else if success then t.pc.CheckingHead?
      else if m.status == Reorged then t.pc.Finished?
      else if m.status == Sent then t.pc.EstimatingGas?
      else t.pc.Signing?
  {
    hide Succeeds, Fails, Misses, AllChecks, Distinct, HashesOf, NoneErrs;
    var checks := events[..n];
    assert forall i | 0 <= i < n :: checks[i] == events[i];
    assert SomeFails(checks) <==> exists i | 0 <= i < n :: Fails(events[i]);
    assert NoneMisses(checks) <==> forall i | 0 <= i < n :: !Misses(events[i]);
  }

  lemma LeftHashes(cfg: Config, m: MonitoredTx, events: seq<Event>, n: nat, t: Task)
    requires n <= |events| && Left(cfg, m, events[..n], t)
    ensures forall i | 0 <= i < n :: events[i].CheckedMined? && events[i].hash in m.history
    ensures forall i | 0 <= i < n - 1 :: !Succeeds(events[i])
    ensures forall i, j | 0 <= i < j < n :: events[i].hash != events[j].hash
    ensures !(n > 0 && Succeeds(events[n - 1])) ==>
              forall h | h in m.history :: exists i | 0 <= i < n :: events[i].hash == h
  {
    hide Left, AllChecks, Distinct, HashesOf, Succeeds, NoneSucceeds;
    LeftParts(cfg, m, events, n, t);
    ChecksAt(events, n, m.history);
    NoneSucceedsAt(events, n);
    if !(n > 0 && Succeeds(events[n - 1])) {
      forall h | h in m.history ensures exists i | 0 <= i < n :: events[i].hash == h {
        VisitedAt(events, n, h);
      }
    }
  }

  lemma LeftParts(cfg: Config, m: MonitoredTx, events: seq<Event>, n: nat, t: Task)
    requires n <= |events| && Left(cfg, m, events[..n], t)
    ensures AllChecks(events[..n]) && Distinct(events[..n]) && HashesOf(events[..n]) <= m.history
    ensures n > 0 ==> NoneSucceeds(events[..n - 1])
    ensures !(n > 0 && Succeeds(events[n - 1])) ==> HashesOf(events[..n]) == m.history
  {
    hide AfterNonce, AfterReceipts, NoneErrs, NoneMisses, SomeFails, Succeeds, NoneSucceeds, Distinct, AllChecks;
    if n > 0 {
      assert events[..n][..n - 1] == events[..n - 1];
    }
  }

  lemma ChecksAt(events: seq<Event>, n: nat, history: set<Hash>)
    requires n <= |events| && AllChecks(events[..n]) && Distinct(events[..n]) && HashesOf(events[..n]) <= history
    ensures forall i | 0 <= i < n :: events[i].CheckedMined? && events[i].hash in history
    ensures forall i, j | 0 <= i < j < n :: events[i].hash != events[j].hash
  {
    assert forall i | 0 <= i < n :: events[..n][i] == events[i] && events[i] in events[..n];
    assert forall i | 0 <= i < n :: events[i].hash in HashesOf(events[..n]);
  }

  lemma NoneSucceedsAt(events: seq<Event>, n: nat)
    requires n <= |events| && (n > 0 ==> NoneSucceeds(events[..n - 1]))
    ensures forall i | 0 <= i < n - 1 :: !Succeeds(events[i])
  {
    assert forall i | 0 <= i < n - 1 :: events[..n - 1][i] == events[i];
  }

  lemma VisitedAt(events: seq<Event>, n: nat, h: Hash)
    requires n <= |events| && h in HashesOf(events[..n]) && AllChecks(events[..n])
    ensures forall i | 0 <= i < n :: events[i].CheckedMined?
    ensures exists i | 0 <= i < n :: events[i].hash == h
  {
    assert forall i | 0 <= i < n :: events[..n][i] == events[i] && events[i] in events[..n];
    var e :| e in events[..n] && e.CheckedMined? && e.hash == h;
    var i :| 0 <= i < n && events[..n][i] == e;
    assert events[i].hash == h;
  }

  // ----- A failed receipt

  /** After the failed receipt of the transaction signed in this cycle there are at most three more events. */
  lemma AfterFailedReceipt(cfg: Config, l: Lane, m: MonitoredTx, events: seq<Event>, i: nat)
    requires Complete(cfg, l, m, events) && i < |events|
    requires events[i].FetchedReceipt? && events[i].receipt.Ok? && !events[i].receipt.value.success
    ensures i + 1 < |events| && events[i + 1].LookedUpFailed?
    ensures events[i + 1] == LookedUpFailed(false) ==> i + 3 == |events| && events[i + 2].Wrote?
    ensures events[i + 1] == LookedUpFailed(true) ==>
              && i + 2 < |events| && events[i + 2].AskedRevert?
              && if events[i + 2] == AskedRevert(ExecutionReverted) then i + 3 == |events|
                 else i + 4 == |events| && events[i + 3].Wrote?
  {
    hide Complete, RowAt;
    BroadcastCalls(cfg, l, m, events, i);
    OutcomeCalls(cfg, l, m, events, i + 1);
    if events[i + 1] == LookedUpFailed(false) {
      WriteCalls(cfg, l, m, events, i + 2);
    } else {
      OutcomeCalls(cfg, l, m, events, i + 2);
      if events[i + 2] != AskedRevert(ExecutionReverted) {
        WriteCalls(cfg, l, m, events, i + 3);
      }
    }
  }

  /** The questions about a failed receipt come right after it. */
  lemma QuestionsAfterReceipt(cfg: Config, l: Lane, m: MonitoredTx, events: seq<Event>, j: nat)
    requires Complete(cfg, l, m, events) && j < |events|
    ensures events[j].LookedUpFailed? ==>
              && j > 0 && events[j - 1].FetchedReceipt? && events[j - 1].receipt.Ok?
              && !events[j - 1].receipt.value.success
    ensures events[j].AskedRevert? ==>
              && j > 1 && events[j - 2].FetchedReceipt? && events[j - 2].receipt.Ok?
              && !events[j - 2].receipt.value.success
  {
    hide Complete, LaneAfter, Persisted, Next, Retries, NoneSigned, OnlySigned;
    var t, t' := Around(cfg, l, m, events, j);
  }

  lemma OneFailedReceipt(cfg: Config, l: Lane, m: MonitoredTx, events: seq<Event>, i: nat, j: nat)
    requires Complete(cfg, l, m, events) && i < |events| && j < |events|
    requires events[i].FetchedReceipt? && events[i].receipt.Ok? && !events[i].receipt.value.success
    requires events[j].FetchedReceipt? && events[j].receipt.Ok? && !events[j].receipt.value.success
    ensures i == j
  {
    hide Complete;
    AfterFailedReceipt(cfg, l, m, events, i);
    AfterFailedReceipt(cfg, l, m, events, j);
  }

  /** If the transaction sent in this cycle was mined and failed, the record is marked Failed with the block of the
      receipt exactly if the transaction was not found any more, or its revert was explained by anything but the
      bare "execution reverted", and the write was not refused; else its row is as it was. */
  lemma FailedReceipt(cfg: Config, l: Lane, m: MonitoredTx, events: seq<Event>, i: nat, rc: Receipt)
    requires Complete(cfg, l, m, events) && i < |events| && events[i] == FetchedReceipt(Ok(rc)) && !rc.success
    ensures
      var given := LookedUpFailed(false) in events || exists a :: a != ExecutionReverted && AskedRevert(a) in events;
      var failed := given && events[|events| - 1] != Wrote(Refused);
      var r, r' := RowAt(cfg, l, events, i), RowAt(cfg, l, events, |events|);
      && (r'.status == Failed <==> failed)
      && r' == if failed
               then r.(status := Failed, blockNumber := Some(rc.block % TWO_64), numRetries := r'.numRetries)
               else r
  {
    hide Complete, RowAt;
    AfterFailedReceipt(cfg, l, m, events, i);
    RowStays(cfg, l, m, events, i);
    RowStays(cfg, l, m, events, i + 1);
    StillWatched(cfg, l, m, events, i);
    if LookedUpFailed(false) in events {
      var j :| 0 <= j < |events| && events[j] == LookedUpFailed(false);
      QuestionsAfterReceipt(cfg, l, m, events, j);
      OneFailedReceipt(cfg, l, m, events, i, j - 1);
    }
    if a :| a != ExecutionReverted && AskedRevert(a) in events {
      var j :| 0 <= j < |events| && events[j] == AskedRevert(a);
      QuestionsAfterReceipt(cfg, l, m, events, j);
      OneFailedReceipt(cfg, l, m, events, i, j - 2);
    }
    if events[i + 1] == LookedUpFailed(true) {
      RowStays(cfg, l, m, events, i + 2);
    }
    var last := |events| - 1;
    if events[last] == Wrote(Refused) {
      RowStays(cfg, l, m, events, last);
    } else if events[last].Wrote? {
      StatusWrites(cfg, l, m, events, last);
    }
  }

  lemma StillWatched(cfg: Config, l: Lane, m: MonitoredTx, events: seq<Event>, i: nat)
    requires Complete(cfg, l, m, events) && i < |events|
    ensures RowAt(cfg, l, events, i).status in {Created, Sent, Reorged}
  {
    hide Complete, LaneAfter, Persisted, Next, Retries, NoneSigned, OnlySigned;
    var t, t' := Around(cfg, l, m, events, i);
    FitsNot(t.pc, events[i]);
  }

  // ----- Cycles in runs

  /** In every run, a cycle of a watched record that runs to its end is a complete one, from the row as the cycle
      found it to the row it leaves; a zero retry count starts as the size of the history. */
  lemma CycleOfRun(cfg: Config, content: Content, w: World, moves: seq<Move>, k: Key)
    returns (l: Lane, m: MonitoredTx)
    requires Sound(cfg, content, w) && Run(cfg, content, w, [BeginCycle] + moves) && Undisturbed(k, moves)
    requires k in w.lanes && w.lanes[k].row.status in {Created, Sent, Reorged}
    ensures k in After(cfg, w, [BeginCycle] + moves).lanes && l == Apply(cfg, w, BeginCycle).lanes[k]
    ensures Idle(After(cfg, w, [BeginCycle] + moves).lanes[k]) ==> Complete(cfg, l, m, EventsOf(k, moves))
    ensures RowAt(cfg, l, EventsOf(k, moves), 0) == l.row == w.Table()[k]
    ensures RowAt(cfg, l, EventsOf(k, moves), |EventsOf(k, moves)|) ==
            After(cfg, w, [BeginCycle] + moves).Table()[k]
    ensures
      var r := w.Table()[k];
      m == r.(numRetries := if r.numRetries == 0 then |r.history| % TWO_64 else r.numRetries)
  {
    hide Run, After, LanePath, Begin, EventsOf, Sound, Persisted;
    var w1, events := Apply(cfg, w, BeginCycle), EventsOf(k, moves);
    RunTail(cfg, content, w, BeginCycle, moves);
    OpenedLane(cfg, w, k);
    l, m := w1.lanes[k], Normalised(w.lanes[k].row);
    SoundRow(cfg, content, w, k);
    LaneOfRun(cfg, content, w1, moves, k);
    assert events[..|events|] == events && events[..0] == [];
    TracksPath(cfg, l, m, events);
  }

  lemma SoundRow(cfg: Config, content: Content, w: World, k: Key)
    requires Sound(cfg, content, w) && k in w.lanes
    ensures w.lanes[k].row == Persisted(w.lanes[k].row)
  {
    assert LaneOk(cfg, content, w.chain, k, w.lanes[k]);
  }

  /** In every run, and whatever the rest of the run does: a cycle that fetches the failed receipt of the transaction
      it signed, and that runs to its end, leaves the row Failed with the receipt's block exactly if that transaction
      was not found any more, or its revert was explained by anything but the bare "execution reverted", and the
      write was not refused; else the row stays as it was when the receipt came. */
  lemma FailedReceiptTheorem(cfg: Config, content: Content, w: World, moves: seq<Move>, k: Key, i: nat, rc: Receipt)
    requires Sound(cfg, content, w) && Run(cfg, content, w, [BeginCycle] + moves) && Undisturbed(k, moves)
    requires k in w.lanes && w.lanes[k].row.status in {Created, Sent, Reorged}
    requires i < |EventsOf(k, moves)| && EventsOf(k, moves)[i] == FetchedReceipt(Ok(rc)) && !rc.success
    ensures k in After(cfg, w, [BeginCycle] + moves).lanes
    ensures
      var w', events := After(cfg, w, [BeginCycle] + moves), EventsOf(k, moves);
      var given := LookedUpFailed(false) in events || exists a :: a != ExecutionReverted && AskedRevert(a) in events;
      var failed := given && events[|events| - 1] != Wrote(Refused);
      var r, r' := RowAt(cfg, Apply(cfg, w, BeginCycle).lanes[k], events, i), w'.Table()[k];
      Idle(w'.lanes[k]) ==>
        && (r'.status == Failed <==> failed)
        && r' == if failed
                 then r.(status := Failed, blockNumber := Some(rc.block % TWO_64), numRetries := r'.numRetries)
                 else r
  {
    hide Run, After, Complete, RowAt, EventsOf, Sound, Idle, Apply, LaneAfter;
    var l, m := CycleOfRun(cfg, content, w, moves, k);
    if Idle(After(cfg, w, [BeginCycle] + moves).lanes[k]) {
      FailedReceipt(cfg, l, m, EventsOf(k, moves), i, rc);
    }
  }
}
