/** The receipt loop of `monitorTx`, for every order in which Go may iterate the history map. */
module ReceiptLoop {
  import opened Basics
  import opened Records
  import opened Monitor
  import opened Lanes
  import opened Invariants
  import GasPrice

  function TaskAfter(cfg: Config, t: Task, events: seq<Event>): Task {
    if events == [] then t
    else Next(cfg, TaskAfter(cfg, t, events[..|events| - 1]), events[|events| - 1])
  }

  /** Each event answers the call the goroutine is making. */
  predicate Path(cfg: Config, t: Task, events: seq<Event>) {
    events != [] ==>
      var before := events[..|events| - 1];
      Path(cfg, t, before) && Fits(TaskAfter(cfg, t, before).pc, events[|events| - 1])
  }

  /** The events are receipt checks, answered per hash by `answer`. */
  predicate Checks(events: seq<Event>, answer: Hash -> CheckAnswer) {
    forall e | e in events :: e.CheckedMined? && e.check == answer(e.hash)
  }

  predicate Success(a: CheckAnswer) {
    a.Mined? && a.receipt.success
  }

  predicate Failure(a: CheckAnswer) {
    a.Mined? && !a.receipt.success
  }

  ghost predicate SomeSuccess(hs: set<Hash>, answer: Hash -> CheckAnswer) {
    exists h :: h in hs && Success(answer(h))
  }

  ghost predicate SomeFailure(hs: set<Hash>, answer: Hash -> CheckAnswer) {
    exists h :: h in hs && Failure(answer(h))
  }

  ghost predicate AllAnsweredMined(hs: set<Hash>, answer: Hash -> CheckAnswer) {
    forall h | h in hs :: answer(h) != NotMined
  }

  ghost predicate NoCheckFailed(hs: set<Hash>, answer: Hash -> CheckAnswer) {
    forall h | h in hs :: answer(h) != CheckFailed
  }

  /** While the loop runs, its variables summarise the visited hashes. */
  ghost predicate Summarises(m: MonitoredTx, t: Task, answer: Hash -> CheckAnswer)
    requires t.pc.CheckingReceipts?
  {
    var visited := m.history - t.pc.pending;
    && t.mTx == m && t.pc.pending <= m.history
    && !SomeSuccess(visited, answer)
    && t.pc.hasFailed == SomeFailure(visited, answer)
    && t.pc.allMined == AllAnsweredMined(visited, answer)
    && t.pc.clean == NoCheckFailed(visited, answer)
  }

  /** Where the loop ends: at a successful receipt if there is one, in the nonce review if none
      succeeded, some failed and none is missing, and otherwise past both. */
  ghost predicate LoopResult(cfg: Config, m: MonitoredTx, t: Task, answer: Hash -> CheckAnswer) {
    if SomeSuccess(m.history, answer) then
      exists h | h in m.history && Success(answer(h)) :: t == AfterNonce(cfg, m, Some(Sighting(h, answer(h).receipt)))
    else if SomeFailure(m.history, answer) && AllAnsweredMined(m.history, answer) then
      t == Task(ReviewingNonce(NoCheckFailed(m.history, answer)), m)
    else
      t == AfterNonce(cfg, m, None)
  }

  /** What holds at `t`, in the loop or right after it. */
  ghost predicate LoopSpec(cfg: Config, m: MonitoredTx, t: Task, answer: Hash -> CheckAnswer) {
    if t.pc.CheckingReceipts? then Summarises(m, t, answer) else LoopResult(cfg, m, t, answer)
  }

  lemma LoopCheck(cfg: Config, m: MonitoredTx, t: Task, h: Hash, answer: Hash -> CheckAnswer)
    requires t.pc.CheckingReceipts? && h in t.pc.pending && Summarises(m, t, answer)
    ensures
      var t' := Next(cfg, t, CheckedMined(h, answer(h)));
      LoopSpec(cfg, m, t', answer)
  {
    var rest := t.pc.pending - {h};
    var visited, visited' := m.history - t.pc.pending, m.history - rest;
    assert visited' == visited + {h};
    assert SomeFailure(visited', answer) == (SomeFailure(visited, answer) || Failure(answer(h)));
    if rest == {} {
      assert visited' == m.history;
    }
    if Success(answer(h)) {
      assert SomeSuccess(m.history, answer);
    }
  }

  /** For fixed answers per hash, the result does not depend on the iteration order, except for which
      of several successful receipts is met first. */
  lemma {:induction false} LoopRefinesSpec(cfg: Config, m: MonitoredTx, events: seq<Event>, answer: Hash -> CheckAnswer)
    requires Path(cfg, Begin(cfg, m), events) && Checks(events, answer)
    ensures
      var t := TaskAfter(cfg, Begin(cfg, m), events);
      LoopSpec(cfg, m, t, answer)
  {
    if events == [] {
      assert m.history - m.history == {};
    } else {
      var before, e := events[..|events| - 1], events[|events| - 1];
      LoopRefinesSpec(cfg, m, before, answer);
      LoopCheck(cfg, m, TaskAfter(cfg, Begin(cfg, m), before), e.hash, answer);
    }
  }

  // ----- The answers as they come

  /** The answers to the hashes visited so far, each visited once. */
  function Given(given: map<Hash, CheckAnswer>): Hash -> CheckAnswer {
    h => if h in given then given[h] else CheckFailed
  }

  /** The events are receipt checks with these answers. */
  predicate Recorded(events: seq<Event>, given: map<Hash, CheckAnswer>) {
    forall e | e in events :: e.CheckedMined? && e.hash in given && given[e.hash] == e.check
  }

  lemma LoopStarts(cfg: Config, m: MonitoredTx)
    ensures LoopSpec(cfg, m, Begin(cfg, m), Given(map[]))
  {
    assert m.history - m.history == {};
  }

  /** One more hash is visited: what is known of the others stays. */
  lemma LoopGiven(cfg: Config, m: MonitoredTx, t: Task, h: Hash, a: CheckAnswer, given: map<Hash, CheckAnswer>)
    requires t.pc.CheckingReceipts? && h in t.pc.pending && given.Keys == m.history - t.pc.pending
    requires LoopSpec(cfg, m, t, Given(given))
    ensures LoopSpec(cfg, m, Next(cfg, t, CheckedMined(h, a)), Given(given[h := a]))
  {
    hide LoopResult, Next;
    var visited := m.history - t.pc.pending;
    var answer, answer' := Given(given), Given(given[h := a]);
    assert forall g | g in visited :: answer(g) == answer'(g);
    assert SomeFailure(visited, answer) == SomeFailure(visited, answer') by {
      assert forall g | g in visited :: Failure(answer(g)) == Failure(answer'(g));
    }
    assert !SomeSuccess(visited, answer');
    assert Summarises(m, t, answer');
    LoopCheck(cfg, m, t, h, answer');
  }

  /** Every path of the goroutine out of the loop visits some hashes first, each at most once, and the answers
      to them decide where the loop ends, as the specification says. */
  lemma {:induction false} LoopOfPath(cfg: Config, m: MonitoredTx, events: seq<Event>)
    returns (n: nat, given: map<Hash, CheckAnswer>)
    requires Path(cfg, Begin(cfg, m), events)
    ensures n <= |events| && given.Keys <= m.history
    ensures Path(cfg, Begin(cfg, m), events[..n]) && Recorded(events[..n], given)
    ensures LoopSpec(cfg, m, TaskAfter(cfg, Begin(cfg, m), events[..n]), Given(given))
    ensures
      var t := TaskAfter(cfg, Begin(cfg, m), events[..n]);
      if t.pc.CheckingReceipts? then n == |events| && given.Keys == m.history - t.pc.pending
      else forall i | n <= i < |events| :: !events[i].CheckedMined?
    ensures TaskAfter(cfg, Begin(cfg, m), events).pc.CheckingReceipts? ==> n == |events|
  {
    hide LoopSpec, Next, Begin;
    if events == [] {
      n, given := 0, map[];
      LoopStarts(cfg, m);
      BeginPending(cfg, m);
    } else {
      var before, e := events[..|events| - 1], events[|events| - 1];
      n, given := LoopOfPath(cfg, m, before);
      assert events[..n] == before[..n];
      var t := TaskAfter(cfg, Begin(cfg, m), before);
      if t.pc.CheckingReceipts? {
        assert before[..n] == before && events[..n + 1] == events;
        LoopPending(cfg, m, t, Given(given));
        LoopGiven(cfg, m, t, e.hash, e.check, given);
        NextPending(cfg, t, e);
        n, given := n + 1, given[e.hash := e.check];
      } else {
        NextPending(cfg, t, e);
      }
    }
  }

  lemma BeginPending(cfg: Config, m: MonitoredTx)
    ensures Begin(cfg, m).pc.CheckingReceipts? ==> Begin(cfg, m).pc.pending == m.history
  {
  }

  lemma LoopPending(cfg: Config, m: MonitoredTx, t: Task, answer: Hash -> CheckAnswer)
    requires t.pc.CheckingReceipts? && LoopSpec(cfg, m, t, answer)
    ensures t.pc.pending <= m.history
  {
  }

  /** A receipt check takes one hash off; the loop is never entered again. */
  lemma NextPending(cfg: Config, t: Task, e: Event)
    requires Fits(t.pc, e)
    ensures
      var t' := Next(cfg, t, e);
      t'.pc.CheckingReceipts? ==> t.pc.CheckingReceipts? && e.CheckedMined? && t'.pc.pending == t.pc.pending - {e.hash}
    ensures e.CheckedMined? <==> t.pc.CheckingReceipts?
  {
    hide GasPrice.Adjusted;
  }

  /** The nonce is reviewed exactly when no receipt succeeded, some failed and none is missing. */
  lemma ReviewIff(cfg: Config, m: MonitoredTx, events: seq<Event>, answer: Hash -> CheckAnswer)
    requires Path(cfg, Begin(cfg, m), events) && Checks(events, answer)
    requires !TaskAfter(cfg, Begin(cfg, m), events).pc.CheckingReceipts?
    ensures TaskAfter(cfg, Begin(cfg, m), events).pc.ReviewingNonce? <==>
            !SomeSuccess(m.history, answer) && SomeFailure(m.history, answer) && AllAnsweredMined(m.history, answer)
  {
    LoopRefinesSpec(cfg, m, events, answer);
  }

  /** When a receipt succeeded, the record is on its way to confirmation exactly below the retry limit; from the
      limit on it is about to be marked Failed. */
  lemma SuccessIff(cfg: Config, m: MonitoredTx, events: seq<Event>, answer: Hash -> CheckAnswer)
    requires Path(cfg, Begin(cfg, m), events) && Checks(events, answer) && SomeSuccess(m.history, answer)
    requires !TaskAfter(cfg, Begin(cfg, m), events).pc.CheckingReceipts?
    ensures TaskAfter(cfg, Begin(cfg, m), events).pc.CheckingHead? <==> m.numRetries < cfg.maxRetries
    ensures TaskAfter(cfg, Begin(cfg, m), events).pc.SavingExhausted? <==> m.numRetries >= cfg.maxRetries
  {
    LoopRefinesSpec(cfg, m, events, answer);
  }

  /** L1 may be in state `chain` when the answers are given. */
  ghost predicate Consistent(chain: Chain, hs: set<Hash>, answer: Hash -> CheckAnswer) {
    forall h | h in hs ::
      match answer(h)
      case CheckFailed => true
      case NotMined => h !in chain.mined
      case Mined(r) => h in chain.mined && chain.mined[h] == r
  }

  /** Entering the review proves that the whole history was mined and reverted exactly when no receipt
      check failed: a failed check is counted as mined although L1 may not have mined that hash. */
  lemma ReviewJustifiedIff(content: Content, chain: Chain, hs: set<Hash>, answer: Hash -> CheckAnswer)
    requires OnePerNonce(content, chain) && Consistent(chain, hs, answer)
    requires !SomeSuccess(hs, answer) && AllAnsweredMined(hs, answer)
    ensures (forall c | OnePerNonce(content, c) && Consistent(c, hs, answer) :: AllReverted(c, hs))
            <==> NoCheckFailed(hs, answer)
  {
    if !NoCheckFailed(hs, answer) {
      var h :| h in hs && answer(h) == CheckFailed;
      var c := Chain(map g | g in hs && answer(g).Mined? :: answer(g).receipt, 0);
      assert OnePerNonce(content, c) && Consistent(c, hs, answer);
      assert !Reverted(c, h);
    } else {
      forall c, h | Consistent(c, hs, answer) && h in hs ensures Reverted(c, h) {
        assert !Success(answer(h));
      }
    }
  }
}
