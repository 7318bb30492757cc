/** What becomes of a record once a receipt check has seen it succeed. */
module Outcomes {
  import opened Basics
  import opened Records
  import opened Monitor
  import opened Lanes
  import opened Manager
  import opened Interleaving
  import GasPrice

  /** A receipt check of these answers saw the success `s`. */
  predicate Saw(events: seq<Event>, s: Sighting) {
    s.receipt.success && CheckedMined(s.hash, Mined(s.receipt)) in events
  }

  /** A write reached the table. */
  predicate Landed(events: seq<Event>) {
    exists e | e in events :: Reached(e)
  }

  predicate WriteRefused(events: seq<Event>) {
    Wrote(Refused) in events
  }

  /** The head was read and had reached the block. */
  predicate HeadReached(events: seq<Event>, block: nat) {
    exists e | e in events :: Reaches(e, block)
  }

  predicate Reaches(e: Event, block: nat) {
    e.ReadHead? && e.head.Head? && e.head.block >= Low64(block)
  }

  /** The record with its outcome. */
  function Exhausted(m: MonitoredTx): MonitoredTx {
    m.(status := Failed)
  }

  function ConfirmedBy(m: MonitoredTx, s: Sighting): MonitoredTx {
    m.(status := Confirmed, blockNumber := Some(s.receipt.block))
  }

  /** Where the goroutine that works on `m` is after the events in which it saw `s`. */
  predicate Heading(cfg: Config, r: MonitoredTx, m: MonitoredTx, s: Sighting, events: seq<Event>, l: Lane) {
    && l.task.Some?
    && var t := l.task.value;
    if t.pc.Finished? then
      && l.row == (if Landed(events) then Persisted(Outcome(cfg, m, s)) else r)
      && (Landed(events) <==>
            !WriteRefused(events) && (m.numRetries < cfg.maxRetries ==> HeadReached(events, s.receipt.block)))
    else
      && l.row == r && !Landed(events) && !WriteRefused(events)
      && if m.numRetries >= cfg.maxRetries then t == Task(SavingExhausted, Exhausted(m))
         else if HeadReached(events, s.receipt.block) then
           t == Task(SavingOutcome(s.hash, s.receipt), ConfirmedBy(m, s))
         else
           t == Task(CheckingHead(s.hash, s.receipt), m)
  }

  /** Which outcome a seen success leads to depends on the retry count alone. */
  function Outcome(cfg: Config, m: MonitoredTx, s: Sighting): MonitoredTx {
    if m.numRetries < cfg.maxRetries then ConfirmedBy(m, s) else Exhausted(m)
  }

  lemma SnocFacts(events: seq<Event>, e: Event, block: nat)
    ensures Landed(events + [e]) <==> Landed(events) || Reached(e)
    ensures WriteRefused(events + [e]) <==> WriteRefused(events) || e == Wrote(Refused)
    ensures HeadReached(events + [e], block) <==> HeadReached(events, block) || Reaches(e, block)
  {
    hide Reached, Reaches;
    assert forall x :: x in events + [e] <==> x in events || x == e;
  }

  /** In the receipt loop nothing has been written and the head has not been read. */
  lemma {:induction false} InLoop(cfg: Config, l: Lane, m: MonitoredTx, events: seq<Event>, block: nat)
    requires l.task == Some(Begin(cfg, m)) && LanePath(cfg, l, events)
    requires LaneAfter(cfg, l, events).task.Some? && LaneAfter(cfg, l, events).task.value.pc.CheckingReceipts?
    ensures
      var l' := LaneAfter(cfg, l, events);
      l'.row == l.row && l'.task.value.mTx == m && l'.task.value.pc.pending <= m.history
    ensures !Landed(events) && !WriteRefused(events) && !HeadReached(events, block)
  {
    hide Landed, WriteRefused, HeadReached, LaneNext, Begin;
    if events == [] {
      LoopEntered(cfg, m, block);
    } else {
      var before, e := events[..|events| - 1], events[|events| - 1];
      BackToLoop(cfg, LaneAfter(cfg, l, before), e);
      InLoop(cfg, l, m, before, block);
      assert before + [e] == events;
      SnocFacts(before, e, block);
    }
  }

  lemma LoopEntered(cfg: Config, m: MonitoredTx, block: nat)
    ensures Begin(cfg, m).pc.CheckingReceipts? ==> Begin(cfg, m).mTx == m && Begin(cfg, m).pc.pending <= m.history
    ensures !Landed([]) && !WriteRefused([]) && !HeadReached([], block)
  {
  }

  lemma BackToLoop(cfg: Config, l: Lane, e: Event)
    requires l.task.Some? && Fits(l.task.value.pc, e)
    requires LaneNext(cfg, l, e).task.Some? && LaneNext(cfg, l, e).task.value.pc.CheckingReceipts?
    ensures
      var l' := LaneNext(cfg, l, e);
      && l.task.value.pc.CheckingReceipts? && e.CheckedMined?
      && l'.row == l.row && l'.task.value.mTx == l.task.value.mTx
      && l'.task.value.pc.pending <= l.task.value.pc.pending
  {
    hide GasPrice.Adjusted;
  }

  lemma HeadingStep(cfg: Config, r: MonitoredTx, m: MonitoredTx, s: Sighting, before: seq<Event>, l: Lane, e: Event)
    requires Heading(cfg, r, m, s, before, l) && Fits(l.task.value.pc, e) && s.receipt.success
    ensures Heading(cfg, r, m, s, before + [e], LaneNext(cfg, l, e))
  {
    hide Landed, WriteRefused, HeadReached, GasPrice.Adjusted;
    SnocFacts(before, e, s.receipt.block);
  }

  lemma SightingStep(cfg: Config, m: MonitoredTx, s: Sighting, before: seq<Event>, l: Lane)
    requires l.task.Some? && l.task.value.pc.CheckingReceipts? && l.task.value.mTx == m
    requires s.receipt.success && s.hash in l.task.value.pc.pending
    requires !Landed(before) && !WriteRefused(before) && !HeadReached(before, s.receipt.block)
    ensures
      var e := CheckedMined(s.hash, Mined(s.receipt));
      Heading(cfg, l.row, m, s, before + [e], LaneNext(cfg, l, e))
  {
    hide Landed, WriteRefused, HeadReached;
    SnocFacts(before, CheckedMined(s.hash, Mined(s.receipt)), s.receipt.block);
  }

  /** Once a success was seen the goroutine confirms the record below the retry limit and fails it from the limit
      on; the row keeps its old state exactly if the write is refused or the head is behind. */
  lemma {:induction false} SuccessSeen(cfg: Config, l: Lane, m: MonitoredTx, events: seq<Event>, s: Sighting)
    requires l.task == Some(Begin(cfg, m)) && LanePath(cfg, l, events) && Saw(events, s)
    ensures Heading(cfg, l.row, m, s, events, LaneAfter(cfg, l, events)) && s.hash in m.history
  {
    hide Heading, LaneNext, Begin;
    var before, e := events[..|events| - 1], events[|events| - 1];
    assert before + [e] == events;
    if Saw(before, s) {
      SuccessSeen(cfg, l, m, before, s);
      HeadingStep(cfg, l.row, m, s, before, LaneAfter(cfg, l, before), e);
    } else {
      assert e == CheckedMined(s.hash, Mined(s.receipt));
      InLoop(cfg, l, m, before, s.receipt.block);
      SightingStep(cfg, m, s, before, LaneAfter(cfg, l, before));
    }
  }

  /** What a goroutine was told about a receipt is still true at the end of the run. */
  lemma {:induction false} SightingsLast(cfg: Config, content: Content, w: World, moves: seq<Move>, k: Key, s: Sighting)
    requires Run(cfg, content, w, moves) && CheckedMined(s.hash, Mined(s.receipt)) in EventsOf(k, moves)
    ensures s.hash in After(cfg, w, moves).chain.mined && After(cfg, w, moves).chain.mined[s.hash] == s.receipt
  {
    hide LaneNext, OnePerNonce, Suggested, Fits, Next;
    var before, last := moves[..|moves| - 1], moves[|moves| - 1];
    if CheckedMined(s.hash, Mined(s.receipt)) in EventsOf(k, before) {
      SightingsLast(cfg, content, w, before, k, s);
    }
  }

  /** In every run, and whatever the rest of the run does: a cycle that sees a transaction of a record succeed, and
      that runs to its end, leaves the row Confirmed exactly if the retry limit was not reached and the write
      landed, Failed exactly if it was reached and the write landed, and otherwise unchanged. So a record whose
      success was seen is confirmed rather than failed if and only if its retry count is below the limit. */
  lemma SeenSuccessTheorem(cfg: Config, content: Content, w: World, moves: seq<Move>, k: Key, s: Sighting)
    requires Run(cfg, content, w, [BeginCycle] + moves) && Undisturbed(k, moves)
    requires k in w.lanes && Watched(w.lanes[k].row.status) && Saw(EventsOf(k, moves), s)
    ensures k in After(cfg, w, [BeginCycle] + moves).lanes
    ensures
      var w' := After(cfg, w, [BeginCycle] + moves);
      var r, r', retries := w.Table()[k], w'.Table()[k], Normalised(w.Table()[k]).numRetries;
      var landed := Landed(EventsOf(k, moves));
      && s.hash in r.history && Succeeded(w'.chain, s.hash)
      && (Idle(w'.lanes[k]) ==>
            && (r'.status == Confirmed <==> landed && retries < cfg.maxRetries)
            && (r'.status == Failed <==> landed && retries >= cfg.maxRetries)
            && (!landed ==> r' == r)
            && (landed <==> !WriteRefused(EventsOf(k, moves)) &&
                            (retries < cfg.maxRetries ==> HeadReached(EventsOf(k, moves), s.receipt.block))))
  {
    hide Run, After, LanePath, Begin, Landed, WriteRefused, HeadReached, LaneAfter, EventsOf;
    var w1 := Apply(cfg, w, BeginCycle);
    RunTail(cfg, content, w, BeginCycle, moves);
    LaneOfRun(cfg, content, w1, moves, k);
    SightingsLast(cfg, content, w1, moves, k, s);
    OpenedLane(cfg, w, k);
    SuccessSeen(cfg, w1.lanes[k], Normalised(w.lanes[k].row), EventsOf(k, moves), s);
  }

  lemma OpenedLane(cfg: Config, w: World, k: Key)
    requires k in w.lanes && Watched(w.lanes[k].row.status)
    ensures
      var l := Apply(cfg, w, BeginCycle).lanes[k];
      l.row == w.lanes[k].row && l.task == Some(Begin(cfg, Normalised(w.lanes[k].row)))
  {
    hide Begin, Normalised, Watched;
  }

  /** A run after its first move. */
  lemma {:induction false} RunTail(cfg: Config, content: Content, w: World, move: Move, moves: seq<Move>)
    requires Run(cfg, content, w, [move] + moves)
    ensures Allowed(cfg, content, w, move) && Run(cfg, content, Apply(cfg, w, move), moves)
    ensures After(cfg, w, [move] + moves) == After(cfg, Apply(cfg, w, move), moves)
  {
    hide Allowed, Apply, Run, After;
    LastMove(cfg, content, w, [move] + moves);
    if moves == [] {
      assert ([move] + moves)[..0] == [];
      NoMoves(cfg, content, w);
      NoMoves(cfg, content, Apply(cfg, w, move));
    } else {
      var before, last := moves[..|moves| - 1], moves[|moves| - 1];
      assert ([move] + moves)[..|moves|] == [move] + before;
      RunTail(cfg, content, w, move, before);
      RunSnoc(cfg, content, Apply(cfg, w, move), before, last);
      assert before + [last] == moves;
    }
  }
}
