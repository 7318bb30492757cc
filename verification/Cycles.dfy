/** What the code of `Client` does is what the state machine allows, for every schedule. */
module Cycles {
  import opened Basics
  import opened Records
  import opened Monitor
  import opened Lanes
  import opened Nonces
  import opened Storage
  import opened Manager
  import opened Theorems
  import opened Interleaving
  import opened Client
  import opened ReceiptLoop
  import opened Protocol
  import GasPrice

  // ----- What a goroutine has sent does not influence it

  lemma NextRow(cfg: Config, l: Lane, l': Lane, e: Event)
    requires l.row == l'.row && l.task == l'.task
    ensures LaneNext(cfg, l, e).row == LaneNext(cfg, l', e).row && LaneNext(cfg, l, e).task == LaneNext(cfg, l', e).task
  {
    hide Next;
  }

  /** The row and the place of a goroutine depend on its answers only. */
  lemma {:induction false} SameRow(cfg: Config, l: Lane, l': Lane, events: seq<Event>)
    requires l.row == l'.row && l.task == l'.task
    ensures LaneAfter(cfg, l, events).row == LaneAfter(cfg, l', events).row
    ensures LaneAfter(cfg, l, events).task == LaneAfter(cfg, l', events).task
    ensures LanePath(cfg, l, events) <==> LanePath(cfg, l', events)
  {
    hide LaneNext, Fits;
    if events != [] {
      var before := events[..|events| - 1];
      SameRow(cfg, l, l', before);
      NextRow(cfg, LaneAfter(cfg, l, before), LaneAfter(cfg, l', before), events[|events| - 1]);
    }
  }

  // ----- Every schedule against the sequential code

  function ScriptsOf(visits: seq<Visit>): Scripts {
    if visits == [] then map[]
    else ScriptsOf(visits[..|visits| - 1])[visits[|visits| - 1].key := visits[|visits| - 1].answers]
  }

  /** No record is visited twice. */
  predicate OnceEach(visits: seq<Visit>) {
    visits != [] ==>
      var before := visits[..|visits| - 1];
      OnceEach(before) && visits[|visits| - 1].key !in KeysVisited(before)
  }

  lemma {:induction false} VisitsOnce(cfg: Config, l1: L1, first: nat, table: Table, visits: seq<Visit>)
    requires Visits(cfg, l1, first, table, visits)
    ensures OnceEach(visits) && KeysVisited(visits) <= table.Keys
  {
    hide Cycle, NonceAnswers, StartedOn, Swept, Heard;
    if visits != [] {
      var before, v := visits[..|visits| - 1], visits[|visits| - 1];
      VisitsOnce(cfg, l1, first, table, before);
      assert visits == before + [v];
    }
  }

  lemma {:induction false} ScriptKeys(visits: seq<Visit>)
    ensures ScriptsOf(visits).Keys == KeysVisited(visits)
  {
    if visits != [] {
      var before, v := visits[..|visits| - 1], visits[|visits| - 1];
      assert visits == before + [v];
      ScriptKeys(before);
    }
  }

  lemma {:induction false} SweptRow(cfg: Config, table: Table, visits: seq<Visit>, k: Key)
    requires OnceEach(visits) && KeysVisited(visits) <= table.Keys && k in table
    ensures k in Swept(cfg, table, visits) && (k in KeysVisited(visits) ==> k in ScriptsOf(visits))
    ensures Swept(cfg, table, visits)[k] ==
            if k in KeysVisited(visits) then LaneAfter(cfg, StartedOn(cfg, table, k), ScriptsOf(visits)[k]).row
            else table[k]
  {
    hide StartedOn, LaneAfter;
    if visits != [] {
      var before, v := visits[..|visits| - 1], visits[|visits| - 1];
      assert visits == before + [v];
      assert KeysVisited(visits) == KeysVisited(before) + {v.key};
      SweptRow(cfg, table, before, k);
    }
  }

  /** A cycle of `w` has just begun. */
  predicate Begun(cfg: Config, w: World, visits: seq<Visit>) {
    && OnceEach(visits) && KeysVisited(visits) <= w.lanes.Keys
    && forall k | k in KeysVisited(visits) :: w.lanes[k].task == Some(Begin(cfg, Normalised(w.lanes[k].row)))
  }

  /** If no record enters the nonce review, every schedule of the goroutines leaves the table exactly as the
      code does that visits the records one after the other. */
  lemma EveryScheduleSweeps(cfg: Config, w: World, visits: seq<Visit>, schedule: seq<Key>)
    requires Begun(cfg, w, visits) && Scripted(cfg, w, ScriptsOf(visits))
    requires Exhausted(Played(cfg, Play(w, ScriptsOf(visits)), schedule))
    ensures Played(cfg, Play(w, ScriptsOf(visits)), schedule).w.Table() == Swept(cfg, w.Table(), visits)
  {
    hide Played, Scripted, Exhausted, LaneAfter, Normalised, Begin, OnceEach, ScriptsOf, Swept;
    var scripts, table := ScriptsOf(visits), w.Table();
    ScheduleIrrelevant(cfg, w, scripts, schedule);
    ScriptKeys(visits);
    SweptKeys(cfg, table, visits);
    var after := Played(cfg, Play(w, scripts), schedule).w;
    forall k | k in w.lanes ensures after.Table()[k] == Swept(cfg, table, visits)[k] {
      SweptRow(cfg, table, visits, k);
      if k in KeysVisited(visits) {
        SameRow(cfg, StartedOn(cfg, table, k), w.lanes[k], scripts[k]);
      }
    }
  }

  // ----- The code's cycles as runs of the machine

  /** An answer and the state L1 is in when the answer is given. */
  datatype Reply = Reply(chain: Chain, event: Event)

  function Told(replies: seq<Reply>): seq<Event> {
    if replies == [] then [] else Told(replies[..|replies| - 1]) + [replies[|replies| - 1].event]
  }

  function ChainAfter(chain: Chain, replies: seq<Reply>): Chain {
    if replies == [] then chain else replies[|replies| - 1].chain
  }

  /** L1 goes on between the calls, and answers truthfully. */
  ghost predicate TruthfulReplies(cfg: Config, content: Content, chain: Chain, l: Lane, replies: seq<Reply>) {
    replies != [] ==>
      var before, last := replies[..|replies| - 1], replies[|replies| - 1];
      var task := LaneAfter(cfg, l, Told(before)).task;
      && TruthfulReplies(cfg, content, chain, l, before)
      && Extends(ChainAfter(chain, before), last.chain) && OnePerNonce(content, last.chain)
      && task.Some? && Truthful(content, last.chain, task.value, last.event)
  }

  function Moves(k: Key, replies: seq<Reply>): seq<Move> {
    if replies == [] then []
    else
      var last := replies[|replies| - 1];
      Moves(k, replies[..|replies| - 1]) + [Advance(last.chain), Work(k, last.event)]
  }

  lemma {:induction false} SameTruth(cfg: Config, content: Content, chain: Chain, l: Lane, l': Lane,
                                     replies: seq<Reply>)
    requires l.row == l'.row && l.task == l'.task && TruthfulReplies(cfg, content, chain, l, replies)
    ensures TruthfulReplies(cfg, content, chain, l', replies)
  {
    hide Truthful, LaneAfter, Extends, OnePerNonce;
    if replies != [] {
      var before := replies[..|replies| - 1];
      SameTruth(cfg, content, chain, l, l', before);
      SameRow(cfg, l, l', Told(before));
    }
  }

  /** Up to the nonce review nothing has been written. */
  lemma {:induction false} NothingWritten(cfg: Config, l: Lane, events: seq<Event>)
    requires l.task.Some?
    ensures
      var l' := LaneAfter(cfg, l, events);
      l'.task.Some? && (BeforeReview(l'.task.value.pc) ==> l'.row == l.row)
  {
    hide LaneNext, BeforeReview;
    if events != [] {
      var before := events[..|events| - 1];
      NothingWritten(cfg, l, before);
      BackToReview(cfg, LaneAfter(cfg, l, before), events[|events| - 1]);
    }
  }

  predicate BeforeReview(pc: Pc) {
    pc.CheckingReceipts? || pc.ReviewingNonce?
  }

  lemma BackToReview(cfg: Config, l: Lane, e: Event)
    requires l.task.Some?
    ensures
      var l' := LaneNext(cfg, l, e);
      && l'.task.Some?
      && (BeforeReview(l'.task.value.pc) ==> l'.row == l.row && BeforeReview(l.task.value.pc))
  {
    hide GasPrice.Adjusted;
  }

  lemma LastOf(events: seq<Event>, e: Event)
    ensures (events + [e])[..|events + [e]| - 1] == events && (events + [e])[|events + [e]| - 1] == e
  {
  }

  /** The calls of one goroutine, with truthful answers of an L1 that goes on meanwhile, are moves the state
      machine allows, and they leave the record as the state machine does. */
  lemma {:induction false} CycleIsRun(cfg: Config, content: Content, w: World, k: Key, replies: seq<Reply>)
    requires k in w.lanes && w.lanes[k].task.Some?
    requires LanePath(cfg, w.lanes[k], Told(replies)) && TruthfulReplies(cfg, content, w.chain, w.lanes[k], replies)
    requires NonceAnswers(w.Table(), w.lanes[k].row.from, Told(replies))
    ensures Run(cfg, content, w, Moves(k, replies))
    ensures After(cfg, w, Moves(k, replies)) ==
            World(w.lanes[k := LaneAfter(cfg, w.lanes[k], Told(replies))], ChainAfter(w.chain, replies))
  {
    hide Truthful, LaneNext, Fits, Extends, OnePerNonce, NonceAnswer, Next, Run, After, Allowed;
    if replies == [] {
      NoMoves(cfg, content, w);
      assert w.lanes[k := w.lanes[k]] == w.lanes;
    } else {
      var before, last := replies[..|replies| - 1], replies[|replies| - 1];
      LastOf(Told(before), last.event);
      CycleIsRun(cfg, content, w, k, before);
      LastAllowed(cfg, content, w, k, Told(before), last);
      ReplyStep(cfg, content, w, k, Moves(k, before), Told(before), last);
      assert Moves(k, replies) == Moves(k, before) + [Advance(last.chain)] + [Work(k, last.event)];
    }
  }

  lemma ReplyStep(cfg: Config, content: Content, w: World, k: Key, moves: seq<Move>, before: seq<Event>, last: Reply)
    requires k in w.lanes && Run(cfg, content, w, moves)
    requires After(cfg, w, moves).lanes == w.lanes[k := LaneAfter(cfg, w.lanes[k], before)]
    requires Extends(After(cfg, w, moves).chain, last.chain) && OnePerNonce(content, last.chain)
    requires Allowed(cfg, content, World(After(cfg, w, moves).lanes, last.chain), Work(k, last.event))
    ensures Run(cfg, content, w, moves + [Advance(last.chain)] + [Work(k, last.event)])
    ensures After(cfg, w, moves + [Advance(last.chain)] + [Work(k, last.event)]) ==
            World(w.lanes[k := LaneAfter(cfg, w.lanes[k], before + [last.event])], last.chain)
  {
    hide Run, After, Extends, OnePerNonce, LaneNext, LaneStep;
    assert LaneAfter(cfg, w.lanes[k], before + [last.event]) ==
           LaneNext(cfg, LaneAfter(cfg, w.lanes[k], before), last.event) by {
      LastOf(before, last.event);
    }
    hide LaneAfter;
    RunSnoc(cfg, content, w, moves, Advance(last.chain));
    RunSnoc(cfg, content, w, moves + [Advance(last.chain)], Work(k, last.event));
    var l, l' := LaneAfter(cfg, w.lanes[k], before), LaneAfter(cfg, w.lanes[k], before + [last.event]);
    assert w.lanes[k := l][k := l'] == w.lanes[k := l'];
  }

  lemma LastAllowed(cfg: Config, content: Content, w: World, k: Key, before: seq<Event>, last: Reply)
    requires k in w.lanes && w.lanes[k].task.Some?
    requires
      var l := LaneAfter(cfg, w.lanes[k], before);
      l.task.Some? && Fits(l.task.value.pc, last.event) && Truthful(content, last.chain, l.task.value, last.event)
    requires NonceAnswer(w.Table(), w.lanes[k].row.from, last.event)
    ensures
      var w' := World(w.lanes[k := LaneAfter(cfg, w.lanes[k], before)], last.chain);
      Allowed(cfg, content, w', Work(k, last.event))
  {
    hide LaneAfter, Truthful, LaneNext, Next;
    NothingWritten(cfg, w.lanes[k], before);
    var w' := World(w.lanes[k := LaneAfter(cfg, w.lanes[k], before)], last.chain);
    NonceAnswerIs(w.Table(), w.lanes[k].row.from, last.event);
    if last.event.ReadCreated? {
      assert w'.Table() == w.Table();
    }
  }

  // ----- The whole of `monitorTxs` as a run

  /** A visit together with the states of L1. */
  datatype Dialogue = Dialogue(key: Key, replies: seq<Reply>)

  function VisitsOf(ds: seq<Dialogue>): seq<Visit> {
    if ds == [] then []
    else VisitsOf(ds[..|ds| - 1]) + [Visit(ds[|ds| - 1].key, Told(ds[|ds| - 1].replies))]
  }

  function SweepMoves(ds: seq<Dialogue>): seq<Move> {
    if ds == [] then [] else SweepMoves(ds[..|ds| - 1]) + Moves(ds[|ds| - 1].key, ds[|ds| - 1].replies)
  }

  function SweepChain(chain: Chain, ds: seq<Dialogue>): Chain {
    if ds == [] then chain else ChainAfter(SweepChain(chain, ds[..|ds| - 1]), ds[|ds| - 1].replies)
  }

  ghost predicate TruthfulSweep(cfg: Config, content: Content, chain: Chain, table: Table, ds: seq<Dialogue>) {
    ds != [] ==>
      var before, d := ds[..|ds| - 1], ds[|ds| - 1];
      && TruthfulSweep(cfg, content, chain, table, before)
      && d.key in table
      && TruthfulReplies(cfg, content, SweepChain(chain, before), StartedOn(cfg, table, d.key), d.replies)
  }

  /** The world in the middle of a sweep: visited records are done, the others have just been loaded. */
  ghost predicate Midway(cfg: Config, w: World, ds: seq<Dialogue>, w': World) {
    && w'.lanes.Keys == w.lanes.Keys
    && w'.chain == SweepChain(w.chain, ds)
    && w'.Table() == Swept(cfg, w.Table(), VisitsOf(ds))
    && forall k | k in w.lanes && k !in KeysVisited(VisitsOf(ds)) :: w'.lanes[k] == Opened(cfg, w.lanes[k])
  }

  /** The visit is one the table admits after those of `ds`, with answers L1 may give. */
  ghost predicate Admits(cfg: Config, content: Content, chain: Chain, table: Table, ds: seq<Dialogue>, d: Dialogue) {
    && d.key in table && d.key !in KeysVisited(VisitsOf(ds)) && Watched(table[d.key].status)
    && LanePath(cfg, StartedOn(cfg, table, d.key), Told(d.replies))
    && NonceAnswers(Swept(cfg, table, VisitsOf(ds)), table[d.key].from, Told(d.replies))
    && TruthfulReplies(cfg, content, SweepChain(chain, ds), StartedOn(cfg, table, d.key), d.replies)
  }

  lemma SweepStep(cfg: Config, content: Content, w: World, w': World, ds: seq<Dialogue>, d: Dialogue)
    requires Midway(cfg, w, ds, w') && Admits(cfg, content, w.chain, w.Table(), ds, d)
    ensures
      var l := LaneAfter(cfg, w'.lanes[d.key], Told(d.replies));
      && Run(cfg, content, w', Moves(d.key, d.replies))
      && After(cfg, w', Moves(d.key, d.replies)) == World(w'.lanes[d.key := l], ChainAfter(w'.chain, d.replies))
      && l.row == LaneAfter(cfg, StartedOn(cfg, w.Table(), d.key), Told(d.replies)).row
  {
    hide LanePath, LaneAfter, NonceAnswers, TruthfulReplies, Run, After, Swept, Watched, Begin, Normalised, Opened;
    hide SweepChain, KeysVisited, VisitsOf, Moves;
    var start, l := StartedOn(cfg, w.Table(), d.key), w'.lanes[d.key];
    OpenedTask(cfg, w.lanes[d.key]);
    assert l.row == start.row && l.task == start.task;
    SameRow(cfg, start, l, Told(d.replies));
    SameTruth(cfg, content, w'.chain, start, l, d.replies);
    CycleIsRun(cfg, content, w', d.key, d.replies);
  }

  lemma MidwayStep(cfg: Config, w: World, w': World, ds: seq<Dialogue>, d: Dialogue, l: Lane)
    requires Midway(cfg, w, ds, w') && d.key in w.lanes
    requires l.row == LaneAfter(cfg, StartedOn(cfg, w.Table(), d.key), Told(d.replies)).row
    ensures Midway(cfg, w, ds + [d], World(w'.lanes[d.key := l], ChainAfter(w'.chain, d.replies)))
  {
    hide LaneAfter, Swept, Opened, ChainAfter, StartedOn;
    var vs, v := VisitsOf(ds), Visit(d.key, Told(d.replies));
    assert (ds + [d])[..|ds + [d]| - 1] == ds;
    assert VisitsOf(ds + [d]) == vs + [v];
    SweptMore(cfg, w.Table(), vs, v);
    var w2 := World(w'.lanes[d.key := l], ChainAfter(w'.chain, d.replies));
    assert w2.Table() == w'.Table()[d.key := l.row];
    assert KeysVisited(vs + [v]) == KeysVisited(vs) + {v.key};
  }

  lemma OpenedTask(cfg: Config, l: Lane)
    requires Watched(l.row.status)
    ensures Opened(cfg, l).row == l.row && Opened(cfg, l).task == Some(Begin(cfg, Normalised(l.row)))
  {
    hide Begin, Normalised, Watched;
  }

  lemma SweptMore(cfg: Config, table: Table, visits: seq<Visit>, v: Visit)
    requires v.key in table
    ensures Swept(cfg, table, visits + [v]) ==
            Swept(cfg, table, visits)[v.key := LaneAfter(cfg, StartedOn(cfg, table, v.key), v.answers).row]
  {
    hide LaneAfter, StartedOn;
    assert (visits + [v])[..|visits + [v]| - 1] == visits;
  }

  lemma LastAdmitted(cfg: Config, l1: L1, first: nat, content: Content, chain: Chain, table: Table, ds: seq<Dialogue>)
    requires ds != []
    requires KeysVisited(VisitsOf(ds)) <= WithStatus(table, None, {Created, Sent, Reorged})
    requires Visits(cfg, l1, first, table, VisitsOf(ds)) && TruthfulSweep(cfg, content, chain, table, ds)
    ensures
      var before, d := ds[..|ds| - 1], ds[|ds| - 1];
      && Visits(cfg, l1, first, table, VisitsOf(before)) && TruthfulSweep(cfg, content, chain, table, before)
      && KeysVisited(VisitsOf(before)) <= WithStatus(table, None, {Created, Sent, Reorged})
      && Admits(cfg, content, chain, table, before, d)
  {
    hide LanePath, LaneAfter, Heard, NonceAnswers, TruthfulReplies, Swept, Begin, Normalised;
    var before, d := ds[..|ds| - 1], ds[|ds| - 1];
    var vs, v := VisitsOf(before), Visit(d.key, Told(d.replies));
    assert (vs + [v])[..|vs + [v]| - 1] == vs;
    assert KeysVisited(vs + [v]) == KeysVisited(vs) + {v.key};
    assert v.key in WithStatus(table, None, {Created, Sent, Reorged});
  }

  lemma {:induction false} SweepRun(cfg: Config, l1: L1, first: nat, content: Content, w: World, ds: seq<Dialogue>)
    requires KeysVisited(VisitsOf(ds)) <= WithStatus(w.Table(), None, {Created, Sent, Reorged})
    requires Visits(cfg, l1, first, w.Table(), VisitsOf(ds))
    requires TruthfulSweep(cfg, content, w.chain, w.Table(), ds)
    ensures Run(cfg, content, Apply(cfg, w, BeginCycle), SweepMoves(ds))
    ensures Midway(cfg, w, ds, After(cfg, Apply(cfg, w, BeginCycle), SweepMoves(ds)))
  {
    hide Opened, Moves, Run, After, Visits, TruthfulSweep, KeysVisited, Admits, LaneAfter;
    var w1 := Apply(cfg, w, BeginCycle);
    if ds == [] {
      NoMoves(cfg, content, w1);
      TableAfter(cfg, w, BeginCycle);
    } else {
      hide Midway, VisitsOf;
      var before, d := ds[..|ds| - 1], ds[|ds| - 1];
      LastAdmitted(cfg, l1, first, content, w.chain, w.Table(), ds);
      SweepRun(cfg, l1, first, content, w, before);
      var w' := After(cfg, w1, SweepMoves(before));
      SweepStep(cfg, content, w, w', before, d);
      AdmitsKey(cfg, content, w, before, d);
      MidwayStep(cfg, w, w', before, d, LaneAfter(cfg, w'.lanes[d.key], Told(d.replies)));
      RunConcat(cfg, content, w1, SweepMoves(before), Moves(d.key, d.replies));
      assert before + [d] == ds;
    }
  }

  lemma AdmitsKey(cfg: Config, content: Content, w: World, ds: seq<Dialogue>, d: Dialogue)
    requires Admits(cfg, content, w.chain, w.Table(), ds, d)
    ensures d.key in w.lanes
  {
  }

  /** What `MonitorTxs` does, with truthful answers of an L1 that goes on meanwhile, is a run of the machine from
      the start of a cycle, and both leave the same table. */
  lemma SweepIsRun(cfg: Config, l1: L1, first: nat, content: Content, w: World, ds: seq<Dialogue>)
    requires forall k | k in w.lanes :: Idle(w.lanes[k])
    requires KeysVisited(VisitsOf(ds)) == WithStatus(w.Table(), None, {Created, Sent, Reorged})
    requires Visits(cfg, l1, first, w.Table(), VisitsOf(ds))
    requires TruthfulSweep(cfg, content, w.chain, w.Table(), ds)
    ensures Run(cfg, content, w, [BeginCycle] + SweepMoves(ds))
    ensures After(cfg, w, [BeginCycle] + SweepMoves(ds)).Table() == Swept(cfg, w.Table(), VisitsOf(ds))
  {
    hide Visits, TruthfulSweep, SweepMoves, VisitsOf, Swept, WithStatus, KeysVisited, Apply, Idle;
    SweepRun(cfg, l1, first, content, w, ds);
    NoMoves(cfg, content, w);
    RunSnoc(cfg, content, w, [], BeginCycle);
    assert [] + [BeginCycle] == [BeginCycle];
    RunConcat(cfg, content, w, [BeginCycle], SweepMoves(ds));
  }

  /** The row `Add` inserts is one the state machine allows, with its nonce allocated on the very table. */
  lemma AddIsInsert(c: Client, content: Content, w: World, n: nat, m: MonitoredTx)
    requires c.Built(w.Table(), n, m) && m.PrimaryKey() !in w.lanes
    ensures Allowed(c.cfg, content, w, Insert(m))
    ensures NoncesBelowMax(w.Table()) ==> AtomicMove(w, Insert(m))
    ensures Apply(c.cfg, w, Insert(m)).Table() == w.Table()[m.PrimaryKey() := Persisted(m)]
  {
    hide GasPrice.Adjusted, NextNonce;
    TableAfter(c.cfg, w, Insert(m));
  }

  // ----- The receipt loop of the code

  /** A goroutine's own steps, seen without its row. */
  lemma {:induction false} PathOfLane(cfg: Config, l: Lane, t: Task, events: seq<Event>)
    requires l.task == Some(t) && LanePath(cfg, l, events)
    ensures Path(cfg, t, events) && LaneAfter(cfg, l, events).task == Some(TaskAfter(cfg, t, events))
  {
    hide Next, Fits, LaneNext;
    if events != [] {
      var before, e := events[..|events| - 1], events[|events| - 1];
      PathOfLane(cfg, l, t, before);
      LaneNextTask(cfg, LaneAfter(cfg, l, before), e);
    }
  }

  /** Every cycle of the code first asks for the receipts of hashes of the history, each at most once and in
      whatever order, and goes on from there as the specification of the loop says for the answers it got. */
  lemma CycleLoops(cfg: Config, r: MonitoredTx, m: MonitoredTx, events: seq<Event>)
    returns (n: nat, given: map<Hash, CheckAnswer>)
    requires Cycle(cfg, r, m, events)
    ensures n <= |events| && given.Keys <= m.history && Recorded(events[..n], given)
    ensures forall i | n <= i < |events| :: !events[i].CheckedMined?
    ensures LoopResult(cfg, m, TaskAfter(cfg, Begin(cfg, m), events[..n]), Given(given))
  {
    hide LanePath, Path, LaneAfter, TaskAfter, Begin, LoopResult, Summarises;
    PathOfLane(cfg, Started(cfg, r, m), Begin(cfg, m), events);
    n, given := LoopOfPath(cfg, m, events);
    if n == |events| {
      assert events[..n] == events;
    }
  }

  // ----- What L1 is asked

  lemma {:induction false} HeardPrefix(cfg: Config, l1: L1, first: nat, l: Lane, events: seq<Event>, i: nat)
    requires LanePath(cfg, l, events) && Heard(cfg, l1, first, l, events) && i < |events|
    ensures LanePath(cfg, l, events[..i]) && LaneAfter(cfg, l, events[..i]).task.Some?
    ensures
      var t := LaneAfter(cfg, l, events[..i]).task.value;
      Fits(t.pc, events[i]) && AnswerAt(l1, first + Asked(events[..i]), t, events[i])
  {
    hide LaneAfter, Fits, AnswerAt, Asked;
    if i < |events| - 1 {
      HeardPrefix(cfg, l1, first, l, events[..|events| - 1], i);
      assert events[..|events| - 1][..i] == events[..i];
    }
  }

  /** Every answer of a cycle is L1's answer to the call of its number, asked about the record as its row has it:
      the sender for a pending nonce, the call for a gas estimate, the transaction built from the row for a
      signature, and the transaction signed in all calls after that. */
  lemma AskedAt(cfg: Config, l1: L1, first: nat, l: Lane, m: MonitoredTx, events: seq<Event>, i: nat)
    returns (price: nat, h: Hash)
    requires Complete(cfg, l, m, events) && Heard(cfg, l1, first, l, events) && i < |events|
    ensures (|| events[i].LookedUp? || events[i].SentOut? || events[i].Waited? || events[i].FetchedReceipt?
             || events[i].LookedUpFailed? || events[i].AskedRevert?) ==>
              Signed(Ok(h)) in events[..i]
    ensures events[i].Signed? ==>
              price % TWO_64 == RowAt(cfg, l, events, i).gasPrice
              && (price != RowAt(cfg, l, events, i).gasPrice ==>
                    && i > 1 && events[i - 2].SuggestedPrice? && events[i - 2].price.Ok?
                    && price == GasPrice.Adjusted(cfg.margin, cfg.maxGasPriceLimit, events[i - 2].price.value))
    ensures
      var n, r := first + Asked(events[..i]), RowAt(cfg, l, events, i);
      match events[i]
      case CheckedMined(g, check) => check == l1.check(n, g)
      case ReadPending(nonce) => nonce == l1.pendingNonce(n, r.from)
      case EstimatedGas(gas) => gas == l1.estimateGas(n, r.from, r.to, r.value, r.data)
      case SuggestedPrice(p) => p == l1.gasPrice(n)
      case Signed(signed) =>
        signed == l1.sign(n, LegacyTx(r.to, r.nonce, r.value, r.data, (r.gas + r.gasOffset) % TWO_64, price))
      case LookedUp(lookup) => lookup == l1.lookup(n, h)
      case SentOut(ok) => ok == l1.send(n, h)
      case Waited(wait) => wait == l1.wait(n, h)
      case FetchedReceipt(receipt) =>
        if l1.receipt(n, h).Ok? && l1.receipt(n, h).value.Some? then receipt == Ok(l1.receipt(n, h).value.value)
        else receipt == Err
      case ReadHead(head) => head == l1.head(n)
      case LookedUpFailed(found) => found <==> l1.lookup(n, h) == Found
      case AskedRevert(revert) => revert == l1.revertMessage(n, h)
      case _ => true
  {
    hide Complete, LanePath, Heard, LaneAfter, Asked, Tracks, Persisted, GasPrice.Adjusted, Next, Fits;
    CompletePath(cfg, l, m, events);
    HeardPrefix(cfg, l1, first, l, events, i);
    price, h := 0, ANY;
    var e := events[i];
    if e.Signed? {
      var t := UnsignedTx(cfg, l, m, events, i);
      price := t.mTx.Tx().gasPrice;
    } else if e.LookedUp? || e.SentOut? || e.Waited? || e.FetchedReceipt? || e.LookedUpFailed? || e.AskedRevert? {
      h := HandedOver(cfg, l, m, events, i);
      HashInHand(LaneAfter(cfg, l, events[..i]).task.value.pc, e);
    } else if e.ReadPending? || e.EstimatedGas? {
      CallArguments(cfg, l, m, events, i);
    }
  }

  lemma HashInHand(pc: Pc, e: Event)
    requires Fits(pc, e) && CallHash(pc).Some?
    ensures e.LookedUp? ==> pc.LookingUp? && CallHash(pc) == Some(pc.hash)
    ensures e.SentOut? ==> pc.Sending? && CallHash(pc) == Some(pc.hash)
    ensures e.Waited? ==> pc.AwaitingMined? && CallHash(pc) == Some(pc.hash)
    ensures e.FetchedReceipt? ==> pc.FetchingReceipt? && CallHash(pc) == Some(pc.hash)
    ensures e.LookedUpFailed? ==> pc.LookingUpFailed? && CallHash(pc) == Some(pc.hash)
    ensures e.AskedRevert? ==> pc.AskingRevert? && CallHash(pc) == Some(pc.hash)
  {
  }

  lemma CallArguments(cfg: Config, l: Lane, m: MonitoredTx, events: seq<Event>, i: nat)
    requires Complete(cfg, l, m, events) && i < |events| && (events[i].ReadPending? || events[i].EstimatedGas?)
    requires LaneAfter(cfg, l, events[..i]).task.Some?
    ensures
      var r, c := RowAt(cfg, l, events, i), LaneAfter(cfg, l, events[..i]).task.value.mTx;
      c.from == r.from && c.to == r.to && c.value == r.value && c.data == r.data
  {
    hide Complete, GasPrice.Adjusted, LaneAfter, Next, Retries, NoneSigned, OnlySigned, Persisted;
    var t, t' := Around(cfg, l, m, events, i);
  }
}
