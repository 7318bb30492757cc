/** The goroutines of one `monitorTxs` cycle under any schedule. */
module Interleaving {
  import opened Basics
  import opened Records
  import opened Monitor
  import opened Lanes
  import opened Nonces
  import opened Manager

  /** The answers each goroutine will get, in order; `ReadCreated` scripts only whether the table can be read. */
  type Scripts = map<Key, seq<Event>>

  datatype Play = Play(w: World, rest: Scripts)

  function LaneAfter(cfg: Config, l: Lane, events: seq<Event>): Lane {
    if events == [] then l
    else LaneNext(cfg, LaneAfter(cfg, l, events[..|events| - 1]), events[|events| - 1])
  }

  /** Each event answers the call the goroutine is making. */
  predicate LanePath(cfg: Config, l: Lane, events: seq<Event>) {
    events != [] ==>
      var before := events[..|events| - 1];
      && LanePath(cfg, l, before)
      && LaneAfter(cfg, l, before).task.Some?
      && Fits(LaneAfter(cfg, l, before).task.value.pc, events[|events| - 1])
  }

  lemma PathSnoc(cfg: Config, l: Lane, events: seq<Event>, e: Event)
    requires LanePath(cfg, l, events) && LaneAfter(cfg, l, events).task.Some?
    requires Fits(LaneAfter(cfg, l, events).task.value.pc, e)
    ensures LanePath(cfg, l, events + [e])
    ensures LaneAfter(cfg, l, events + [e]) == LaneNext(cfg, LaneAfter(cfg, l, events), e)
  {
    hide LaneNext, Fits;
    assert (events + [e])[..|events|] == events;
  }

  /** A nonce review reads what the table holds at that moment. */
  ghost function Actual(w: World, k: Key, e: Event): Event
    requires k in w.lanes
  {
    if e.ReadCreated? && e.highest.Ok? then ReadCreated(Ok(Highest(w.Table(), w.lanes[k].row.from))) else e
  }

  /** The goroutine of `k` takes its next answer. */
  ghost function Turn(cfg: Config, p: Play, k: Key): Play {
    if k !in p.rest || p.rest[k] == [] || k !in p.w.lanes then p
    else Play(Apply(cfg, p.w, Work(k, Actual(p.w, k, p.rest[k][0]))), p.rest[k := p.rest[k][1..]])
  }

  ghost function Played(cfg: Config, p: Play, schedule: seq<Key>): Play {
    if schedule == [] then p
    else Turn(cfg, Played(cfg, p, schedule[..|schedule| - 1]), schedule[|schedule| - 1])
  }

  predicate Exhausted(p: Play) {
    forall k | k in p.rest :: p.rest[k] == []
  }

  /** The goroutine never reaches the nonce review with these answers. */
  predicate NoReview(cfg: Config, l: Lane, events: seq<Event>) {
    forall n | 0 <= n <= |events| ::
      var task := LaneAfter(cfg, l, events[..n]).task;
      task.Some? ==> !task.value.pc.ReviewingNonce?
  }

  predicate Scripted(cfg: Config, w: World, scripts: Scripts) {
    scripts.Keys <= w.lanes.Keys && forall k | k in scripts :: NoReview(cfg, w.lanes[k], scripts[k])
  }

  /** How much of its script a goroutine has consumed after a schedule. */
  function Consumed(scripts: Scripts, schedule: seq<Key>, k: Key): nat
    requires k in scripts
  {
    var turns := multiset(schedule)[k];
    if turns <= |scripts[k]| then turns else |scripts[k]|
  }

  /** The goroutine of `k` is where its own answers put it, whatever the others did. */
  ghost predicate OnItsOwn(cfg: Config, w: World, scripts: Scripts, n: nat, p: Play, k: Key)
    requires k in w.lanes && k in p.w.lanes && k in scripts && k in p.rest && n <= |scripts[k]|
  {
    p.rest[k] == scripts[k][n..] && p.w.lanes[k] == LaneAfter(cfg, w.lanes[k], scripts[k][..n])
  }

  ghost predicate Independent(cfg: Config, w: World, scripts: Scripts, schedule: seq<Key>, p: Play) {
    && p.w.chain == w.chain && p.w.lanes.Keys == w.lanes.Keys && p.rest.Keys == scripts.Keys
    && (forall k | k in w.lanes && k in scripts :: OnItsOwn(cfg, w, scripts, Consumed(scripts, schedule, k), p, k))
    && (forall k | k in w.lanes && k !in scripts :: p.w.lanes[k] == w.lanes[k])
  }

  /** Outside the nonce review a goroutine gets exactly its scripted answer. */
  lemma ScriptedAnswer(cfg: Config, w: World, k: Key, e: Event)
    requires k in w.lanes && (w.lanes[k].task.Some? ==> !w.lanes[k].task.value.pc.ReviewingNonce?)
    ensures LaneNext(cfg, w.lanes[k], Actual(w, k, e)) == LaneNext(cfg, w.lanes[k], e)
  {
  }

  lemma OwnTurn(cfg: Config, w: World, scripts: Scripts, n: nat, p: Play, k: Key)
    requires k in w.lanes && k in p.w.lanes && k in scripts && k in p.rest && n < |scripts[k]|
    requires NoReview(cfg, w.lanes[k], scripts[k]) && OnItsOwn(cfg, w, scripts, n, p, k)
    ensures Turn(cfg, p, k).w.lanes == p.w.lanes[k := LaneAfter(cfg, w.lanes[k], scripts[k][..n + 1])]
    ensures OnItsOwn(cfg, w, scripts, n + 1, Turn(cfg, p, k), k)
  {
    ScriptedAnswer(cfg, p.w, k, scripts[k][n]);
    assert scripts[k][..n + 1][..n] == scripts[k][..n];
  }

  lemma TurnFrame(cfg: Config, p: Play, k: Key)
    ensures
      var p' := Turn(cfg, p, k);
      && p'.w.chain == p.w.chain && p'.w.lanes.Keys == p.w.lanes.Keys && p'.rest.Keys == p.rest.Keys
      && (forall j | j in p.w.lanes && j != k :: p'.w.lanes[j] == p.w.lanes[j])
      && (forall j | j in p.rest && j != k :: p'.rest[j] == p.rest[j])
  {
  }

  lemma ConsumedTurn(scripts: Scripts, schedule: seq<Key>, k: Key, j: Key)
    requires j in scripts
    ensures
      var n := Consumed(scripts, schedule, j);
      Consumed(scripts, schedule + [k], j) == if j == k && n < |scripts[j]| then n + 1 else n
  {
    assert multiset(schedule + [k]) == multiset(schedule) + multiset{k};
  }

  lemma KeyIndependent(cfg: Config, w: World, scripts: Scripts, schedule: seq<Key>, p: Play, k: Key, j: Key)
    requires Scripted(cfg, w, scripts) && Independent(cfg, w, scripts, schedule, p) && j in scripts
    ensures j in Turn(cfg, p, k).w.lanes && j in Turn(cfg, p, k).rest
    ensures OnItsOwn(cfg, w, scripts, Consumed(scripts, schedule + [k], j), Turn(cfg, p, k), j)
  {
    var n := Consumed(scripts, schedule, j);
    assert OnItsOwn(cfg, w, scripts, n, p, j);
    ConsumedTurn(scripts, schedule, k, j);
    TurnFrame(cfg, p, k);
    if j == k && n < |scripts[j]| {
      OwnTurn(cfg, w, scripts, n, p, k);
    }
  }

  lemma TurnIndependent(cfg: Config, w: World, scripts: Scripts, schedule: seq<Key>, p: Play, k: Key)
    requires Scripted(cfg, w, scripts) && Independent(cfg, w, scripts, schedule, p)
    ensures Independent(cfg, w, scripts, schedule + [k], Turn(cfg, p, k))
  {
    TurnFrame(cfg, p, k);
    forall j | j in scripts
      ensures j in Turn(cfg, p, k).w.lanes && j in Turn(cfg, p, k).rest
      ensures OnItsOwn(cfg, w, scripts, Consumed(scripts, schedule + [k], j), Turn(cfg, p, k), j)
    {
      KeyIndependent(cfg, w, scripts, schedule, p, k, j);
    }
  }

  lemma StartIndependent(cfg: Config, w: World, scripts: Scripts)
    requires scripts.Keys <= w.lanes.Keys
    ensures Independent(cfg, w, scripts, [], Play(w, scripts))
  {
  }

  lemma {:induction false} PlayedIndependent(cfg: Config, w: World, scripts: Scripts, schedule: seq<Key>)
    requires scripts.Keys <= w.lanes.Keys && Scripted(cfg, w, scripts)
    ensures Independent(cfg, w, scripts, schedule, Played(cfg, Play(w, scripts), schedule))
  {
    hide Turn, Scripted, OnItsOwn;
    if schedule == [] {
      StartIndependent(cfg, w, scripts);
    } else {
      hide Independent;
      var before := schedule[..|schedule| - 1];
      PlayedIndependent(cfg, w, scripts, before);
      TurnIndependent(cfg, w, scripts, before, Played(cfg, Play(w, scripts), before), schedule[|schedule| - 1]);
      assert before + [schedule[|schedule| - 1]] == schedule;
    }
  }

  /** If no record enters the nonce review, every schedule that lets all goroutines finish gives the
      same records, each the one its own answers determine. */
  lemma ScheduleIrrelevant(cfg: Config, w: World, scripts: Scripts, schedule: seq<Key>)
    requires Scripted(cfg, w, scripts) && Exhausted(Played(cfg, Play(w, scripts), schedule))
    ensures Played(cfg, Play(w, scripts), schedule).w ==
            w.(lanes := map k | k in w.lanes ::
                          if k in scripts then LaneAfter(cfg, w.lanes[k], scripts[k]) else w.lanes[k])
  {
    PlayedIndependent(cfg, w, scripts, schedule);
    var p := Played(cfg, Play(w, scripts), schedule);
    forall k | k in scripts ensures p.w.lanes[k] == LaneAfter(cfg, w.lanes[k], scripts[k]) {
      var n := Consumed(scripts, schedule, k);
      assert scripts[k][..n] == scripts[k];
    }
  }

  /** Processing the records of `order` one after the other. */
  function OneByOne(order: seq<Key>, scripts: Scripts): seq<Key> {
    if order == [] then []
    else OneByOne(order[..|order| - 1], scripts) + Turns(order[|order| - 1], scripts)
  }

  function Turns(k: Key, scripts: Scripts): seq<Key> {
    if k in scripts then seq(|scripts[k]|, _ => k) else []
  }

  lemma {:induction false} RepeatCount(k: Key, n: nat)
    ensures multiset(seq(n, _ => k))[k] == n
  {
    if n > 0 {
      RepeatCount(k, n - 1);
      assert seq(n, _ => k) == seq(n - 1, _ => k) + [k];
    }
  }

  lemma {:induction false} OneByOneCount(order: seq<Key>, scripts: Scripts, k: Key)
    requires k in order && k in scripts
    ensures multiset(OneByOne(order, scripts))[k] >= |scripts[k]|
  {
    var before, last := order[..|order| - 1], order[|order| - 1];
    assert multiset(OneByOne(order, scripts)) == multiset(OneByOne(before, scripts)) + multiset(Turns(last, scripts));
    if k == last {
      RepeatCount(k, |scripts[k]|);
    } else {
      assert order == before + [last];
      OneByOneCount(before, scripts, k);
    }
  }

  /** Any interleaving of a cycle without nonce reviews gives the table of processing the records one
      by one. */
  lemma InterleavingTheorem(cfg: Config, w: World, scripts: Scripts, schedule: seq<Key>, order: seq<Key>)
    requires Scripted(cfg, w, scripts) && Exhausted(Played(cfg, Play(w, scripts), schedule))
    requires forall k | k in scripts :: k in order
    ensures Exhausted(Played(cfg, Play(w, scripts), OneByOne(order, scripts)))
    ensures Played(cfg, Play(w, scripts), schedule).w.Table() ==
            Played(cfg, Play(w, scripts), OneByOne(order, scripts)).w.Table()
  {
    var p := Played(cfg, Play(w, scripts), OneByOne(order, scripts));
    PlayedIndependent(cfg, w, scripts, OneByOne(order, scripts));
    forall k | k in scripts ensures p.rest[k] == [] {
      OneByOneCount(order, scripts, k);
    }
    ScheduleIrrelevant(cfg, w, scripts, schedule);
    ScheduleIrrelevant(cfg, w, scripts, OneByOne(order, scripts));
  }

  // ----- A goroutine's events as moves of the manager

  function Works(k: Key, events: seq<Event>): seq<Move> {
    seq(|events|, i requires 0 <= i < |events| => Work(k, events[i]))
  }

  /** Running one goroutine alone changes its own record only, to what its events determine. */
  lemma {:induction false} WorksAfter(cfg: Config, w: World, k: Key, events: seq<Event>)
    requires k in w.lanes
    ensures After(cfg, w, Works(k, events)) == w.(lanes := w.lanes[k := LaneAfter(cfg, w.lanes[k], events)])
  {
    if events == [] {
      assert w.lanes[k := w.lanes[k]] == w.lanes;
    } else {
      var before := events[..|events| - 1];
      WorksAfter(cfg, w, k, before);
      assert Works(k, events)[..|events| - 1] == Works(k, before);
    }
  }

  /** The answers the goroutine of `k` gets in a run. */
  function EventsOf(k: Key, moves: seq<Move>): seq<Event> {
    if moves == [] then []
    else
      var before, last := EventsOf(k, moves[..|moves| - 1]), moves[|moves| - 1];
      if last.Work? && last.key == k then before + [last.event] else before
  }

  /** No cycle starts and the goroutine of `k` does not disappear. */
  predicate Undisturbed(k: Key, moves: seq<Move>) {
    forall move | move in moves :: !move.BeginCycle? && move != Abandon(k)
  }

  /** Within a cycle a record depends on the answers to its own goroutine only, whatever else the run does. */
  lemma {:induction false} LaneOfRun(cfg: Config, content: Content, w: World, moves: seq<Move>, k: Key)
    requires Run(cfg, content, w, moves) && k in w.lanes && Undisturbed(k, moves)
    ensures k in After(cfg, w, moves).lanes
    ensures After(cfg, w, moves).lanes[k] == LaneAfter(cfg, w.lanes[k], EventsOf(k, moves))
    ensures LanePath(cfg, w.lanes[k], EventsOf(k, moves))
  {
    hide LaneNext, Fits, Truthful, Highest, Suggested, Extends, OnePerNonce, Idle;
    if moves != [] {
      var before, last := moves[..|moves| - 1], moves[|moves| - 1];
      LaneOfRun(cfg, content, w, before, k);
      if last.Work? && last.key == k {
        PathSnoc(cfg, w.lanes[k], EventsOf(k, before), last.event);
      }
    }
  }
}
