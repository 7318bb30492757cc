/** The transaction manager, its table and L1 as one state machine, and what holds in every run. */
module Manager {
  import opened Basics
  import opened Records
  import opened Monitor
  import opened Lanes
  import opened Invariants
  import opened Nonces
  import GasPrice

  datatype World = World(lanes: map<Key, Lane>, chain: Chain) {
    function Table(): Table {
      map k | k in lanes :: lanes[k].row
    }
  }

  /** One move: L1 advances, an `Add` commits, a cycle starts, a goroutine gets an answer, or a
      goroutine disappears (a crash abandons all of them). */
  datatype Move =
    | Advance(chain: Chain)
    | Insert(mTx: MonitoredTx)
    | BeginCycle
    | Work(key: Key, event: Event)
    | Abandon(key: Key)

  /** The record `Add` stores; its nonce may stem from an outdated reading of the table. */
  predicate Blank(m: MonitoredTx) {
    m.status == Created && m.history == {} && m.numRetries == 0 && m.blockNumber == None
  }

  ghost predicate Suggested(cfg: Config, price: nat) {
    exists p: nat :: price == GasPrice.Adjusted(cfg.margin, cfg.maxGasPriceLimit, p)
  }

  predicate Idle(l: Lane) {
    l.task.None? || l.task.value.pc.Finished?
  }

  ghost predicate Allowed(cfg: Config, content: Content, w: World, move: Move) {
    match move
    case Advance(chain) => Extends(w.chain, chain) && OnePerNonce(content, chain)
    case Insert(m) => m.PrimaryKey() !in w.lanes && Blank(m) && Suggested(cfg, m.gasPrice)
    case BeginCycle => forall k | k in w.lanes :: Idle(w.lanes[k])
    case Work(k, e) =>
      && k in w.lanes
      && LaneStep(cfg, content, w.chain, w.lanes[k], e, LaneNext(cfg, w.lanes[k], e))
      && (e.ReadCreated? && e.highest.Ok? ==> e.highest.value == Highest(w.Table(), w.lanes[k].row.from))
    case Abandon(k) => k in w.lanes
  }

  function Apply(cfg: Config, w: World, move: Move): World {
    match move
    case Advance(chain) => w.(chain := chain)
    case Insert(m) => w.(lanes := w.lanes[m.PrimaryKey() := Fresh(m)])
    case BeginCycle => w.(lanes := map k | k in w.lanes :: Opened(cfg, w.lanes[k]))
    case Work(k, e) => if k in w.lanes then w.(lanes := w.lanes[k := LaneNext(cfg, w.lanes[k], e)]) else w
    case Abandon(k) => if k in w.lanes then w.(lanes := w.lanes[k := w.lanes[k].(task := None)]) else w
  }

  function After(cfg: Config, w: World, moves: seq<Move>): World {
    if moves == [] then w
    else Apply(cfg, After(cfg, w, moves[..|moves| - 1]), moves[|moves| - 1])
  }

  ghost predicate Run(cfg: Config, content: Content, w: World, moves: seq<Move>) {
    moves != [] ==>
      var before := moves[..|moves| - 1];
      Run(cfg, content, w, before) && Allowed(cfg, content, After(cfg, w, before), moves[|moves| - 1])
  }

  lemma NoMoves(cfg: Config, content: Content, w: World)
    ensures Run(cfg, content, w, []) && After(cfg, w, []) == w
  {
  }

  lemma LastMove(cfg: Config, content: Content, w: World, moves: seq<Move>)
    requires moves != [] && Run(cfg, content, w, moves)
    ensures
      var before, last := moves[..|moves| - 1], moves[|moves| - 1];
      && moves == before + [last]
      && Run(cfg, content, w, before) && Allowed(cfg, content, After(cfg, w, before), last)
      && After(cfg, w, moves) == Apply(cfg, After(cfg, w, before), last)
  {
    hide Allowed, Apply;
  }

  lemma RunSnoc(cfg: Config, content: Content, w: World, moves: seq<Move>, move: Move)
    requires Run(cfg, content, w, moves) && Allowed(cfg, content, After(cfg, w, moves), move)
    ensures Run(cfg, content, w, moves + [move])
    ensures After(cfg, w, moves + [move]) == Apply(cfg, After(cfg, w, moves), move)
  {
    hide Allowed, Apply;
    assert (moves + [move])[..|moves|] == moves;
  }

  /** A run may be continued by another. */
  lemma {:induction false} RunConcat(cfg: Config, content: Content, w: World, moves: seq<Move>, more: seq<Move>)
    requires Run(cfg, content, w, moves) && Run(cfg, content, After(cfg, w, moves), more)
    ensures Run(cfg, content, w, moves + more)
    ensures After(cfg, w, moves + more) == After(cfg, After(cfg, w, moves), more)
  {
    hide Allowed, Apply, Run, After;
    if more == [] {
      NoMoves(cfg, content, After(cfg, w, moves));
      assert moves + more == moves;
    } else {
      var before, last := more[..|more| - 1], more[|more| - 1];
      LastMove(cfg, content, After(cfg, w, moves), more);
      RunConcat(cfg, content, w, moves, before);
      RunSnoc(cfg, content, w, moves + before, last);
      assert moves + more == moves + before + [last];
    }
  }

  /** `p` holds of every move of the run, in the state where it is made. */
  ghost predicate Along(cfg: Config, w: World, moves: seq<Move>, p: (World, Move) -> bool) {
    moves != [] ==>
      var before := moves[..|moves| - 1];
      Along(cfg, w, before, p) && p(After(cfg, w, before), moves[|moves| - 1])
  }

  // ----- What every run keeps

  ghost predicate LaneOk(cfg: Config, content: Content, chain: Chain, k: Key, l: Lane) {
    && l.row.PrimaryKey() == k
    && Synced(cfg, l)
    && WriteAhead(l)
    && Backed(cfg, chain, l)
    && Attempts(content, l)
  }

  ghost predicate Sound(cfg: Config, content: Content, w: World) {
    && OnePerNonce(content, w.chain)
    && forall k | k in w.lanes :: LaneOk(cfg, content, w.chain, k, w.lanes[k])
  }

  lemma LaneOkWork(cfg: Config, content: Content, chain: Chain, k: Key, l: Lane, e: Event)
    requires LaneOk(cfg, content, chain, k, l) && LaneStep(cfg, content, chain, l, e, LaneNext(cfg, l, e))
    ensures LaneOk(cfg, content, chain, k, LaneNext(cfg, l, e))
    ensures Evolves(l.row, LaneNext(cfg, l, e).row)
  {
    var l' := LaneNext(cfg, l, e);
    EvolvesStep(cfg, content, chain, l, e, l');
    SyncedStep(cfg, content, chain, l, e, l');
    WriteAheadStep(cfg, content, chain, l, e, l');
    BackedStep(cfg, content, chain, l, e, l');
    AttemptsStep(cfg, content, chain, l, e, l');
  }

  lemma LaneOkOpened(cfg: Config, content: Content, chain: Chain, k: Key, l: Lane)
    requires LaneOk(cfg, content, chain, k, l) && Idle(l)
    ensures LaneOk(cfg, content, chain, k, Opened(cfg, l))
  {
    SyncedOpened(cfg, l);
  }

  /** What one move may do to a record that exists before it. */
  ghost predicate Follows(l: Lane, l': Lane) {
    Evolves(l.row, l'.row) && l.handed <= l'.handed && l.accepted <= l'.accepted
  }

  lemma FreshOk(cfg: Config, content: Content, chain: Chain, m: MonitoredTx)
    requires Blank(m)
    ensures LaneOk(cfg, content, chain, m.PrimaryKey(), Fresh(m))
  {
  }

  lemma LaneOkMove(cfg: Config, content: Content, w: World, move: Move, k: Key)
    requires Allowed(cfg, content, w, move) && k in w.lanes && LaneOk(cfg, content, w.chain, k, w.lanes[k])
    ensures
      var w' := Apply(cfg, w, move);
      k in w'.lanes && LaneOk(cfg, content, w'.chain, k, w'.lanes[k]) && Follows(w.lanes[k], w'.lanes[k])
  {
    var l := w.lanes[k];
    match move
    case Advance(chain) => BackedExtends(cfg, w.chain, chain, l);
    case Insert(m) => assert m.PrimaryKey() != k;
    case BeginCycle => LaneOkOpened(cfg, content, w.chain, k, l);
    case Work(j, e) => if j == k { LaneOkWork(cfg, content, w.chain, k, l, e); }
    case Abandon(j) =>
  }

  lemma SoundMove(cfg: Config, content: Content, w: World, move: Move)
    requires Sound(cfg, content, w) && Allowed(cfg, content, w, move)
    ensures Sound(cfg, content, Apply(cfg, w, move))
    ensures Preserves(w, Apply(cfg, w, move))
  {
    var w' := Apply(cfg, w, move);
    forall k | k in w.lanes
      ensures k in w'.lanes && LaneOk(cfg, content, w'.chain, k, w'.lanes[k]) && Follows(w.lanes[k], w'.lanes[k])
    {
      LaneOkMove(cfg, content, w, move, k);
    }
    if move.Insert? {
      FreshOk(cfg, content, w.chain, move.mTx);
    }
  }

  /** Every record of `w` is still there in `w'`, and evolved. */
  ghost predicate Preserves(w: World, w': World) {
    forall k | k in w.lanes :: k in w'.lanes && Follows(w.lanes[k], w'.lanes[k])
  }

  lemma PreservesTransitive(u: World, v: World, w: World)
    requires Preserves(u, v) && Preserves(v, w)
    ensures Preserves(u, w)
  {
    forall k | k in u.lanes ensures k in w.lanes && Follows(u.lanes[k], w.lanes[k]) {
      assert Follows(u.lanes[k], v.lanes[k]) && Follows(v.lanes[k], w.lanes[k]);
    }
  }

  /** Induction over runs whose every move satisfies `hyp`. */
  lemma {:induction false} RunInduction(cfg: Config, content: Content, w: World, moves: seq<Move>,
                                        hyp: (World, Move) -> bool, inv: World -> bool)
    requires Run(cfg, content, w, moves) && Along(cfg, w, moves, hyp) && inv(w)
    requires forall v, move | inv(v) && Allowed(cfg, content, v, move) && hyp(v, move) :: inv(Apply(cfg, v, move))
    ensures inv(After(cfg, w, moves))
  {
    if moves != [] {
      var before := moves[..|moves| - 1];
      RunInduction(cfg, content, w, before, hyp, inv);
    }
  }

  lemma {:induction false} AlongTrivially(cfg: Config, w: World, moves: seq<Move>)
    ensures Along(cfg, w, moves, (v, move) => true)
  {
    if moves != [] {
      AlongTrivially(cfg, w, moves[..|moves| - 1]);
    }
  }

  lemma SoundRun(cfg: Config, content: Content, w: World, moves: seq<Move>)
    requires Sound(cfg, content, w) && Run(cfg, content, w, moves)
    ensures Sound(cfg, content, After(cfg, w, moves)) && Preserves(w, After(cfg, w, moves))
  {
    hide Run, After, Sound, Allowed, Apply;
    var inv := v => Sound(cfg, content, v) && Preserves(w, v);
    forall v, move | inv(v) && Allowed(cfg, content, v, move) ensures inv(Apply(cfg, v, move)) {
      SoundMove(cfg, content, v, move);
      PreservesTransitive(w, v, Apply(cfg, v, move));
    }
    AlongTrivially(cfg, w, moves);
    RunInduction(cfg, content, w, moves, (v, move) => true, inv);
  }

  lemma LaneRun(cfg: Config, content: Content, w: World, moves: seq<Move>, k: Key)
    requires Sound(cfg, content, w) && Run(cfg, content, w, moves)
    requires k in After(cfg, w, moves).lanes
    ensures
      var w' := After(cfg, w, moves);
      && LaneOk(cfg, content, w'.chain, k, w'.lanes[k])
      && (k in w.lanes ==> Follows(w.lanes[k], w'.lanes[k]))
  {
    hide Run, After, LaneOk, Follows;
    SoundRun(cfg, content, w, moves);
  }

  function Start(chain: Chain): World {
    World(map[], chain)
  }
}
