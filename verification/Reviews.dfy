/** Two nonce reviews in one cycle: when their order matters. */
module Reviews {
  import opened Basics
  import opened Records
  import opened Monitor
  import opened Lanes
  import opened Nonces
  import opened Manager
  import opened Theorems

  // ----- On the table

  function Raised(r: MonitoredTx, n: Result<uint64>): MonitoredTx {
    if n.Ok? && n.value > r.nonce then r.(nonce := n.value) else r
  }

  /** The table after an undisturbed review of `k`, for which L1 would name the nonce `pending`. */
  ghost function Reviewed(table: Table, k: Key, pending: Result<uint64>): Table
    requires k in table
  {
    table[k := Raised(table[k], NextNonce(table, table[k].from, pending))]
  }

  /** The review of `j` raises what the review of `k` will read, and `k` is not beyond that already. */
  ghost predicate Pushes(table: Table, j: Key, k: Key)
    requires j in table && k in table
  {
    && table[j].status == Created
    && var highest := Highest(table, table[j].from);
       highest.Some? && table[k].nonce < highest.value + 2
  }

  ghost predicate Clash(table: Table, j: Key, k: Key)
    requires j in table && k in table
  {
    table[j].from == table[k].from && (Pushes(table, j, k) || Pushes(table, k, j))
  }

  /** Nonces stay clear of the end of the 64-bit range (an account's nonce never gets there by EIP-2681). */
  ghost predicate NoncesClear(table: Table) {
    forall k | k in table :: table[k].nonce < TWO_64 - 2
  }

  /** Reviewing a row that is not Created changes nobody's reading. */
  lemma SameReading(table: Table, k: Key, r: MonitoredTx, from: Address)
    requires k in table && r.from == table[k].from && r.status == table[k].status
    requires r.status != Created || r.from != from
    ensures Highest(table[k := r], from) == Highest(table, from)
  {
    var table' := table[k := r];
    forall n | n in CreatedNonces(table, from) ensures n in CreatedNonces(table', from) {
      var j :| j in table && CreatedBy(from, table[j]) && table[j].nonce == n;
      assert table'[j] == table[j];
    }
    assert CreatedNonces(table', from) == CreatedNonces(table, from);
  }

  /** Reviewing a Created row makes it the highest of its sender. */
  lemma RaisedReading(table: Table, k: Key, pending: Result<uint64>)
    requires k in table && table[k].status == Created && NoncesClear(table)
    ensures
      var from, table' := table[k].from, Reviewed(table, k, pending);
      && Highest(table, from).Some? && table[k].nonce <= Highest(table, from).value < TWO_64 - 2
      && table'[k] == table[k].(nonce := Highest(table, from).value + 1)
      && Highest(table', from) == Some(Highest(table, from).value + 1)
  {
    var from, table' := table[k].from, Reviewed(table, k, pending);
    assert table[k].nonce in CreatedNonces(table, from);
    var x := Max(CreatedNonces(table, from));
    var j :| j in table && CreatedBy(from, table[j]) && table[j].nonce == x;
    assert table'[k].nonce in CreatedNonces(table', from);
    forall n | n in CreatedNonces(table', from) ensures n <= x + 1 {
      var i :| i in table' && CreatedBy(from, table'[i]) && table'[i].nonce == n;
      if i != k {
        assert table[i].nonce in CreatedNonces(table, from);
      }
    }
    HighestIs(table', from, x + 1);
  }

  /** What the second of two reviews reads. */
  lemma SecondReading(table: Table, j: Key, k: Key, p: Result<uint64>)
    requires j in table && k in table && j != k && NoncesClear(table)
    ensures
      var from := table[k].from;
      var before, after := Highest(table, from), Highest(Reviewed(table, j, p), from);
      if table[j].from == from && table[j].status == Created
      then before.Some? && before.value < TWO_64 - 2 && after == Some(before.value + 1)
      else after == before
  {
    if table[j].status == Created {
      RaisedReading(table, j, p);
    }
    if table[j].from != table[k].from || table[j].status != Created {
      SameReading(table, j, Reviewed(table, j, p)[j], table[k].from);
    }
  }

  /** Two reviews leave the same table in both orders exactly if they do not clash: they clash when one record is
      Created, the other has the same sender and a nonce below the one the second review would give it. */
  lemma ReviewsCommuteIff(table: Table, j: Key, k: Key, p: Result<uint64>, q: Result<uint64>)
    requires j in table && k in table && j != k && NoncesClear(table)
    ensures Reviewed(Reviewed(table, j, p), k, q) == Reviewed(Reviewed(table, k, q), j, p) <==> !Clash(table, j, k)
  {
    hide Highest, Reviewed, Raised;
    InOrder(table, j, k, p, q);
    InOrder(table, k, j, q, p);
    SecondReading(table, j, k, p);
    SecondReading(table, k, j, q);
    if table[j].status == Created {
      RaisedReading(table, j, p);
    }
    if table[k].status == Created {
      RaisedReading(table, k, q);
    }
    var jk, kj := Reviewed(Reviewed(table, j, p), k, q), Reviewed(Reviewed(table, k, q), j, p);
    assert jk == kj <==> jk[j] == kj[j] && jk[k] == kj[k];
    RaisedSame(table[j], NextNonce(table, table[j].from, p), NextNonce(Reviewed(table, k, q), table[j].from, p));
    RaisedSame(table[k], NextNonce(table, table[k].from, q), NextNonce(Reviewed(table, j, p), table[k].from, q));
  }

  lemma RaisedSame(r: MonitoredTx, m: Result<uint64>, n: Result<uint64>)
    requires m.Ok? == n.Ok?
    ensures Raised(r, m) == Raised(r, n) <==>
            m == n || (m.Ok? && m.value <= r.nonce && n.value <= r.nonce)
  {
  }

  /** The rows after two reviews. */
  lemma InOrder(table: Table, j: Key, k: Key, p: Result<uint64>, q: Result<uint64>)
    requires j in table && k in table && j != k
    ensures
      var first := Reviewed(table, j, p);
      && k in first
      && Reviewed(first, k, q) ==
         table[j := Raised(table[j], NextNonce(table, table[j].from, p))]
              [k := Raised(table[k], NextNonce(first, table[k].from, q))]
  {
  }

  // ----- In the machine

  /** The goroutine of `k` is about to review the nonce of its record. */
  predicate AtReview(w: World, k: Key) {
    && k in w.lanes
    && var l := w.lanes[k];
    l.task.Some? && l.task.value.pc.ReviewingNonce? && l.task.value.mTx == l.row
    && l.row == Persisted(l.row) && Storable(l.row)
  }

  /** The moves of an undisturbed review. */
  ghost function ReviewMoves(table: Table, k: Key, pending: Result<uint64>): seq<Move>
    requires k in table
  {
    var highest := Highest(table, table[k].from);
    [Work(k, ReadCreated(Ok(highest)))]
    + (if highest.None? then [Work(k, ReadPending(pending))] else [])
    + (if highest.None? && pending.Err? then [] else [Work(k, Wrote(Stored))])
  }

  lemma LaneRead(cfg: Config, content: Content, w: World, k: Key, moves: seq<Move>, e: Event, t: Task)
    requires k in w.lanes && Run(cfg, content, w, moves)
    requires
      var l := w.lanes[k];
      && l.task.Some? && Fits(t.pc, e) && !e.Wrote? && !e.LookedUp? && !e.SentOut?
      && After(cfg, w, moves) == w.(lanes := w.lanes[k := l.(task := Some(t))])
      && Truthful(content, w.chain, t, e)
      && (e.ReadCreated? && e.highest.Ok? ==> e.highest.value == Highest(w.Table(), l.row.from))
    ensures Run(cfg, content, w, moves + [Work(k, e)])
    ensures After(cfg, w, moves + [Work(k, e)]) ==
            w.(lanes := w.lanes[k := w.lanes[k].(task := Some(Next(cfg, t, e)))])
  {
    hide Run, After, Next, Truthful, Fits, Highest;
    var w' := After(cfg, w, moves);
    assert w'.Table() == w.Table();
    RunSnoc(cfg, content, w, moves, Work(k, e));
    assert w'.lanes[k := w.lanes[k].(task := Some(Next(cfg, t, e)))] ==
           w.lanes[k := w.lanes[k].(task := Some(Next(cfg, t, e)))];
  }

  /** Whatever else is going on, such a review is a run and does to the table what `Reviewed` says. */
  lemma ReviewIsRun(cfg: Config, content: Content, w: World, k: Key, pending: Result<uint64>)
    requires AtReview(w, k)
    ensures Run(cfg, content, w, ReviewMoves(w.Table(), k, pending))
    ensures
      var w' := After(cfg, w, ReviewMoves(w.Table(), k, pending));
      && w'.Table() == Reviewed(w.Table(), k, pending)
      && w'.lanes.Keys == w.lanes.Keys && w'.chain == w.chain
      && forall j | j in w.lanes && j != k :: w'.lanes[j] == w.lanes[j]
  {
    hide Run, After, Highest, AfterNonce;
    var l := w.lanes[k];
    var highest := Highest(w.Table(), l.row.from);
    var e := ReadCreated(Ok(highest));
    NoMoves(cfg, content, w);
    assert w.lanes[k := l] == w.lanes && l.(task := Some(l.task.value)) == l;
    LaneRead(cfg, content, w, k, [], e, l.task.value);
    var moves, t := [Work(k, e)], Next(cfg, l.task.value, e);
    assert [] + [Work(k, e)] == moves;
    if highest.None? {
      LaneRead(cfg, content, w, k, moves, ReadPending(pending), t);
      moves, t := moves + [Work(k, ReadPending(pending))], Next(cfg, t, ReadPending(pending));
    }
    if highest.None? && pending.Err? {
      assert ReviewMoves(w.Table(), k, pending) == moves;
      assert After(cfg, w, moves).Table() == w.Table();
    } else {
      ReviewWritten(cfg, content, w, k, moves, t, NextNonce(w.Table(), l.row.from, pending));
      assert ReviewMoves(w.Table(), k, pending) == moves + [Work(k, Wrote(Stored))];
    }
  }

  lemma ReviewWritten(cfg: Config, content: Content, w: World, k: Key, moves: seq<Move>, t: Task, n: Result<uint64>)
    requires k in w.lanes && Run(cfg, content, w, moves)
    requires After(cfg, w, moves) == w.(lanes := w.lanes[k := w.lanes[k].(task := Some(t))])
    requires t.pc.SavingNonce? && t.mTx == Raised(w.lanes[k].row, n)
    requires w.lanes[k].row == Persisted(w.lanes[k].row) && Storable(w.lanes[k].row)
    ensures Run(cfg, content, w, moves + [Work(k, Wrote(Stored))])
    ensures
      var w' := After(cfg, w, moves + [Work(k, Wrote(Stored))]);
      && w'.Table() == w.Table()[k := Raised(w.lanes[k].row, n)]
      && w'.lanes.Keys == w.lanes.Keys && w'.chain == w.chain
      && forall j | j in w.lanes && j != k :: w'.lanes[j] == w.lanes[j]
  {
    hide Run, After, AfterNonce;
    RunSnoc(cfg, content, w, moves, Work(k, Wrote(Stored)));
  }

  /** Two goroutines of one cycle that review their nonces one after the other: both orders are runs, and they
      leave the same table if and only if the two records do not clash. */
  lemma ReviewOrderTheorem(cfg: Config, content: Content, w: World, j: Key, k: Key,
                           p: Result<uint64>, q: Result<uint64>)
    requires AtReview(w, j) && AtReview(w, k) && j != k && NoncesClear(w.Table())
    ensures
      var table := w.Table();
      var jk := ReviewMoves(table, j, p) + ReviewMoves(Reviewed(table, j, p), k, q);
      var kj := ReviewMoves(table, k, q) + ReviewMoves(Reviewed(table, k, q), j, p);
      && Run(cfg, content, w, jk) && Run(cfg, content, w, kj)
      && (After(cfg, w, jk).Table() == After(cfg, w, kj).Table() <==> !Clash(table, j, k))
  {
    hide Run, After, ReviewMoves, Reviewed, Clash, NoncesClear;
    InTurn(cfg, content, w, j, k, p, q);
    InTurn(cfg, content, w, k, j, q, p);
    ReviewsCommuteIff(w.Table(), j, k, p, q);
  }

  lemma InTurn(cfg: Config, content: Content, w: World, j: Key, k: Key, p: Result<uint64>, q: Result<uint64>)
    requires AtReview(w, j) && AtReview(w, k) && j != k
    ensures
      var table := w.Table();
      var moves := ReviewMoves(table, j, p) + ReviewMoves(Reviewed(table, j, p), k, q);
      && Run(cfg, content, w, moves)
      && After(cfg, w, moves).Table() == Reviewed(Reviewed(table, j, p), k, q)
  {
    hide Run, After, ReviewMoves;
    var first := ReviewMoves(w.Table(), j, p);
    ReviewIsRun(cfg, content, w, j, p);
    var w' := After(cfg, w, first);
    ReviewIsRun(cfg, content, w', k, q);
    RunConcat(cfg, content, w, first, ReviewMoves(w'.Table(), k, q));
  }
}
