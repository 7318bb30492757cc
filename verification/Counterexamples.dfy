/** Runs that show why the theorems carry the hypotheses they carry. */
module Counterexamples {
  import opened Basics
  import opened Records
  import opened Monitor
  import opened Lanes
  import opened Invariants
  import opened Nonces
  import opened Manager
  import opened Theorems
  import opened Reviews
  import GasPrice
  import Hex

  function H(n: Byte): Hash {
    Hash([n] + Hex.Zeros(31))
  }

  lemma Distinct()
    ensures H(1) != H(2) && H(2) != H(3) && H(1) != H(3)
  {
    assert H(1).bytes[0] == 1 && H(2).bytes[0] == 2 && H(3).bytes[0] == 3;
  }

  const CFG: Config := Config(10, 0, GasPrice.Factor(1, 0), 0)

  /** The same configuration with a limit of two retries. */
  const TWICE: Config := Config(2, 0, GasPrice.Factor(1, 0), 0)

  const SENDER: Address := Address(Hex.Zeros(20))

  function TxOf(h: Hash): LegacyTx {
    LegacyTx(None, if h == H(1) then 0 else if h == H(2) then 1 else 2, Some(0), None, 21000, 0)
  }

  /** A record on its second nonce: the transaction with nonce 0 reverted, the one with nonce 1 is pending. */
  function Record(nonce: uint64, history: set<Hash>, retries: uint64): MonitoredTx {
    MonitoredTx("interop", "tx", SENDER, None, nonce, Some(0), None, 21000, 0, 0, Sent, None, history, retries)
  }

  function Before(): Chain {
    Chain(map[H(1) := Receipt(false, 5)], 10)
  }

  /** The pending transaction is mined. */
  function Mid(): Chain {
    Chain(map[H(1) := Receipt(false, 5), H(2) := Receipt(true, 11)], 12)
  }

  /** Both the pending transaction and its replacement get mined. */
  function Later(): Chain {
    Chain(map[H(1) := Receipt(false, 5), H(2) := Receipt(true, 11), H(3) := Receipt(true, 12)], 12)
  }

  const K: Key := Key("interop", "tx")

  function Only(l: Lane, chain: Chain): World {
    World(map[K := l], chain)
  }

  function First(): Lane {
    Lane(Record(1, {H(1), H(2)}, 2), None, {H(1), H(2)}, {H(1), H(2)}, 0)
  }

  function At(row: MonitoredTx, pc: Pc, m: MonitoredTx): Lane {
    Lane(row, Some(Task(pc, m)), {H(1), H(2)}, {H(1), H(2)}, 0)
  }

  /** The start satisfies what the theorems require. */
  lemma FirstFine(cfg: Config, content: Content, chain: Chain)
    requires cfg.maxRetries >= 2 && Reverted(chain, H(1)) && OnePerNonce(content, chain)
    requires content(H(1)) == TxOf(H(1)) && content(H(2)) == TxOf(H(2))
    ensures Sound(cfg, content, Only(First(), chain)) && Careful(content, Only(First(), chain))
    ensures Counted(cfg, Only(First(), chain))
  {
    hide H;
    Distinct();
    var l := First();
    assert Attempts(content, l) by {
      forall h | h in l.row.history ensures Attempt(content, l.row, h) {
        assert WithOffset(l.row.gas, l.row.gasOffset, content(h).gas);
      }
    }
    assert WriteAhead(l) by {
      assert H(1) in l.accepted;
    }
    assert Counted(cfg, Only(l, chain)) by {
      assert {H(1), H(2)} - {H(1)} == {H(2)};
    }
  }

  lemma Push(cfg: Config, content: Content, start: World, moves: seq<Move>, l: Lane, chain: Chain, e: Event, l': Lane)
    requires Run(cfg, content, start, moves) && After(cfg, start, moves) == Only(l, chain)
    requires l.row.status == Sent && LaneStep(cfg, content, chain, l, e, l')
    requires e.ReadCreated? ==> e == ReadCreated(Ok(None))
    ensures Run(cfg, content, start, moves + [Work(K, e)])
    ensures After(cfg, start, moves + [Work(K, e)]) == Only(l', chain)
  {
    hide LaneNext, Truthful, Fits, Run, After;
    var w := Only(l, chain);
    assert w.lanes[K := l'] == Only(l', chain).lanes;
    if e.ReadCreated? {
      assert CreatedNonces(w.Table(), l.row.from) == {};
    }
    RunSnoc(cfg, content, start, moves, Work(K, e));
  }

  /** The cycle begins. */
  lemma CycleBegins(cfg: Config, content: Content, chain: Chain) returns (moves: seq<Move>)
    ensures Run(cfg, content, Only(First(), chain), moves)
    ensures
      var r := Record(1, {H(1), H(2)}, 2);
      After(cfg, Only(First(), chain), moves) ==
      Only(At(r, CheckingReceipts({H(1), H(2)}, false, true, true), r), chain)
  {
    hide H;
    var r := Record(1, {H(1), H(2)}, 2);
    var l := At(r, CheckingReceipts({H(1), H(2)}, false, true, true), r);
    moves := [BeginCycle];
    assert moves[..0] == [];
    assert {H(1), H(2)} != {};
    assert Opened(cfg, First()) == l;
    assert Apply(cfg, Only(First(), chain), BeginCycle).lanes == map[K := l];
  }

  // ----- A receipt that cannot be read

  lemma PriceStays()
    ensures GasPrice.Adjusted(CFG.margin, CFG.maxGasPriceLimit, 0) == 0
  {
    GasPrice.RoundSmall(0);
  }

  /** The receipt of the pending transaction cannot be read, and the nonce review is entered. */
  lemma ErrorEntersReview() returns (moves: seq<Move>)
    ensures Run(CFG, TxOf, Only(First(), Before()), moves)
    ensures
      var r := Record(1, {H(1), H(2)}, 2);
      After(CFG, Only(First(), Before()), moves) == Only(At(r, ReviewingNonce(false), r), Before())
  {
    hide H, First, Run, After;
    Distinct();
    moves := CycleBegins(CFG, TxOf, Before());
    var r, start, failed := Record(1, {H(1), H(2)}, 2), Only(First(), Before()), Mined(Receipt(false, 5));
    var l1 := At(r, CheckingReceipts({H(1), H(2)}, false, true, true), r);
    var l2 := At(r, CheckingReceipts({H(2)}, true, true, true), r);
    assert {H(1), H(2)} - {H(1)} == {H(2)};
    Push(CFG, TxOf, start, moves, l1, Before(), CheckedMined(H(1), failed), l2);
    moves := moves + [Work(K, CheckedMined(H(1), failed))];
    var l3 := At(r, ReviewingNonce(false), r);
    assert {H(2)} - {H(2)} == {};
    Push(CFG, TxOf, start, moves, l2, Before(), CheckedMined(H(2), CheckFailed), l3);
    moves := moves + [Work(K, CheckedMined(H(2), CheckFailed))];
  }

  /** The sender has no Created row, so L1 names the nonce; it is raised. */
  lemma ErrorRaisesNonce() returns (moves: seq<Move>)
    ensures Run(CFG, TxOf, Only(First(), Before()), moves)
    ensures After(CFG, Only(First(), Before()), moves) ==
            Only(At(Record(2, {H(1), H(2)}, 2), EstimatingGas, Record(2, {H(1), H(2)}, 2)), Before())
  {
    hide H, First, Before, Run, After;
    moves := ErrorEntersReview();
    var r, r', start := Record(1, {H(1), H(2)}, 2), Record(2, {H(1), H(2)}, 2), Only(First(), Before());
    var l1, l2 := At(r, ReviewingNonce(false), r), At(r, AskingPending(false), r);
    Push(CFG, TxOf, start, moves, l1, Before(), ReadCreated(Ok(None)), l2);
    moves := moves + [Work(K, ReadCreated(Ok(None)))];
    var l3 := At(r, SavingNonce(false), r');
    Push(CFG, TxOf, start, moves, l2, Before(), ReadPending(Ok(2)), l3);
    moves := moves + [Work(K, ReadPending(Ok(2)))];
    var l4 := At(r', EstimatingGas, r');
    Push(CFG, TxOf, start, moves, l3, Before(), Wrote(Stored), l4);
    moves := moves + [Work(K, Wrote(Stored))];
  }

  lemma FeesReviewed() returns (moves: seq<Move>)
    ensures Run(CFG, TxOf, Only(First(), Before()), moves)
    ensures After(CFG, Only(First(), Before()), moves) ==
            Only(At(Record(2, {H(1), H(2)}, 2), Signing, Record(2, {H(1), H(2)}, 2)), Before())
  {
    hide H, First, Before, Run, After, GasPrice.Adjusted;
    PriceStays();
    moves := ErrorRaisesNonce();
    var r, start := Record(2, {H(1), H(2)}, 2), Only(First(), Before());
    var l1, l2 := At(r, EstimatingGas, r), At(r, SuggestingPrice, r);
    Push(CFG, TxOf, start, moves, l1, Before(), EstimatedGas(Ok(21000)), l2);
    moves := moves + [Work(K, EstimatedGas(Ok(21000)))];
    var l3 := At(r, SavingReview, r);
    Push(CFG, TxOf, start, moves, l2, Before(), SuggestedPrice(Ok(0)), l3);
    moves := moves + [Work(K, SuggestedPrice(Ok(0)))];
    var l4 := At(r, Signing, r);
    Push(CFG, TxOf, start, moves, l3, Before(), Wrote(Stored), l4);
    moves := moves + [Work(K, Wrote(Stored))];
  }

  /** The replacement is signed with the new nonce and recorded. */
  lemma ReplacementRecorded() returns (moves: seq<Move>)
    ensures Run(CFG, TxOf, Only(First(), Before()), moves)
    ensures
      var r := Record(2, {H(1), H(2), H(3)}, 3);
      After(CFG, Only(First(), Before()), moves) == Only(At(r, LookingUp(H(3)), r), Before())
  {
    hide H, First, Before, Run, After, GasPrice.Adjusted;
    Distinct();
    moves := FeesReviewed();
    var start := Only(First(), Before());
    var r, r' := Record(2, {H(1), H(2)}, 2), Record(2, {H(1), H(2), H(3)}, 3);
    var l1 := At(r, Signing, r);
    var l2 := At(r, SavingHistory(H(3)), r');
    assert {H(1), H(2)} + {H(3)} == {H(1), H(2), H(3)};
    Push(CFG, TxOf, start, moves, l1, Before(), Signed(Ok(H(3))), l2);
    moves := moves + [Work(K, Signed(Ok(H(3))))];
    Push(CFG, TxOf, start, moves, l2, Before(), Wrote(Stored), At(r', LookingUp(H(3)), r'));
    moves := moves + [Work(K, Wrote(Stored))];
  }

  /** L1 does not know the replacement yet and accepts it. */
  lemma ReplacementSent() returns (moves: seq<Move>, l: Lane)
    ensures Run(CFG, TxOf, Only(First(), Before()), moves)
    ensures After(CFG, Only(First(), Before()), moves) == Only(l, Before())
    ensures l.row.history == {H(1), H(2), H(3)} && H(2) in l.accepted && H(3) in l.accepted
  {
    hide H, First, Before, Run, After;
    moves := ReplacementRecorded();
    var r, start := Record(2, {H(1), H(2), H(3)}, 3), Only(First(), Before());
    var l1 := At(r, LookingUp(H(3)), r);
    var l2 := l1.(task := Some(Task(Sending(H(3)), r)), handed := l1.handed + {H(3)});
    Push(CFG, TxOf, start, moves, l1, Before(), LookedUp(NotFound), l2);
    moves := moves + [Work(K, LookedUp(NotFound))];
    l := l2.(task := Some(Task(AwaitingMined(H(3)), r)), accepted := l2.accepted + {H(3)});
    Push(CFG, TxOf, start, moves, l2, Before(), SentOut(true), l);
    moves := moves + [Work(K, SentOut(true))];
  }

  /** Without the hypothesis on receipt checks `AtMostOnceTheorem` fails: one unreadable receipt of a pending
      transaction, and two transactions of the same record, both sent, are mined successfully. */
  lemma TwoSuccesses() returns (moves: seq<Move>)
    ensures Sound(CFG, TxOf, Only(First(), Before())) && Careful(TxOf, Only(First(), Before()))
    ensures Counted(CFG, Only(First(), Before()))
    ensures Run(CFG, TxOf, Only(First(), Before()), moves)
    ensures
      var w := After(CFG, Only(First(), Before()), moves);
      && K in w.lanes && {H(2), H(3)} <= w.Table()[K].history && {H(2), H(3)} <= w.lanes[K].accepted
      && Succeeded(w.chain, H(2)) && Succeeded(w.chain, H(3)) && H(2) != H(3)
  {
    hide H, First, Sound, Careful, Counted, Run, After;
    Distinct();
    FirstFine(CFG, TxOf, Before());
    var sent, l := ReplacementSent();
    assert Extends(Before(), Later()) && OnePerNonce(TxOf, Later());
    RunSnoc(CFG, TxOf, Only(First(), Before()), sent, Advance(Later()));
    moves := sent + [Advance(Later())];
  }

  // ----- A success from the retry limit on

  /** Two attempts, a limit of two retries, and the second attempt succeeds: the cycle sees it, and marks the
      record Failed. */
  lemma FailedDespiteSuccess() returns (moves: seq<Move>)
    ensures Sound(TWICE, TxOf, Only(First(), Mid())) && Careful(TxOf, Only(First(), Mid()))
    ensures Counted(TWICE, Only(First(), Mid()))
    ensures Run(TWICE, TxOf, Only(First(), Mid()), moves)
    ensures Work(K, CheckedMined(H(2), Mined(Receipt(true, 11)))) in moves
    ensures
      var w := After(TWICE, Only(First(), Mid()), moves);
      && K in w.lanes && w.Table()[K].status == Failed
      && H(2) in w.Table()[K].history && Succeeded(w.chain, H(2)) && w.chain.mined[H(2)].block <= w.chain.head
  {
    hide H, First, Sound, Careful, Counted, Run, After;
    Distinct();
    FirstFine(TWICE, TxOf, Mid());
    var r, start := Record(1, {H(1), H(2)}, 2), Only(First(), Mid());
    var begun := CycleBegins(TWICE, TxOf, Mid());
    var l1 := At(r, CheckingReceipts({H(1), H(2)}, false, true, true), r);
    var saw, failed := CheckedMined(H(2), Mined(Receipt(true, 11))), r.(status := Failed);
    var l2 := At(r, SavingExhausted, failed);
    Push(TWICE, TxOf, start, begun, l1, Mid(), saw, l2);
    Push(TWICE, TxOf, start, begun + [Work(K, saw)], l2, Mid(), Wrote(Stored), At(failed, Finished, failed));
    moves := begun + [Work(K, saw)] + [Work(K, Wrote(Stored))];
    assert moves[|begun|] == Work(K, saw);
  }

  // ----- A price of more than 64 bits

  /** The transaction signed at the full price of 2^64. */
  function Pricy(h: Hash): LegacyTx {
    if h == H(3) then LegacyTx(None, 1, Some(0), None, 21000, 0x1_0000_0000_0000_0000) else TxOf(h)
  }

  lemma FullPriceStays()
    ensures GasPrice.Adjusted(CFG.margin, CFG.maxGasPriceLimit, 0x1_0000_0000_0000_0000) == 0x1_0000_0000_0000_0000
  {
    assert GasPrice.Pow2(4) == 16;
    GasPrice.Pow2Add(4, 4);
    GasPrice.Pow2Add(8, 4);
    GasPrice.RoundExact(0x10_0000_0000_0000, 12);
    GasPrice.OneShift(CFG.margin, 0x1_0000_0000_0000_0000);
  }

  /** The first attempt reverted, the second is still out, and the fees are reviewed. */
  lemma FeesDue() returns (moves: seq<Move>)
    ensures Run(CFG, Pricy, Only(First(), Before()), moves)
    ensures
      var r := Record(1, {H(1), H(2)}, 2);
      After(CFG, Only(First(), Before()), moves) == Only(At(r, EstimatingGas, r), Before())
  {
    hide H, First, Run, After;
    Distinct();
    moves := CycleBegins(CFG, Pricy, Before());
    var r, start, failed := Record(1, {H(1), H(2)}, 2), Only(First(), Before()), Mined(Receipt(false, 5));
    var l1 := At(r, CheckingReceipts({H(1), H(2)}, false, true, true), r);
    var l2 := At(r, CheckingReceipts({H(2)}, true, true, true), r);
    assert {H(1), H(2)} - {H(1)} == {H(2)};
    Push(CFG, Pricy, start, moves, l1, Before(), CheckedMined(H(1), failed), l2);
    moves := moves + [Work(K, CheckedMined(H(1), failed))];
    assert {H(2)} - {H(2)} == {};
    Push(CFG, Pricy, start, moves, l2, Before(), CheckedMined(H(2), NotMined), At(r, EstimatingGas, r));
    moves := moves + [Work(K, CheckedMined(H(2), NotMined))];
  }

  function AtFullPrice(): MonitoredTx {
    Record(1, {H(1), H(2)}, 2).(gasPrice := 0x1_0000_0000_0000_0000)
  }

  lemma PriceRaised() returns (moves: seq<Move>)
    ensures Run(CFG, Pricy, Only(First(), Before()), moves)
    ensures After(CFG, Only(First(), Before()), moves) ==
            Only(At(Record(1, {H(1), H(2)}, 2), Signing, AtFullPrice()), Before())
  {
    hide H, First, Before, Run, After, GasPrice.Adjusted;
    FullPriceStays();
    moves := FeesDue();
    var r, c, start := Record(1, {H(1), H(2)}, 2), AtFullPrice(), Only(First(), Before());
    var l1, l2, l3 := At(r, EstimatingGas, r), At(r, SuggestingPrice, r), At(r, SavingReview, c);
    Push(CFG, Pricy, start, moves, l1, Before(), EstimatedGas(Ok(21000)), l2);
    moves := moves + [Work(K, EstimatedGas(Ok(21000)))];
    Push(CFG, Pricy, start, moves, l2, Before(), SuggestedPrice(Ok(0x1_0000_0000_0000_0000)), l3);
    moves := moves + [Work(K, SuggestedPrice(Ok(0x1_0000_0000_0000_0000)))];
    Push(CFG, Pricy, start, moves, l3, Before(), Wrote(Stored), At(r, Signing, c));
    moves := moves + [Work(K, Wrote(Stored))];
  }

  /** Without a limit, `SignedMove` gives the price of the row up to its high bits only: with a suggestion of 2^64
      the row holds a price of 0 and the transaction is signed at 2^64. */
  lemma SignedAtFullPrice() returns (moves: seq<Move>)
    ensures Sound(CFG, Pricy, Only(First(), Before()))
    ensures Run(CFG, Pricy, Only(First(), Before()), moves + [Work(K, Signed(Ok(H(3))))])
    ensures
      var w := After(CFG, Only(First(), Before()), moves);
      K in w.lanes && w.Table()[K].gasPrice == 0 && Pricy(H(3)).gasPrice == 0x1_0000_0000_0000_0000
  {
    hide H, First, Before, Run, After, Sound, Persisted;
    Distinct();
    BeforeFine();
    moves := PriceRaised();
    var r, c := Record(1, {H(1), H(2)}, 2), AtFullPrice();
    var c' := c.(history := {H(1), H(2)} + {H(3)}, numRetries := 3);
    var l, l' := At(r, Signing, c), At(r, SavingHistory(H(3)), c');
    assert c.Tx() == Pricy(H(3));
    assert LaneNext(CFG, l, Signed(Ok(H(3)))) == l';
    Push(CFG, Pricy, Only(First(), Before()), moves, l, Before(), Signed(Ok(H(3))), l');
  }

  lemma BeforeFine()
    ensures Sound(CFG, Pricy, Only(First(), Before()))
  {
    hide H;
    Distinct();
    FirstFine(CFG, Pricy, Before());
  }

  // ----- Nonces read too early

  function Submitted(id: string, nonce: uint64): MonitoredTx {
    MonitoredTx("interop", id, SENDER, None, nonce, Some(0), None, 21000, 0, 0, Created, None, {}, 0)
  }

  /** Without atomic allocation `DistinctNonceTheorem` fails: two submissions that read the same table share a
      nonce. */
  lemma StaleNonceCollides(chain: Chain)
    requires OnePerNonce(TxOf, chain)
    ensures
      var moves := [Insert(Submitted("a", 7)), Insert(Submitted("b", 7))];
      && Sound(CFG, TxOf, Start(chain)) && Run(CFG, TxOf, Start(chain), moves)
      && Allocated(Start(chain).Table(), SENDER, 7)
      && !DistinctCreated(After(CFG, Start(chain), moves).Table())
  {
    PriceStays();
    hide GasPrice.Adjusted, Run, After;
    assert "a"[0] != "b"[0];
    assert Suggested(CFG, 0);
    assert CreatedNonces(Start(chain).Table(), SENDER) == {};
    assert NextNonce(Start(chain).Table(), SENDER, Ok(7)) == Ok(7);
    StaleNoncesIff(CFG, TxOf, Start(chain), Submitted("a", 7), Submitted("b", 7), Ok(7), Ok(7));
  }

  // ----- Schedules matter once nonces are reviewed

  const A: Key := Key("interop", "a")
  const B: Key := Key("interop", "b")

  /** A record whose only attempt, made with its current nonce, reverted. */
  function Tried(id: string, nonce: uint64, status: Status, h: Hash): MonitoredTx {
    Submitted(id, nonce).(status := status, history := {h}, numRetries := 1)
  }

  function Waiting(m: MonitoredTx): Lane {
    Lane(m, None, m.history, m.history, 0)
  }

  function Reviewing(m: MonitoredTx): Lane {
    Waiting(m).(task := Some(Task(ReviewingNonce(true), m)))
  }

  function Loading(m: MonitoredTx): Lane {
    Waiting(m).(task := Some(Task(CheckingReceipts(m.history, false, true, true), m)))
  }

  /** The first record is still Created because the write to Sent failed. */
  function RecordA(): MonitoredTx {
    Tried("a", 0, Created, H(1))
  }

  function RecordB(): MonitoredTx {
    Tried("b", 1, Sent, H(2))
  }

  function Pair(a: Lane, b: Lane): World {
    World(map[A := a, B := b], Chain(map[H(1) := Receipt(false, 5), H(2) := Receipt(false, 6)], 10))
  }

  lemma WaitingFine(m: MonitoredTx, k: Key, h: Hash)
    requires m == Tried(k.id, TxOf(h).nonce, m.status, h) && m.status in {Created, Sent} && k.owner == "interop"
    requires Reverted(Pair(Waiting(m), Waiting(m)).chain, h)
    ensures
      var chain := Pair(Waiting(m), Waiting(m)).chain;
      && LaneOk(CFG, TxOf, chain, k, Waiting(m)) && NonceCareful(TxOf, chain, Waiting(m))
      && RetriesCounted(CFG, Waiting(m))
  {
    hide H;
    assert Attempt(TxOf, m, h) by {
      assert WithOffset(m.gas, m.gasOffset, TxOf(h).gas);
    }
    assert h in Waiting(m).accepted;
  }

  lemma PairFine()
    ensures
      var w := Pair(Waiting(RecordA()), Waiting(RecordB()));
      Sound(CFG, TxOf, w) && Careful(TxOf, w) && Counted(CFG, w)
  {
    hide LaneOk, NonceCareful, RetriesCounted, H;
    Distinct();
    assert "a"[0] != "b"[0] && A != B;
    WaitingFine(RecordA(), A, H(1));
    WaitingFine(RecordB(), B, H(2));
    var chain := Pair(Waiting(RecordA()), Waiting(RecordB())).chain;
    assert OnePerNonce(TxOf, chain);
  }

  /** The receipt of the only attempt is read. */
  lemma ReceiptRead(w: World, k: Key, m: MonitoredTx, h: Hash)
    requires k in w.lanes && w.lanes[k] == Loading(m) && m.history == {h} && Reverted(w.chain, h)
    ensures
      var move := Work(k, CheckedMined(h, Mined(w.chain.mined[h])));
      && Allowed(CFG, TxOf, w, move)
      && Apply(CFG, w, move) == w.(lanes := w.lanes[k := Reviewing(m)])
  {
    hide H;
    assert {h} - {h} == {};
  }

  /** The cycle begins. */
  lemma BothLoad(a: MonitoredTx, b: MonitoredTx)
    requires Watched(a.status) && Watched(b.status) && a.history != {} && b.history != {}
    requires a.numRetries == 1 == b.numRetries
    ensures
      var w := Pair(Waiting(a), Waiting(b));
      && Run(CFG, TxOf, w, [BeginCycle])
      && After(CFG, w, [BeginCycle]) == Pair(Loading(a), Loading(b))
  {
    hide Run, After, Watched, AfterReceipts;
    var w := Pair(Waiting(a), Waiting(b));
    NoMoves(CFG, TxOf, w);
    RunSnoc(CFG, TxOf, w, [], BeginCycle);
    assert [] + [BeginCycle] == [BeginCycle];
    assert Opened(CFG, Waiting(a)) == Loading(a) && Opened(CFG, Waiting(b)) == Loading(b);
    assert Apply(CFG, w, BeginCycle).lanes == Pair(Loading(a), Loading(b)).lanes;
  }

  /** Then both goroutines read the receipt of the one attempt of their record. */
  lemma BothReview() returns (moves: seq<Move>)
    ensures Run(CFG, TxOf, Pair(Waiting(RecordA()), Waiting(RecordB())), moves)
    ensures After(CFG, Pair(Waiting(RecordA()), Waiting(RecordB())), moves) ==
            Pair(Reviewing(RecordA()), Reviewing(RecordB()))
  {
    hide H, Run, After, Allowed, Apply, Loading, Reviewing, Waiting;
    Distinct();
    assert "a"[0] != "b"[0] && A != B;
    var a, b := RecordA(), RecordB();
    var w := Pair(Waiting(a), Waiting(b));
    var failed1, failed2 := CheckedMined(H(1), Mined(Receipt(false, 5))), CheckedMined(H(2), Mined(Receipt(false, 6)));
    BothLoad(a, b);
    ReceiptRead(Pair(Loading(a), Loading(b)), A, a, H(1));
    assert Pair(Loading(a), Loading(b)).lanes[A := Reviewing(a)] == Pair(Reviewing(a), Loading(b)).lanes;
    RunSnoc(CFG, TxOf, w, [BeginCycle], Work(A, failed1));
    ReceiptRead(Pair(Reviewing(a), Loading(b)), B, b, H(2));
    assert Pair(Reviewing(a), Loading(b)).lanes[B := Reviewing(b)] == Pair(Reviewing(a), Reviewing(b)).lanes;
    RunSnoc(CFG, TxOf, w, [BeginCycle] + [Work(A, failed1)], Work(B, failed2));
    moves := [BeginCycle] + [Work(A, failed1)] + [Work(B, failed2)];
  }

  lemma Clashes()
    ensures
      var w := Pair(Reviewing(RecordA()), Reviewing(RecordB()));
      AtReview(w, A) && AtReview(w, B) && A != B && NoncesClear(w.Table()) && Clash(w.Table(), A, B)
  {
    hide H;
    assert "a"[0] != "b"[0] && A != B;
    var table := Pair(Reviewing(RecordA()), Reviewing(RecordB())).Table();
    assert table[A] == RecordA() && table[B] == RecordB();
    assert table[A].nonce in CreatedNonces(table, SENDER);
    HighestIs(table, SENDER, 0);
  }

  /** Without the hypothesis on nonce reviews `InterleavingTheorem` fails: from one and the same start, two
      goroutines of a cycle that both review their nonce, with the same answers of L1, leave different tables in
      different orders. */
  lemma ReviewOrderMatters(p: Result<uint64>, q: Result<uint64>)
    returns (before: seq<Move>, ab: seq<Move>, ba: seq<Move>)
    ensures
      var w := Pair(Waiting(RecordA()), Waiting(RecordB()));
      var w' := Pair(Reviewing(RecordA()), Reviewing(RecordB()));
      var table := w'.Table();
      && Sound(CFG, TxOf, w) && Careful(TxOf, w) && Counted(CFG, w)
      && A in table && B in table
      && Run(CFG, TxOf, w, before) && After(CFG, w, before) == w'
      && ab == ReviewMoves(table, A, p) + ReviewMoves(Reviewed(table, A, p), B, q)
      && ba == ReviewMoves(table, B, q) + ReviewMoves(Reviewed(table, B, q), A, p)
      && Run(CFG, TxOf, w, before + ab) && Run(CFG, TxOf, w, before + ba)
      && After(CFG, w, before + ab).Table() != After(CFG, w, before + ba).Table()
  {
    hide Run, After, ReviewMoves, Sound, Careful, Counted, AtReview, NoncesClear, Clash, NextNonce, Raised;
    hide H, RecordA, RecordB;
    PairFine();
    Clashes();
    before := BothReview();
    var w := Pair(Waiting(RecordA()), Waiting(RecordB()));
    var w' := Pair(Reviewing(RecordA()), Reviewing(RecordB()));
    TableHas(w', A);
    TableHas(w', B);
    ReviewOrderTheorem(CFG, TxOf, w', A, B, p, q);
    ab := ReviewMoves(w'.Table(), A, p) + ReviewMoves(Reviewed(w'.Table(), A, p), B, q);
    ba := ReviewMoves(w'.Table(), B, q) + ReviewMoves(Reviewed(w'.Table(), B, q), A, p);
    RunConcat(CFG, TxOf, w, before, ab);
    RunConcat(CFG, TxOf, w, before, ba);
  }

  lemma TableHas(w: World, k: Key)
    requires AtReview(w, k)
    ensures k in w.Table()
  {
  }
}
