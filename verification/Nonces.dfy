/** `Client.getTxNonce` over a table: the nonce the next transaction of an account gets. */
module Nonces {
  import opened Basics
  import opened Records

  type Table = map<Key, MonitoredTx>

  predicate CreatedBy(from: Address, r: MonitoredTx) {
    r.from == from && r.status == Created
  }

  function CreatedNonces(table: Table, from: Address): set<uint64> {
    set k | k in table && CreatedBy(from, table[k]) :: table[k].nonce
  }

  ghost predicate IsMax(ns: set<uint64>, x: uint64) {
    x in ns && forall n | n in ns :: n <= x
  }

  ghost function Max(ns: set<uint64>): (x: uint64)
    requires ns != {}
    ensures IsMax(ns, x)
  {
    var n :| n in ns;
    if ns == {n} then n
    else
      var rest := ns - {n};
      assert ns == rest + {n};
      var x := Max(rest);
      if n > x then n else x
  }

  /** The largest nonce of the account's Created rows, if it has any. */
  ghost function Highest(table: Table, from: Address): Option<uint64> {
    var ns := CreatedNonces(table, from);
    if ns == {} then None else Some(Max(ns))
  }

  /** One past the largest nonce of the account's Created rows, else the pending nonce of L1. */
  ghost function NextNonce(table: Table, from: Address, pending: Result<uint64>): Result<uint64> {
    match Highest(table, from)
    case None => pending
    case Some(n) => Ok(Increment(n))
  }

  /** `r` is the nonce for the account on this table, if L1 names `pending`: without a Created row of the account
      what L1 names, else one more than the nonce of a Created row of the account that no other one exceeds. */
  ghost predicate NonceGiven(table: Table, from: Address, pending: Result<uint64>, r: Result<uint64>) {
    if forall k | k in table :: !(table[k].status == Created && table[k].from == from) then r == pending
    else exists j | j in table && table[j].status == Created && table[j].from == from ::
           && r == Ok((table[j].nonce + 1) % TWO_64)
           && forall k | k in table && table[k].status == Created && table[k].from == from ::
                table[k].nonce <= table[j].nonce
  }

  lemma NextNonceMeaning(table: Table, from: Address, pending: Result<uint64>)
    ensures NonceGiven(table, from, pending, NextNonce(table, from, pending))
  {
    HighestMeaning(table, from);
  }

  lemma HighestMeaning(table: Table, from: Address)
    ensures
      match Highest(table, from)
      case None => forall k | k in table :: !(table[k].status == Created && table[k].from == from)
      case Some(n) =>
        exists j | j in table && table[j].status == Created && table[j].from == from ::
          && table[j].nonce == n
          && forall k | k in table && table[k].status == Created && table[k].from == from :: table[k].nonce <= n
  {
    var ns := CreatedNonces(table, from);
    forall k | k in table && CreatedBy(from, table[k]) ensures table[k].nonce in ns {
    }
    if ns != {} {
      var x := Max(ns);
      var j :| j in table && CreatedBy(from, table[j]) && table[j].nonce == x;
    }
  }

  ghost predicate DistinctCreated(table: Table) {
    forall j, k | j in table && k in table && j != k && table[j].status == Created && table[k].status == Created ::
      table[j].from == table[k].from ==> table[j].nonce != table[k].nonce
  }

  /** An allocated nonce exceeds that of every Created row unless 64 bits overflow. */
  lemma NextNonceExceeds(table: Table, from: Address, pending: Result<uint64>, k: Key)
    requires k in table && CreatedBy(from, table[k])
    requires NoncesBelowMax(table)
    ensures NextNonce(table, from, pending).Ok? && NextNonce(table, from, pending).value > table[k].nonce
  {
    var ns := CreatedNonces(table, from);
    assert table[k].nonce in ns;
    var x := Max(ns);
    var j :| j in table && CreatedBy(from, table[j]) && table[j].nonce == x;
  }

  predicate NoncesBelowMax(table: Table) {
    forall k | k in table :: table[k].nonce < TWO_64 - 1
  }

  /** `n` is what `getTxNonce` returns for the account on this table. */
  ghost predicate Allocated(table: Table, from: Address, n: uint64) {
    exists pending :: NextNonce(table, from, pending) == Ok(n)
  }

  /** Writing one row keeps Created nonces distinct if the row leaves Created, keeps its nonce, or
      carries a nonce allocated on this very table. */
  lemma DistinctUpdate(table: Table, k: Key, r: MonitoredTx)
    requires DistinctCreated(table) && NoncesBelowMax(table)
    requires k in table && r.status == Created && r.nonce == table[k].nonce ==>
               table[k].status == Created && table[k].from == r.from
    requires r.status == Created && (k !in table || r.nonce != table[k].nonce) ==> Allocated(table, r.from, r.nonce)
    ensures DistinctCreated(table[k := r])
  {
    forall j | j in table && j != k && r.status == Created && CreatedBy(r.from, table[j])
      ensures table[j].nonce != r.nonce
    {
      if k !in table || r.nonce != table[k].nonce {
        var pending :| NextNonce(table, r.from, pending) == Ok(r.nonce);
        NextNonceExceeds(table, r.from, pending, j);
      }
    }
  }

  /** A new Created row keeps the nonces distinct exactly if no Created row of its sender has its nonce yet. */
  lemma DistinctInsertIff(table: Table, k: Key, r: MonitoredTx)
    requires DistinctCreated(table) && k !in table && r.status == Created
    ensures DistinctCreated(table[k := r]) <==> r.nonce !in CreatedNonces(table, r.from)
  {
    var table' := table[k := r];
    if r.nonce in CreatedNonces(table, r.from) {
      var j :| j in table && CreatedBy(r.from, table[j]) && table[j].nonce == r.nonce;
      assert j != k && table'[j] == table[j] && table'[k] == r;
    } else {
      forall j | j in table && CreatedBy(r.from, table[j]) ensures table[j].nonce != r.nonce {
        assert table[j].nonce in CreatedNonces(table, r.from);
      }
    }
  }

  lemma HighestIs(table: Table, from: Address, x: uint64)
    requires IsMax(CreatedNonces(table, from), x)
    ensures Highest(table, from) == Some(x)
  {
  }

  lemma NewNonces(table: Table, k: Key, r: MonitoredTx, from: Address)
    requires k !in table && r.status == Created
    ensures CreatedNonces(table[k := r], from) == CreatedNonces(table, from) + if r.from == from then {r.nonce} else {}
  {
    var table' := table[k := r];
    forall n | n in CreatedNonces(table, from) ensures n in CreatedNonces(table', from) {
      var j :| j in table && CreatedBy(from, table[j]) && table[j].nonce == n;
      assert table'[j] == table[j];
    }
    if r.from == from {
      assert table'[k].nonce in CreatedNonces(table', from);
    }
  }
}
