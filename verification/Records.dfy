/** Monitored transactions: txmanager/types/monitoredtx.go. */
module Records {
  import opened Basics

  datatype Status = Created | Sent | Failed | Confirmed | Reorged | Done

  /** `GetByStatus` in a monitoring cycle selects these statuses. */
  predicate Watched(s: Status) {
    s == Created || s == Sent || s == Reorged
  }

  /** Primary key of `state.monitored_txs`. */
  datatype Key = Key(owner: string, id: string)

  /** `value`, `gasPrice` and `blockNumber` are `big.Int`s and unbounded in memory. The history
      is the key set of the Go map; a nil map and an empty one are the same set. */
  datatype MonitoredTx = MonitoredTx(
    owner: string,
    id: string,
    from: Address,
    to: Option<Address>,
    nonce: uint64,
    value: Option<nat>,
    data: Option<Bytes>,
    gas: uint64,
    gasOffset: uint64,
    gasPrice: nat,
    status: Status,
    blockNumber: Option<nat>,
    history: set<Hash>,
    numRetries: uint64)
  {
    function PrimaryKey(): Key {
      Key(owner, id)
    }

    /** The unsigned transaction built from the current fields. */
    function Tx(): LegacyTx {
      LegacyTx(to, nonce, value, data, GasLimit(gas, gasOffset), gasPrice)
    }
  }

  function GasLimit(gas: uint64, offset: uint64): uint64 {
    Low64(gas + offset)
  }

  datatype LegacyTx = LegacyTx(
    to: Option<Address>, nonce: uint64, value: Option<nat>, data: Option<Bytes>, gas: uint64, gasPrice: nat)

  /** A mined transaction's outcome. */
  datatype Receipt = Receipt(success: bool, block: nat)

  function Narrow(n: Option<nat>): Option<uint64> {
    match n
    case None => None
    case Some(v) => Some(Low64(v))
  }

  /** The record that is read back after writing `m`: the big integers keep their low 64 bits. */
  function Persisted(m: MonitoredTx): (p: MonitoredTx)
    ensures p.PrimaryKey() == m.PrimaryKey() && p.Tx().nonce == m.Tx().nonce
    ensures m.gasPrice < TWO_64 ==> p.gasPrice == m.gasPrice
  {
    m.(value := Narrow(m.value), gasPrice := Low64(m.gasPrice), blockNumber := Narrow(m.blockNumber))
  }

  /** `block_num` is a signed 64-bit column; every other number column is wide enough. */
  predicate Storable(m: MonitoredTx) {
    m.blockNumber.Some? ==> Low64(m.blockNumber.value) < TWO_63
  }

  /** A monitoring cycle takes a zero retry count for a record written before the column existed. */
  function Normalised(m: MonitoredTx): MonitoredTx {
    if m.numRetries == 0 then m.(numRetries := Low64(|m.history|)) else m
  }
}
