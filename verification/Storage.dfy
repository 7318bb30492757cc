/** The table `state.monitored_txs` and its row codec: txmanager/pgstorage.go and the converters of
    txmanager/types/monitoredtx.go. */
module Storage {
  import opened Basics
  import opened Records
  import opened Hex
  import opened Nonces
  import opened Monitor

  /** Column values. Time stamps are not modelled. */
  datatype Row = Row(
    owner: string,
    id: string,
    fromAddr: Bytes,
    toAddr: Option<Bytes>,
    nonce: uint64,
    value: Option<uint64>,
    data: Option<Bytes>,
    gas: uint64,
    gasOffset: uint64,
    gasPrice: uint64,
    status: Status,
    blockNum: Option<uint64>,
    history: seq<Bytes>,
    numRetries: uint64)

  /** Which digits of an address EIP-55 writes in upper case (a function of its Keccak-256 hash). */
  type Checksum = (Address, nat) -> bool

  function Cased(c: Byte, upper: bool): (r: Byte)
    ensures IsHex(c) ==> IsHex(r) && Nibble(r) == Nibble(c)
  {
    if upper && 97 <= c <= 102 then c - 32 else c
  }

  function CasedText(d: Bytes, upper: nat -> bool): (s: Bytes)
    requires AllLowerHex(d)
    ensures SameNibbles(s, d)
  {
    if d == [] then []
    else CasedText(d[..|d| - 1], upper) + [Cased(d[|d| - 1], upper(|d| - 1))]
  }

  function AddressDigits(checksum: Checksum, a: Address): (s: Bytes)
    ensures SameNibbles(s, Encode(a.bytes))
  {
    CasedText(Encode(a.bytes), (i: nat) => checksum(a, i))
  }

  /** `Address.String`. */
  function AddressText(checksum: Checksum, a: Address): (s: Bytes)
    ensures HexToAddress(s) == a
  {
    AddressRoundTrip(a, AddressDigits(checksum, a));
    PREFIX + AddressDigits(checksum, a)
  }

  /** The texts of a set of hashes, in some order. */
  ghost predicate Lists(texts: seq<Bytes>, hs: set<Hash>) {
    && |texts| == |hs|
    && (forall h | h in hs :: HashText(h) in texts)
    && (forall t | t in texts :: exists h :: h in hs && t == HashText(h))
  }

  /** `HistoryStringSlice`: the order is that of a Go map iteration, which is arbitrary. */
  method HistoryStringSlice(history: set<Hash>) returns (texts: seq<Bytes>)
    ensures Lists(texts, history)
  {
    hide HashText;
    texts := [];
    var rest := history;
    while rest != {}
      invariant rest <= history && Lists(texts, history - rest)
      decreases rest
    {
      var h :| h in rest;
      assert history - (rest - {h}) == history - rest + {h};
      texts := texts + [HashText(h)];
      rest := rest - {h};
    }
    assert history - rest == history;
  }

  /** What `Add` and `Update` bind to the columns. */
  function Columns(checksum: Checksum, m: MonitoredTx, texts: seq<Bytes>): Row {
    Row(m.owner, m.id, AddressText(checksum, m.from),
        if m.to.Some? then Some(AddressText(checksum, m.to.value)) else None,
        m.nonce, Narrow(m.value),
        if m.data.Some? then Some(Encode(m.data.value)) else None,
        m.gas, m.gasOffset, Low64(m.gasPrice), m.status, Narrow(m.blockNumber), texts, m.numRetries)
  }

  /** What the row of a record holds, column by column. */
  ghost predicate Holds(checksum: Checksum, row: Row, m: MonitoredTx) {
    && row.owner == m.owner && row.id == m.id && row.nonce == m.nonce
    && row.gas == m.gas && row.gasOffset == m.gasOffset && row.gasPrice == m.gasPrice % TWO_64
    && row.status == m.status && row.numRetries == m.numRetries
    && (row.value.Some? <==> m.value.Some?) && (row.value.Some? ==> row.value.value == m.value.value % TWO_64)
    && (row.blockNum.Some? <==> m.blockNumber.Some?)
    && (row.blockNum.Some? ==> row.blockNum.value == m.blockNumber.value % TWO_64)
    && (row.data.Some? <==> m.data.Some?) && (row.data.Some? ==> row.data.value == Encode(m.data.value))
    && row.fromAddr == AddressText(checksum, m.from)
    && (row.toAddr.Some? <==> m.to.Some?)
    && (row.toAddr.Some? ==> row.toAddr.value == AddressText(checksum, m.to.value))
    && Lists(row.history, m.history)
  }

  lemma ColumnsHold(checksum: Checksum, m: MonitoredTx, texts: seq<Bytes>)
    requires Lists(texts, m.history)
    ensures Holds(checksum, Columns(checksum, m, texts), m)
    ensures Columns(checksum, m, texts).fromAddr == AddressText(checksum, m.from)
  {
    hide Lists, AddressText, Encode;
  }

  function Hashes(texts: seq<Bytes>): set<Hash> {
    set t | t in texts :: HexToHash(t)
  }

  /** What a scanned row means; data that is not hexadecimal is an error. */
  function Scanned(row: Row): Result<MonitoredTx> {
    var data := if row.data.Some? then Decode(row.data.value) else Ok([]);
    if data.Err? then Err
    else Ok(MonitoredTx(row.owner, row.id, HexToAddress(row.fromAddr),
                        if row.toAddr.Some? then Some(HexToAddress(row.toAddr.value)) else None,
                        row.nonce,
                        if row.value.Some? then Some(row.value.value) else None,
                        if row.data.Some? then Some(data.value) else None,
                        row.gas, row.gasOffset, row.gasPrice, row.status,
                        if row.blockNum.Some? then Some(row.blockNum.value) else None,
                        Hashes(row.history), row.numRetries))
  }

  /** `scanMtx`: each field is read from its own column. */
  method ScanMtx(row: Row) returns (r: Result<MonitoredTx>)
    ensures r == Scanned(row)
    ensures r.Err? <==> row.data.Some? && Decode(row.data.value).Err?
    ensures r.Ok? ==>
              var m := r.value;
              && m.owner == row.owner && m.id == row.id && m.nonce == row.nonce
              && m.gas == row.gas && m.gasOffset == row.gasOffset && m.gasPrice == row.gasPrice
              && m.status == row.status && m.numRetries == row.numRetries
              && (m.value.Some? <==> row.value.Some?) && (m.value.Some? ==> m.value.value == row.value.value)
              && (m.blockNumber.Some? <==> row.blockNum.Some?)
              && (m.blockNumber.Some? ==> m.blockNumber.value == row.blockNum.value)
              && (m.data.Some? <==> row.data.Some?) && (m.data.Some? ==> Ok(m.data.value) == Decode(row.data.value))
              && m.from == HexToAddress(row.fromAddr)
              && (m.to.Some? <==> row.toAddr.Some?) && (m.to.Some? ==> m.to.value == HexToAddress(row.toAddr.value))
              && (forall t | t in row.history :: HexToHash(t) in m.history)
              && (forall h | h in m.history :: exists t | t in row.history :: HexToHash(t) == h)
  {
    var data: Option<Bytes> := None;
    if row.data.Some? {
      var bytes := Decode(row.data.value);
      if bytes.Err? {
        return Err;
      }
      data := Some(bytes.value);
    }
    var to := None;
    if row.toAddr.Some? {
      to := Some(HexToAddress(row.toAddr.value));
    }
    var value := None;
    if row.value.Some? {
      value := Some(row.value.value);
    }
    var blockNumber := None;
    if row.blockNum.Some? {
      blockNumber := Some(row.blockNum.value);
    }
    var history: set<Hash> := {};
    for i := 0 to |row.history|
      invariant history == Hashes(row.history[..i])
    {
      assert row.history[..i + 1] == row.history[..i] + [row.history[i]];
      history := history + {HexToHash(row.history[i])};
    }
    assert row.history[..|row.history|] == row.history;
    return Ok(MonitoredTx(row.owner, row.id, HexToAddress(row.fromAddr), to, row.nonce, value, data, row.gas,
                          row.gasOffset, row.gasPrice, row.status, blockNumber, history, row.numRetries));
  }

  lemma HashesOfList(texts: seq<Bytes>, hs: set<Hash>)
    requires Lists(texts, hs)
    ensures Hashes(texts) == hs
  {
    hide HashText, HexToHash;
    forall h | h in hs ensures h in Hashes(texts) {
      HashRoundTrip(h);
      assert HashText(h) in texts;
    }
    forall h | h in Hashes(texts) ensures h in hs {
      var t :| t in texts && HexToHash(t) == h;
      var g :| g in hs && t == HashText(g);
      HashRoundTrip(g);
    }
  }

  /** Reading back what was written gives the record with its big integers narrowed to 64 bits: absent and
      empty data stay apart, the history is equal as a set and mixed-case addresses are exact. */
  lemma RowRoundTrip(checksum: Checksum, m: MonitoredTx, texts: seq<Bytes>)
    requires Lists(texts, m.history)
    ensures Scanned(Columns(checksum, m, texts)) == Ok(Persisted(m))
    ensures
      var p := Persisted(m);
      && p == m.(value := p.value, gasPrice := m.gasPrice % TWO_64, blockNumber := p.blockNumber)
      && (p.value.Some? <==> m.value.Some?) && (p.value.Some? ==> p.value.value == m.value.value % TWO_64)
      && (p.blockNumber.Some? <==> m.blockNumber.Some?)
      && (p.blockNumber.Some? ==> p.blockNumber.value == m.blockNumber.value % TWO_64)
  {
    hide Lists, Hashes, AddressText, HexToAddress, Encode, Decode;
    HashesOfList(texts, m.history);
    if m.data.Some? {
      DecodeEncode(m.data.value);
    }
  }

  predicate Fits64(m: MonitoredTx) {
    && m.gasPrice < TWO_64
    && (m.value.Some? ==> m.value.value < TWO_64)
    && (m.blockNumber.Some? ==> m.blockNumber.value < TWO_64)
  }

  /** The record itself comes back exactly when its big integers fit 64 bits. */
  lemma RowRoundTripIff(checksum: Checksum, m: MonitoredTx, texts: seq<Bytes>)
    requires Lists(texts, m.history)
    ensures Scanned(Columns(checksum, m, texts)) == Ok(m) <==> Fits64(m)
  {
    hide Lists, Scanned, Columns;
    RowRoundTrip(checksum, m, texts);
  }

  /** The records of `keys`, each once; their order is not modelled. */
  ghost predicate Selects(table: Table, keys: set<Key>, ms: seq<MonitoredTx>) {
    && keys <= table.Keys
    && (forall i, j | 0 <= i < j < |ms| :: ms[i].PrimaryKey() != ms[j].PrimaryKey())
    && (forall m | m in ms :: m.PrimaryKey() in keys && table[m.PrimaryKey()] == m)
    && (forall k | k in keys :: table[k] in ms && table[k].PrimaryKey() == k)
  }

  /** The filters of the queries: no owner and an empty list of statuses do not filter. */
  predicate HasStatus(status: Status, statuses: set<Status>) {
    statuses != {} ==> status in statuses
  }

  predicate OwnedBy(k: Key, owner: Option<string>) {
    owner.Some? ==> k.owner == owner.value
  }

  function WithStatus(table: Table, owner: Option<string>, statuses: set<Status>): set<Key> {
    set k | k in table && OwnedBy(k, owner) && HasStatus(table[k].status, statuses)
  }

  function FromSender(table: Table, sender: Address, statuses: set<Status>): set<Key> {
    set k | k in table && table[k].from == sender && HasStatus(table[k].status, statuses)
  }

  lemma SelectsNone(table: Table)
    ensures Selects(table, {}, [])
  {
  }

  lemma SelectsMore(table: Table, keys: set<Key>, ms: seq<MonitoredTx>, k: Key)
    requires Selects(table, keys, ms) && k in table && k !in keys && table[k].PrimaryKey() == k
    ensures Selects(table, keys + {k}, ms + [table[k]])
  {
  }

  /** A query with no owner and no statuses selects all rows; an owner and statuses restrict it to theirs. */
  lemma StatusSelected(table: Table, owner: Option<string>, statuses: set<Status>, ms: seq<MonitoredTx>)
    requires Selects(table, WithStatus(table, owner, statuses), ms)
    requires forall k | k in table :: table[k].PrimaryKey() == k
    ensures forall k | k in table ::
              table[k] in ms <==>
                (owner.None? || k.owner == owner.value) && (statuses == {} || table[k].status in statuses)
  {
  }

  lemma SenderSelected(table: Table, sender: Address, statuses: set<Status>, ms: seq<MonitoredTx>)
    requires Selects(table, FromSender(table, sender, statuses), ms)
    requires forall k | k in table :: table[k].PrimaryKey() == k
    ensures forall k | k in table ::
              table[k] in ms <==> table[k].from == sender && (statuses == {} || table[k].status in statuses)
  {
  }

  datatype AddAnswer = Added | AlreadyExists | AddFailed

  datatype GetAnswer = Got(mTx: MonitoredTx) | NoSuchRow | GetFailed

  /** `PostgresStorage`. `faults` and `outages` say, call by call, which writes and reads fail. */
  class PostgresStorage {
    var rows: map<Key, Row>
    var calls: nat
    const checksum: Checksum
    const faults: nat -> WriteAnswer
    const outages: nat -> bool

    constructor (checksum: Checksum, faults: nat -> WriteAnswer, outages: nat -> bool)
      ensures Valid() && Contents() == map[]
      ensures this.checksum == checksum && this.faults == faults && this.outages == outages
    {
      this.checksum, this.faults, this.outages := checksum, faults, outages;
      rows, calls := map[], 0;
    }

    /** Every row scans, to a record with the row's key and the sender its text column names. */
    ghost predicate Valid()
      reads `rows
    {
      forall k | k in rows ::
        && Scanned(rows[k]).Ok?
        && Scanned(rows[k]).value.PrimaryKey() == k
        && rows[k].fromAddr == AddressText(checksum, Scanned(rows[k]).value.from)
    }

    ghost function Contents(): (t: Table)
      requires Valid()
      reads `rows
      ensures t.Keys == rows.Keys
    {
      map k | k in rows :: Scanned(rows[k]).value
    }

    /** `Add`: the primary key admits one row per owner and id. */
    method Add(m: MonitoredTx) returns (r: AddAnswer)
      requires Valid()
      modifies this
      ensures Valid()
      ensures r == Added ==>
                && m.PrimaryKey() !in old(Contents())
                && Contents() == old(Contents())[m.PrimaryKey() := Persisted(m)]
                && m.PrimaryKey() in rows && Holds(checksum, rows[m.PrimaryKey()], m)
      ensures faults(old(calls)) == Stored && m.PrimaryKey() !in old(Contents())
              && (m.blockNumber.Some? ==> m.blockNumber.value % TWO_64 < TWO_63) ==>
                r == Added
      ensures m.blockNumber.Some? && m.blockNumber.value % TWO_64 >= TWO_63 ==>
                r == AddFailed && Contents() == old(Contents())
      ensures r == AlreadyExists ==> m.PrimaryKey() in old(Contents()) && Contents() == old(Contents())
      ensures r == AddFailed ==>
                || Contents() == old(Contents())
                || (m.PrimaryKey() !in old(Contents()) && Contents() == old(Contents())[m.PrimaryKey() := Persisted(m)])
    {
      hide Valid, Contents, Persisted;
      var fault := faults(calls);
      calls := calls + 1;
      if fault == Refused || !Storable(m) {
        return AddFailed;
      }
      if m.PrimaryKey() in rows {
        return AlreadyExists;
      }
      Put(m);
      r := if fault == Stored then Added else AddFailed;
    }

    /** Binds each field of the record to its own column. */
    method Put(m: MonitoredTx)
      requires Valid()
      modifies this`rows
      ensures Valid() && Contents() == old(Contents())[m.PrimaryKey() := Persisted(m)]
      ensures m.PrimaryKey() in rows && Holds(checksum, rows[m.PrimaryKey()], m)
    {
      hide Scanned, Lists, AddressText, Holds, Columns;
      var texts := HistoryStringSlice(m.history);
      ColumnsHold(checksum, m, texts);
      RowRoundTrip(checksum, m, texts);
      rows := rows[m.PrimaryKey() := Columns(checksum, m, texts)];
    }

    /** Rolls back to the rows as they were. */
    method Restore(snapshot: map<Key, Row>)
      modifies `rows
      ensures rows == snapshot
    {
      rows := snapshot;
    }

    /** `Update`: every column but the key is set where the key matches, and no row matching is no error. */
    method Update(m: MonitoredTx) returns (w: WriteAnswer)
      requires Valid()
      modifies this
      ensures Valid()
      ensures w == if m.blockNumber.Some? && m.blockNumber.value % TWO_64 >= TWO_63 then Refused
                   else faults(old(calls))
      ensures Contents() ==
              if w == Refused || m.PrimaryKey() !in old(Contents()) then old(Contents())
              else old(Contents())[m.PrimaryKey() := Persisted(m)]
      ensures w != Refused && m.PrimaryKey() in old(Contents()) ==>
                m.PrimaryKey() in rows && Holds(checksum, rows[m.PrimaryKey()], m)
    {
      hide Valid, Contents, Persisted, Holds;
      w := if Storable(m) then faults(calls) else Refused;
      calls := calls + 1;
      if w != Refused && m.PrimaryKey() in rows {
        Put(m);
      }
    }

    lemma KeysMatch()
      requires Valid()
      ensures forall k | k in Contents() :: Contents()[k].PrimaryKey() == k
    {
      hide Scanned, AddressText;
    }

    /** Columns hold at most 64 bits. */
    lemma RowsNarrow()
      requires Valid()
      ensures forall k | k in Contents() :: Contents()[k] == Persisted(Contents()[k])
    {
      hide HexToAddress, Hashes, Decode, AddressText;
    }

    /** Scans one row of a query result. */
    method Load(k: Key) returns (m: MonitoredTx)
      requires Valid() && k in rows
      ensures m == Contents()[k]
    {
      hide Scanned, AddressText;
      var r := ScanMtx(rows[k]);
      return r.value;
    }

    /** `Get`. */
    method Get(owner: string, id: string) returns (r: GetAnswer)
      requires Valid()
      modifies this`calls
      ensures Valid() && Contents() == old(Contents())
      ensures r.GetFailed? <==> outages(old(calls))
      ensures r.NoSuchRow? ==> Key(owner, id) !in Contents()
      ensures r.Got? ==>
                && Key(owner, id) in Contents() && r.mTx == Contents()[Key(owner, id)]
                && r.mTx.owner == owner && r.mTx.id == id
    {
      hide Valid, Contents;
      var outage := outages(calls);
      calls := calls + 1;
      if outage {
        return GetFailed;
      }
      if Key(owner, id) !in rows {
        return NoSuchRow;
      }
      KeysMatch();
      var m := Load(Key(owner, id));
      return Got(m);
    }

    /** Scans the rows of `keys`. */
    method Collect(keys: set<Key>) returns (ms: seq<MonitoredTx>)
      requires Valid() && keys <= rows.Keys
      ensures Selects(Contents(), keys, ms)
    {
      hide Valid, Contents, Selects;
      KeysMatch();
      ghost var table := Contents();
      ms := [];
      var rest := keys;
      SelectsNone(table);
      assert keys - rest == {};
      while rest != {}
        invariant rest <= keys && Selects(table, keys - rest, ms)
        decreases rest
      {
        var k :| k in rest;
        var m := Load(k);
        SelectsMore(table, keys - rest, ms, k);
        assert keys - (rest - {k}) == keys - rest + {k};
        ms := ms + [m];
        rest := rest - {k};
      }
      assert keys - rest == keys;
    }

    /** `GetByStatus`. */
    method GetByStatus(owner: Option<string>, statuses: set<Status>) returns (r: Result<seq<MonitoredTx>>)
      requires Valid()
      modifies this`calls
      ensures Valid() && Contents() == old(Contents())
      ensures r.Err? <==> outages(old(calls))
      ensures r.Ok? ==> Selects(Contents(), WithStatus(Contents(), owner, statuses), r.value)
      ensures r.Ok? ==>
                forall k | k in Contents() ::
                  Contents()[k] in r.value <==>
                    && (owner.None? || k.owner == owner.value)
                    && (statuses == {} || Contents()[k].status in statuses)
    {
      hide *;
      var outage := outages(calls);
      calls := calls + 1;
      if outage {
        return Err;
      }
      var keys := set k | k in rows && OwnedBy(k, owner) && HasStatus(rows[k].status, statuses);
      StatusColumn(owner, statuses);
      var ms := Collect(keys);
      KeysMatch();
      StatusSelected(Contents(), owner, statuses, ms);
      return Ok(ms);
    }

    lemma StatusColumn(owner: Option<string>, statuses: set<Status>)
      requires Valid()
      ensures (set k | k in rows && OwnedBy(k, owner) && HasStatus(rows[k].status, statuses))
              == WithStatus(Contents(), owner, statuses)
    {
      hide HexToAddress, Hashes, Decode, AddressText;
    }

    /** `GetBySenderAndStatus`; the sender is compared as text. */
    method GetBySenderAndStatus(sender: Address, statuses: set<Status>) returns (r: Result<seq<MonitoredTx>>)
      requires Valid()
      modifies this`calls
      ensures Valid() && Contents() == old(Contents())
      ensures r.Err? <==> outages(old(calls))
      ensures r.Ok? ==> Selects(Contents(), FromSender(Contents(), sender, statuses), r.value)
      ensures r.Ok? ==>
                forall k | k in Contents() ::
                  Contents()[k] in r.value <==>
                    Contents()[k].from == sender && (statuses == {} || Contents()[k].status in statuses)
    {
      hide *;
      var outage := outages(calls);
      calls := calls + 1;
      if outage {
        return Err;
      }
      var keys := set k | k in rows && rows[k].fromAddr == AddressText(checksum, sender)
                          && HasStatus(rows[k].status, statuses);
      SenderColumn(sender, statuses);
      var ms := Collect(keys);
      KeysMatch();
      SenderSelected(Contents(), sender, statuses, ms);
      return Ok(ms);
    }

    lemma SenderColumn(sender: Address, statuses: set<Status>)
      requires Valid()
      ensures (set k | k in rows && rows[k].fromAddr == AddressText(checksum, sender)
                       && HasStatus(rows[k].status, statuses))
              == FromSender(Contents(), sender, statuses)
    {
      hide HexToAddress, Hashes, Decode, AddressText;
    }
  }
}
