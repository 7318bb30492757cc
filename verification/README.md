# A verified model of the agglayer

The agglayer receives zero-knowledge proofs from CDK chains, vets them and has its transaction manager
carry them to L1. This project models the transaction manager with its table and L1, the gas price
arithmetic, the text and row codecs, the byte string hashed to identify a submission, and the submission
endpoint, and proves properties of all of them in Dafny 4.11. `dafny verify dfyconfig.toml` checks it.

## How it is built

- `Monitor.dfy` is `Client.monitorTx` as an automaton: a program point for each call the code can be
  about to make to L1 or to the storage, an event for each answer.
- `Lanes.dfy` and `Invariants.dfy` hold one record: its persisted row, the goroutine working on it, and
  the hashes it handed to L1, counted from the moment `SendTx` is about to be called. A refused write leaves
  the row alone; a write in doubt reports an error but reached the table.
- `Manager.dfy` is the whole machine. Its moves are: L1 advances, an `Add` commits, a cycle starts (only
  when no goroutine of the last one is left), a goroutine gets one answer, or a goroutine disappears (a
  crash abandons all of them). Moves interleave freely. `Theorems.dfy` and `Outcomes.dfy` prove what holds in
  every run, `Counterexamples.dfy` why the hypotheses are there, `ReceiptLoop.dfy`, `Interleaving.dfy` and
  `Reviews.dfy` where map iteration order and goroutine schedule matter and where they do not.
- `Protocol.dfy` states what one cycle asks, writes and leaves, from the answers and rows alone: which call follows
  which answer, what each write makes of the row, and what is signed, sent and asked about. It is proved of the
  automaton, and `MonitorTx` and `MonitorTxs` promise that their cycles are such cycles.
- `Storage.dfy` and `Client.dfy` are the imperative code: `PostgresStorage` over SQL rows, and `Client`
  with its loops, early returns and writes. `Client.MonitorTx` is proved to follow the automaton on
  whatever L1 and the storage answer, and `Client.MonitorTxs` to visit every watched record in turn.
  `Cycles.dfy` proves that what `MonitorTxs` does is a run of the machine (`SweepIsRun`), whatever L1 does
  between the calls as long as it answers truthfully.
- `GasPrice.dfy`, `Hex.dfy`, `Args.dfy`, `Proof.dfy`, `TxHash.dfy` and `Submit.dfy` are the rest.

What is taken as given about L1: receipts are stable once given, at most one transaction of the signing
account is mined for each nonce (section 6 of the Ethereum Yellow Paper), the head is monotone, a hash
determines the signed transaction, and receipts and head are reported as they are. Everything else L1 or
the storage answers is arbitrary, call by call. Only one manager runs (README.md:36 of the repository).

## Findings

- A failed `CheckTxWasMined` call counts as "mined" (txmanager/txmanager.go:229-232), although the comment
  above it speaks of not finding a receipt. The nonce review is therefore justified exactly when no check
  failed (`ReviewJustifiedIff`); otherwise the same data can be sent and mined successfully twice
  (`TwoSuccesses`).
- The retry limit is tested before the outcome (txmanager/txmanager.go:284-293), so a record can become Failed in
  the very cycle that sees one of its transactions succeed (`FailedDespiteSuccess`), while the documentation of
  that status speaks of a mined and failed transaction only (txmanager/types/monitoredtx.go:31-34). It happens
  exactly from the limit on: after a success was seen the record is confirmed if and only if its retry count
  is below the limit (`SuccessIff` at the loop, `SeenSuccessTheorem` over runs). `NumRetries` also counts failed
  reviews, not only sends.
- `getTxNonce` reads outside the caller's database transaction (txmanager/txmanager.go:444-449), so two submissions
  can share a nonce (`StaleNonceCollides`). Two submissions of one sender that read the same table always do,
  unless the sender has no Created row and L1 names different pending nonces (`StaleNoncesIff`).
- Two goroutines of a cycle that review their nonces depend on their order (`ReviewOrderMatters`), exactly when one
  record is Created and the other has the same sender and a nonce below the second nonce to be allocated
  (`ReviewOrderTheorem`).
- For batch numbers from 2^63 on the node is asked for a negative batch, so the roots compared are not those of the
  batch named (`RootGateIff`).
- A margin factor of one still changes prices of more than 53 significant bits (`AdjustedByOne`).
- Without a price limit, prices of 2^64 and more lose their high bits when written, while the transaction is signed at
  the full price (`SignedAtFullPrice`; `SignedMove` says that the two agree exactly up to 64 bits). `block_num` is a
  signed column, so larger block numbers are refused.
- The rollup is not part of the hashed byte string (`PreimageIff`).

## Model

| member | source | states |
|---|---|---|
| `Theorems.AtMostOnceTheorem` | txmanager/txmanager.go:227-278 | In every run that raises no nonce in a cycle with a receipt-check error, at most one transaction of a record's history is ever mined successfully, and every one below the record's current nonce is mined and reverted |
| `Theorems.WriteAheadTheorem` | txmanager/txmanager.go:336-374 | At every point of every run, also after failed or doubtful writes, each hash for which `SendTx` was called is in the persisted history of its record, even if the process died during the call; histories and handed sets never shrink |
| `Theorems.PayloadTheorem` | txmanager/types/monitoredtx.go:117-129 | Key, sender, target, value, data and gas offset of a record never change, nonce and gas never fall; every history transaction carries that payload, at most that nonce and an estimate of at most that gas plus the offset, and if it was signed during the run it is, field by field and with its gas price, the one the row described at some point of the run |
| `Theorems.SignedMove` | txmanager/txmanager.go:324-332 | Whenever a transaction gets signed, in every reachable state, its target, value, data, nonce and gas are the row's of that moment, and its price up to the bits above 64 |
| `Theorems.AttemptPriceTheorem` | txmanager/txmanager.go:516-529 | While adjusted prices fit 64 bits, no history transaction has a higher price than its record |
| `Theorems.StatusTheorem` | txmanager/txmanager.go:402-440 | Confirmed, Failed and Done rows are frozen, nothing becomes Created, Reorged or Done; Sent has an accepted hash in its history, Confirmed names the block of a successful receipt of its history that the head has reached, Failed exhausted its retries or has a reverted history transaction |
| `Theorems.RetryTheorem` | txmanager/txmanager.go:284-316 | The persisted retry count is history size plus persisted failed reviews and never exceeds the limit; at most that many distinct transactions are handed to L1; the zero-retries rule changes nothing |
| `Theorems.PriceLimitTheorem` | txmanager/txmanager.go:567-576 | With a limit configured every price in the table and in memory is within it, so writing it in 64 bits loses nothing |
| `Theorems.PriceMonotoneTheorem` | txmanager/txmanager.go:516-529 | While adjusted prices fit 64 bits the price of a record never falls |
| `Theorems.DistinctNonceTheorem` | txmanager/txmanager.go:443-469 | With atomic allocation and nonces below 2^64-1, Created records of one sender have pairwise distinct nonces in every reachable state |
| `Theorems.StaleNoncesIff` | txmanager/txmanager.go:444-449 | Two submissions of one sender allocated on the same table collide unless the sender has no Created row and L1 gave them different pending nonces |
| `Outcomes.SeenSuccessTheorem` | txmanager/txmanager.go:280-293 | In every run, a complete cycle that sees a transaction of a record succeed leaves it Confirmed exactly below the retry limit and Failed exactly from it on, once the write lands, which it does unless refused or behind the head; else the row is unchanged |
| `Outcomes.SuccessSeen` | txmanager/txmanager.go:240-293 | After a success was seen the retry count alone decides which outcome the goroutine heads for |
| `Protocol.FailedReceiptTheorem` | txmanager/txmanager.go:423-440 | In every run, a complete cycle that fetches the failed receipt of its transaction leaves the row Failed with the receipt's block exactly if the transaction was not found any more or the revert was explained by anything but the bare "execution reverted", and the write was not refused; else the row is as it was when the receipt came |
| `Protocol.FailedReceipt` | txmanager/txmanager.go:471-495 | The same of one cycle |
| `Protocol.ChecksThen` | txmanager/txmanager.go:217-301 | A cycle starts with receipt checks of different history hashes, up to the first success or to the last hash; then it reads the head, reviews the nonce, marks the record Failed, stops, reviews the fees or signs, as answers, retry count and status say |
| `Protocol.ReviewCalls` | txmanager/txmanager.go:500-553 | Which call follows each answer in the reviews of nonce, gas and gas price |
| `Protocol.BroadcastCalls` | txmanager/txmanager.go:324-400 | Which call follows each answer from the signature to the receipt: not found is followed by sending, any other look-up by waiting, a send of a Created record by a write, an inclusion by the receipt |
| `Protocol.OutcomeCalls` | txmanager/txmanager.go:402-440 | Which call follows the head and the questions about a failed receipt |
| `Protocol.NonceWriteCalls` | txmanager/txmanager.go:266-303 | What follows the write of a reviewed nonce |
| `Protocol.WriteCalls` | txmanager/txmanager.go:303-374 | What follows every other write; a write that fails, or is in doubt, ends the cycle |
| `Protocol.ReviewWrites` | txmanager/txmanager.go:266-322 | What the writes after reviews make of the row: the larger nonce, the larger gas and price, one more retry if the review failed |
| `Protocol.StatusWrites` | txmanager/txmanager.go:284-436 | What the other writes make of the row: one more history hash and retry, Sent, Confirmed or Failed with the receipt's block, Failed at the retry limit |
| `Protocol.RowStays` | txmanager/txmanager.go:214-441 | Nothing but a write that is not refused changes the row |
| `Protocol.UnsignedTx` | txmanager/types/monitoredtx.go:117-129 | The transaction to sign is the row's, field by field, at the row's price or the one just suggested |
| `Protocol.HandedOver` | txmanager/txmanager.go:354-400 | After the signature it is the signed transaction that is looked up, sent, waited for and asked about, and it is in the history before it is sent |
| `Protocol.CycleOfRun` | txmanager/txmanager.go:188-206 | A cycle within any run is such a cycle, from the row it found, with a zero retry count taken as the size of the history |
| `Protocol.CleanMeaning` | txmanager/txmanager.go:229-232 | The flag in the hypothesis of `AtMostOnceTheorem` says exactly that no receipt check of the cycle failed |
| `Theorems.StartFine` | db/migrations/0001.sql:7-25 | The empty table satisfies every invariant the theorems start from |
| `Manager.SoundRun` | txmanager/txmanager.go:178-211 | Every run keeps all record invariants and evolves every record |
| `Manager.SoundMove` | txmanager/txmanager.go:178-211 | Every single move, of L1, of `Add`, of a goroutine or a crash, keeps them |
| `Manager.RunInduction` | txmanager/txmanager.go:51-66 | What every allowed move keeps holds after every run of moves |
| `Lanes.SyncedStep` | txmanager/txmanager.go:214-441 | A goroutine's copy differs from its row only by what the next write is meant to change |
| `Lanes.EvolvesStep` | txmanager/txmanager.go:214-441 | One answer changes a row only as the status, payload and monotonicity rules admit |
| `Invariants.WriteAheadStep` | txmanager/txmanager.go:353-374 | One answer keeps handed hashes persisted and Sent rows accepted |
| `Invariants.RetriesStep` | txmanager/txmanager.go:304-316 | One answer keeps the retry equation and the limit |
| `Invariants.NormalisedIdentity` | txmanager/txmanager.go:191-194 | On counted records the zero-retries rule is the identity |
| `Invariants.BackedStep` | txmanager/txmanager.go:392-440 | One answer keeps Confirmed and Failed backed by L1 and the receipt in hand genuine |
| `Invariants.AttemptsStep` | txmanager/txmanager.go:324-351 | One answer keeps every history transaction an attempt with the record's payload |
| `Invariants.NonceStep` | txmanager/txmanager.go:255-278 | One answer keeps every attempt below the current nonce reverted, if a nonce is raised only in a clean cycle |
| `Invariants.AtMostOneSuccess` | txmanager/txmanager.go:255-265 | Those facts and one mined transaction per nonce leave room for one success |
| `Invariants.CappedStep` | txmanager/txmanager.go:524-528 | One answer keeps row and copy within a cap on incoming prices |
| `Invariants.PriceStep` | txmanager/txmanager.go:524-528 | One answer does not lower a row's price while prices fit 64 bits |
| `ReceiptLoop.LoopRefinesSpec` | txmanager/txmanager.go:227-253 | For fixed answers per hash and every iteration order, the loop with its early break ends where the quantified specification says; only the choice among several successes may vary |
| `ReceiptLoop.ReviewIff` | txmanager/txmanager.go:266-268 | The nonce is reviewed exactly when no receipt succeeded, some failed and none was reported missing |
| `ReceiptLoop.SuccessIff` | txmanager/txmanager.go:284-293 | When a receipt succeeded the record goes on to confirmation exactly below the retry limit, and to Failed from it on |
| `ReceiptLoop.LoopOfPath` | txmanager/txmanager.go:227-253 | Every path out of the loop visits hashes of the history at most once each and ends where the specification says for the answers as they came |
| `ReceiptLoop.ReviewJustifiedIff` | txmanager/txmanager.go:229-232 | The answers imply that the whole history was mined and reverted exactly when no check failed |
| `Interleaving.ScheduleIrrelevant` | txmanager/txmanager.go:188-208 | Without nonce reviews every schedule gives each record what its own answers determine |
| `Interleaving.InterleavingTheorem` | txmanager/txmanager.go:188-208 | Without nonce reviews any interleaving of a cycle gives the table of processing the records one by one, in any order |
| `Interleaving.WorksAfter` | txmanager/txmanager.go:196-206 | A goroutine alone changes its own record only |
| `Interleaving.LaneOfRun` | txmanager/txmanager.go:196-206 | Within a cycle a record depends on the answers to its own goroutine only, whatever else a run does |
| `Cycles.EveryScheduleSweeps` | txmanager/txmanager.go:188-208 | Every schedule of a cycle without nonce reviews leaves exactly the table the sequential code leaves |
| `Cycles.SweepIsRun` | txmanager/txmanager.go:179-211 | What `MonitorTxs` does, with truthful answers of an L1 that goes on meanwhile, is a run of the machine from the start of a cycle, with the same table at the end |
| `Cycles.CycleIsRun` | txmanager/txmanager.go:214-441 | The calls of a goroutine, with truthful answers and L1 going on between them, are moves the machine allows, with the same effect on the record |
| `Cycles.CycleLoops` | txmanager/txmanager.go:227-253 | Every cycle of the code asks first for receipts of its history, each hash at most once and in any order, and goes on as the loop's specification says for the answers it got |
| `Cycles.AddIsInsert` | txmanager/txmanager.go:103-124 | The row `Add` inserts is an allowed, atomically allocated insertion of the machine |
| `Cycles.AskedAt` | txmanager/txmanager.go:214-441 | Every answer of a cycle is L1's to the call of its number, asked about the record as its row has it and about the transaction signed |
| `Counterexamples.TwoSuccesses` | txmanager/txmanager.go:229-232 | A concrete run with one failed check in which two transactions of a record are sent, accepted and mined successfully |
| `Counterexamples.FailedDespiteSuccess` | txmanager/txmanager.go:284-293 | A concrete cycle that sees a transaction succeed and marks its record Failed |
| `Counterexamples.SignedAtFullPrice` | txmanager/pgstorage.go:212 | A concrete run in which the row holds price 0 and the transaction is signed at 2^64 |
| `Counterexamples.StaleNonceCollides` | txmanager/txmanager.go:444-449 | A concrete run in which two submissions allocated on the same table collide |
| `Counterexamples.ReviewOrderMatters` | txmanager/txmanager.go:538-553 | From one start that satisfies every invariant, a cycle whose two nonce reviews leave different tables in different orders |
| `Reviews.ReviewOrderTheorem` | txmanager/txmanager.go:538-553 | Two nonce reviews of a cycle are runs in both orders and leave the same table if and only if the records do not clash |
| `Reviews.ReviewsCommuteIff` | txmanager/txmanager.go:444-469 | On the table: the clash is one Created record and another of the same sender with a nonce below the second one to be allocated |
| `Reviews.ReviewIsRun` | txmanager/txmanager.go:266-278 | An undisturbed review is a run and raises the record to the nonce allocated on the table |
| `Nonces.NextNonceExceeds` | txmanager/txmanager.go:451-460 | An allocated nonce exceeds that of every Created row of the sender unless 64 bits overflow |
| `Nonces.NextNonceMeaning` | txmanager/txmanager.go:444-469 | The allocated nonce is what L1 names if the sender has no Created row, and else one more, in 64 bits, than the largest nonce of such a row |
| `Nonces.DistinctUpdate` | txmanager/txmanager.go:444-469 | Writing a row that leaves Created, keeps its nonce or carries one allocated on this table keeps Created nonces distinct |
| `Nonces.DistinctInsertIff` | txmanager/txmanager.go:444-469 | A new Created row keeps Created nonces distinct exactly if no Created row of its sender has its nonce |
| `Client.Client.MonitorTx` | txmanager/txmanager.go:214-441 | Whatever is answered, the calls made are a complete cycle as `Protocol` describes it, the i-th call gets what L1 answers to its i-th call, a nonce review reads what the table holds, and only this record's row changes, to what the cycle leaves |
| `Client.Client.MonitorTxs` | txmanager/txmanager.go:179-211 | Exactly the Created, Sent and Reorged records are visited, each once; each goes through one complete cycle, a zero retry count taken as the size of the history, its nonce review reading the table the visits before it left; nothing else changes; a failed query changes nothing |
| `Client.SweptCargo` | txmanager/txmanager.go:179-211 | Whatever the goroutines of a cycle are answered, key, sender, target, value, data and gas offset of a row stay |
| `Client.Client.CheckReceipts` | txmanager/txmanager.go:217-253 | The loop over the history, in any order, ends at the automaton's state for the flags it returns, which is where the quantified specification puts it for the answers given |
| `Client.Client.ReviewNonce` | txmanager/txmanager.go:266-278 | Nonce review and write follow the automaton and put the larger of the old nonce and the allocated one into the row |
| `Client.Client.GetTxNonce` | txmanager/txmanager.go:444-469 | L1's pending nonce if the sender has no Created row, which is asked for in no other case, and else one more than the largest nonce of such a row; it fails only if a call fails |
| `Client.Client.SuggestedGasPrice` | txmanager/txmanager.go:555-577 | The returned price is the adjusted suggestion of L1 |
| `Client.Client.ReviewMonitoredTx` | txmanager/txmanager.go:303-322 | The larger of old and estimated gas, the larger of old and adjusted price, or one more retry if a call fails, and the writes |
| `Client.Client.Broadcast` | txmanager/txmanager.go:324-400 | The transaction built from the record is signed; a new one is added to the history with one more retry, and recorded before it is sent |
| `Client.Client.SendTx` | txmanager/txmanager.go:356-374 | It goes on only if L1 accepted the transaction, and a Created record becomes Sent exactly then |
| `Client.Client.AwaitReceipt` | txmanager/txmanager.go:381-399 | A receipt is had exactly if L1 included the transaction and gives its receipt |
| `Client.Client.ShouldContinue` | txmanager/txmanager.go:471-495 | Monitoring goes on exactly if the transaction is found and asking for the revert message gives the bare "execution reverted" |
| `Client.Client.Conclude` | txmanager/txmanager.go:402-440 | Confirmed exactly if the head has reached the block of a successful receipt, Failed exactly if a failed one is not to be monitored on, with the block in both cases |
| `Client.Client.Save` | txmanager/pgstorage.go:183-220 | A write moves automaton and table together |
| `Client.Client.Build` | txmanager/txmanager.go:75-116 | The record carries the arguments, is blank Created, has the nonce for the sender on this table, the estimated gas or the forced one if there is no estimate, and the adjusted price; it fails only if a call fails |
| `Client.Client.Add` | txmanager/txmanager.go:74-130 | At most one new row is inserted, the built one, with the nonce for its sender on the table; an error changes nothing unless the insertion was in doubt; with nothing failing a new key is added |
| `Client.Client.BuildResult` | txmanager/txmanager.go:142-176 | The result reports on exactly the history, each transaction as L1 answered; it fails only if a query fails |
| `Client.Client.ResultOf` | txmanager/txmanager.go:132-140 | The result is that of the row of the key; it fails only without a row or if a query fails |
| `Storage.RowRoundTrip` | txmanager/pgstorage.go:183-271 | Reading after writing gives the record with big integers narrowed to 64 bits; absent and empty data differ, history is equal as a set, mixed-case addresses are exact |
| `Storage.RowRoundTripIff` | txmanager/pgstorage.go:203-213 | The record itself comes back exactly when its big integers fit 64 bits |
| `Storage.HistoryStringSlice` | txmanager/types/monitoredtx.go:173-180 | The texts list the history, each hash once, in any order |
| `Storage.ScanMtx` | txmanager/pgstorage.go:224-271 | Each field is read from its own column; it fails exactly on data that is not hexadecimal |
| `Storage.PostgresStorage.Put` | txmanager/pgstorage.go:45-52 | Each field is bound to its own column, big integers by their low 64 bits |
| `Storage.AddressText` | txmanager/types/monitoredtx.go:143-151 | Checksummed address text decodes to the address |
| `Storage.PostgresStorage.Add` | txmanager/pgstorage.go:42-64 | One row per owner and id; an existing key is reported and changes nothing |
| `Storage.PostgresStorage.Update` | txmanager/pgstorage.go:183-220 | Exactly the row of the key is replaced, none if there is none; block numbers from 2^63 on are refused |
| `Storage.PostgresStorage.GetByStatus` | txmanager/pgstorage.go:89-132 | Exactly the rows of the wanted owner and statuses, each once; no owner and no statuses do not filter |
| `Storage.PostgresStorage.GetBySenderAndStatus` | txmanager/pgstorage.go:135-180 | Exactly the rows of the sender with a wanted status, although senders are compared as text |
| `Storage.PostgresStorage.Get` | txmanager/pgstorage.go:67-86 | The record stored under the key, or that there is none, or an error if the query fails |
| `GasPrice.AdjustedMonotone` | txmanager/txmanager.go:562-576 | A higher suggestion never gives a lower price |
| `GasPrice.AdjustedExact` | txmanager/txmanager.go:562-576 | The result is the integer part of the price rounded, scaled and rounded again, and the limit exactly if that exceeds it |
| `GasPrice.AdjustedAtLeast` | txmanager/txmanager.go:562-565 | With a factor of at least one and no limit, a price of at most 2^53 is not lowered |
| `GasPrice.AdjustedByOne` | txmanager/txmanager.go:562-565 | With a factor of one the result is the rounded price, and the price itself exactly if its low bits beyond 53 are zero |
| `GasPrice.AdjustedByOneLoses` | txmanager/txmanager.go:562-565 | With a factor of one, 2^53 + 1 becomes 2^53 |
| `GasPrice.RoundedTwice` | txmanager/txmanager.go:563-565 | `SetInt` and `Mul` both round: 2^53 + 1 scaled by 3/2 differs from the exact product rounded once |
| `GasPrice.AdjustedWithinLimit` | txmanager/txmanager.go:567-574 | A configured limit is never exceeded |
| `GasPrice.RoundNearest` | txmanager/txmanager.go:563-565 | Rounding gives a number of 53 significant bits, no other one is nearer, and of two equally near ones it is the even one (section 4.3.1 of IEEE 754-2019) |
| `GasPrice.RoundMonotone` | txmanager/txmanager.go:563-565 | Rounding is monotone |
| `TxHash.PreimageInjective` | tx/tx.go:32-41 | The hashed byte string determines both batch numbers, both roots and the proof |
| `TxHash.PreimageIff` | tx/tx.go:32-41 | Two transactions share it exactly if they differ at most in the rollup |
| `TxHash.PreimageParts` | tx/tx.go:33-40 | Where each part stands in the hashed bytes: `0x` and the shortest digits of the last and of the new batch number, state root, exit root, `0x` and two digits for each byte of the proof |
| `Proof.Equals` | etherman/proof.go:13-20 | The loop decides equality |
| `Proof.BytesToProof` | etherman/proof.go:22-36 | The words, put together again, are the data; it fails exactly off 768 bytes |
| `Proof.ConvertProof` | etherman/proof.go:38-60 | Each word is the decoded chunk; it fails exactly on a wrong length or an undecodable chunk |
| `Proof.WordMeaning` | etherman/proof.go:48-57 | Each 64 characters become a word: digits only, after one optional `0x`, aligned to the left of zeros |
| `Proof.DecodersAgree` | etherman/proof.go:22-60 | For every byte string, decoding its text and decoding the bytes agree, and succeed exactly at 768 bytes |
| `Hex.HexIsValid` | rpc/types/hex.go:31-39 | The loop accepts exactly optional `0x` and characters of the three digit ranges |
| `Hex.BytesRoundTrip` | rpc/types/hex.go:13-28 | `ArgBytes` unmarshals what it marshalled |
| `Hex.EncodeDigits` | rpc/types/hex.go:13-19 | Every byte becomes two lowercase digits, the more significant one first |
| `Hex.DecodeToHexExact` | rpc/types/hex.go:21-28 | One `0x` is dropped, an odd number of digits gets a zero in front, every two digits become a byte, and anything else fails |
| `Hex.PrefixIgnored` | txmanager/pgstorage.go:239-268 | A prefix `0x` or `0X` does not change the hash or address a text denotes |
| `Hex.HashRoundTrip` | txmanager/pgstorage.go:264-268 | A hash survives its text form |
| `Hex.AddressRoundTrip` | txmanager/pgstorage.go:239-246 | An address survives its text form in any letter case (EIP-55) |
| `Args.Uint64RoundTrip` | rpc/types/types.go:16-32 | `ArgUint64` unmarshals what it marshalled, for every 64-bit value |
| `Args.UnmarshalUint64Exact` | rpc/types/types.go:24-32 | `ArgUint64` accepts, after one optional `0x`, exactly the non-empty texts of digits with a 64-bit value |
| `Args.FormatShortest` | rpc/types/types.go:16-21 | Every lowercase text of a value is the marshalled one after some zeros |
| `Args.ShortestCorollary` | rpc/types/types.go:16-21 | So that one is the unique shortest |
| `Args.UnmarshalHash` | rpc/types/types.go:83-91 | `ArgHash` accepts exactly optional-`0x` hexadecimal text |
| `Args.HashDenotation` | rpc/types/types.go:83-91 | It denotes the last 64 digits, left-padded with zeros |
| `Submit.InteropEndpoints.SendTx` | rpc/rpc.go:55-103 | Each call keeps every committed row vetted; a failing call leaves the table unchanged unless its commit is in doubt; a success passed all gates, the node of its rollup having reported its roots, and added exactly its row; a submission that agrees with an accepted one on everything but the rollup is refused, and without hash collisions no other is refused for its key; for an unregistered rollup nobody is asked anything; a call nothing stands against succeeds |
| `Submit.HashIff` | tx/tx.go:32-41 | Without hash collisions, submissions have one hash, and one row, exactly if they agree on everything but the rollup |
| `Submit.HashedBytes` | tx/tx.go:32-41 | What is hashed, part by part |
| `Submit.InteropKeyText` | interop/executor.go:218-221 | The row of a hash: owner `interop`, and as id `0x` and the 64 digits of the hash |
| `Submit.InteropEndpoints.Serve` | rpc/rpc.go:55-136 | Over any sequence of submissions, queries and monitoring cycles no row is lost, every row is that of a submission that passed all gates and carries its call data, and each new one was submitted in the sequence |
| `Submit.InteropEndpoints.Monitor` | txmanager/txmanager.go:51-66 | A monitoring cycle creates no row and leaves what every row is for |
| `Submit.InteropEndpoints.Commit` | rpc/rpc.go:81-102 | The database transaction adds the row or restores the table |
| `Submit.InteropEndpoints.BuildData` | etherman/etherman.go:54-94 | The call packs rollup, batch numbers, exit root, state root, sequencer and the words of the proof, so the proof has 768 bytes |
| `Submit.InteropEndpoints.VerifyZKP` | interop/executor.go:93-125 | Passing means L1 accepted a call of the rollup manager by the interop account with the call data |
| `Submit.InteropEndpoints.VerifySignature` | interop/executor.go:127-163 | Passing means the configured signer or, without one, the sequencer signed |
| `Submit.InteropEndpoints.Verify` | interop/executor.go:84-91 | Passing means both the proof and the signature passed |
| `Submit.InteropEndpoints.Execute` | interop/executor.go:165-204 | Passing means the rollup's node reported exactly these roots for the batch number as a signed 64-bit value |
| `Submit.RootGateIff` | interop/executor.go:169-173 | That is the batch the transaction names exactly for numbers below 2^63 |
| `Submit.InteropEndpoints.Settle` | interop/executor.go:206-241 | The one row added is that of the hash, with the call data for the rollup manager |
| `Submit.InteropEndpoints.GetTxStatus` | rpc/rpc.go:105-136 | Reads only; the answer is the status of the hash's row; with nothing failing it answers exactly if there is a row |
| `Submit.InteropKeyInjective` | interop/executor.go:218-221 | Different hashes have different rows |

## Left out

- L1 reorganisations: no code here sets Reorged; rows may start in it.
- Margin factors that are negative, infinite or not a number.
- Keccak-256, signature recovery, ABI packing, proof verification and the contracts: functions or answers of the environment. `encoding.DecodeBytes` of zkevm-node is not part of this repository and is modelled like `decodeToHex`.
- SQL text, connections, migrations, time stamps and the `created_at` order of query results.
- Submit.InteropEndpoints.Commit: a sequence of calls, each with the table to itself; isolation between concurrent database transactions is not modelled.
- Submit.InteropEndpoints.Serve: requests and cycles one after the other; submissions that commit in the middle of a cycle are moves of the machine.
- Client.Client.MonitorTxs: goroutines one after the other; their interleavings are in the machine, and `EveryScheduleSweeps` and `SweepIsRun` connect the two.
- Reviews.ReviewOrderTheorem: nonces below 2^64 - 2, which the nonce of an account never passes (EIP-2681).
- A nil history map and an empty one are the same set, so that a nil one is read back as empty holds by construction.
- client, cmd, config, log, network and telemetry: start-up, configuration, timers and logging, which decide nothing the theorems are about.
