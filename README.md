# Row store and bounded-retry transactions of a collaborative document store

This project models two small sequential components that sit directly on top
of a replicated (CRDT) document. It then proves properties of the models.

- **Structured row store** (`Rows`, from `collab-database/src/rows/row_map.rs`).
  Rows have an id, a height, a visibility flag and a sparse map from field id
  to cell. They are projected onto the document's generic map container, keyed
  by row id. The container is a `map<string, Any>`, where `Any` is the
  document's JSON-like value. `RowMap` is a class holding that map.
  `InsertRow`, `InsertRowWithTxn` and `UpdateRow` change it in place.
  `GetRowWithTxn` and `GetAllRowsWithTxn` are pure functions of a read
  transaction. A read transaction is a snapshot of the container plus the
  container's own iteration order over that snapshot. `GetAllRows` opens
  its one read transaction as `ReadTxn(container, order)` on the current
  state and scans it with `GetAllRowsWithTxn`.
- **Bounded-retry transaction acquisition** (`Transaction`, from
  `collab/src/core/transaction.rs`). `TransactionRetry` polls the document's
  non-blocking try-acquire while less than `timeout` (2000 ms) has elapsed
  since construction. It sleeps `retryInterval` (50 ms) after every refused
  try. At the deadline, `GetReadTxn` and `GetWriteTxnWith` fall back to one
  blocking acquisition. `TryGetWriteTxn` and `TryGetWriteTxnWith` return
  `AcquiredWriteTxnFail` instead.
  - The lock is an oracle: each call gets a sequence of `Attempt`s, one per try
    (`Granted`, or `Busy(overrun)`). Past the end of the sequence the lock
    stays held.
  - The clock is an integer number of milliseconds. A refused try advances it
    by the retry interval plus the sleep's `overrun`.
  - Each call returns the requests it made (`tries`), whether it fell back or
    failed, and the clock when it ended.
  - `PolledToOutcome` states what a polling loop may end in. Every variant is
    proved to satisfy it, and `PollOutcomeDeterministic` proves it fixes the
    outcome uniquely.

`wrappers.dfy` holds the `Option` and `Result` types that both modules use.

## Model

| member | source | states |
|---|---|---|
| `Rows.RowMap.constructor` | collab-database/src/rows/row_map.rs:9-11 | `new` wraps the given container; no mutator has run yet |
| `Rows.RowMap.InsertRowWithTxn` | collab-database/src/rows/row_map.rs:19-29 | puts a fresh nested map under `row.id` and writes id, height, visibility and cells into it as separate fields; the new container is the old one with only `row.id` rebound to `EncodeRow(row)`, and every other key keeps its value |
| `Rows.RowMap.SetField` | collab-database/src/rows/row_map.rs:23-26 | one field setter changes one key of the row's nested map and nothing else |
| `Rows.RowMap.InsertRow` | collab-database/src/rows/row_map.rs:13-17 | the same insertion inside its own write transaction: only `row.id` changes |
| `Rows.RowMap.GetAllRows` | collab-database/src/rows/row_map.rs:36-39 | the whole scan reads one state of the container (one read transaction): every row it returns decodes from an entry of that state, every decodable entry's row is returned, each row appears as often as there are entries decoding to it, and the count equals the number of decodable entries |
| `Rows.RowMap.UpdateRow` | collab-database/src/rows/row_map.rs:49-58 | no upsert: without a nested map under the id it returns None, hands no handle to the mutator and leaves the container unchanged; otherwise the mutator gets exactly one handle, bound to that id's existing entry, its field writes are applied to that entry only, and its result is returned unchanged |
| `Rows.GetRowWithTxn` | collab-database/src/rows/row_map.rs:31-34 | None when the container has no entry under the id, or the entry is not a nested map; a row is returned exactly when an entry exists under the id and decodes, so an entry that fails to decode also reads as None; the row returned is the decoding of the entry under the id, the same per-key decoding the full scan uses |
| `Rows.RowFromFields` | collab-database/src/rows/row_map.rs:33 | a decoded row carries the id stored under the entry's `id` key |
| `Rows.RowFromValue` | collab-database/src/rows/row_map.rs:45 | only a nested map decodes to a row |
| `Rows.RowsInOrder` | collab-database/src/rows/row_map.rs:42-46 | the scan yields at most one row per visited key |
| `Rows.RowsInOrderSound` | collab-database/src/rows/row_map.rs:45 | every row of the scan is the decoding of some entry |
| `Rows.RowsInOrderComplete` | collab-database/src/rows/row_map.rs:45 | a visited entry that decodes always contributes its row: failures elsewhere do not abort the scan |
| `Rows.RowsInOrderMultiplicity` | collab-database/src/rows/row_map.rs:42-46 | over keys listed once, the scan yields each row exactly as often as there are visited keys whose entries decode to it |
| `Rows.RowsInOrderCount` | collab-database/src/rows/row_map.rs:42-46 | over keys listed once, the scan has exactly as many rows as there are decodable keys |
| `Rows.GetAllRowsWithTxn` | collab-database/src/rows/row_map.rs:41-47 | returns exactly the decodable entries: each row decodes from some entry, each decodable entry's row is present, each row appears exactly as often as there are entries decoding to it, the count equals the number of decodable entries, and so the length is at most the number of entries |
| `Rows.CellsRoundTrip` | collab-database/src/rows/row_map.rs:26 | the cells written under `cells`, one key per field, decode back to the same sparse map |
| `Rows.InsertThenGet` | collab-database/src/rows/row_map.rs:19-34 | after inserting `row`, reading `row.id` yields `row`, with its height, visibility and cells |
| `Rows.InsertThenScan` | collab-database/src/rows/row_map.rs:19-47 | after inserting `row`, the full scan includes `row` |
| `Rows.InsertLeavesOtherRows` | collab-database/src/rows/row_map.rs:20 | inserting a row does not change what any other id reads back |
| `Rows.HeightEditKeepsOtherFields` | collab-database/src/rows/row_map.rs:22-27 | because each field is its own key, writing only the height of an inserted row keeps its visibility and cells |
| `Rows.FixtureRowsReadBack` | collab-database/tests/user_test/helper.rs:324-337 | rows "1", "2" and "3" of the database fixture read back as inserted |
| `Rows.FixtureCellsStaySparse` | collab-database/tests/user_test/async_test/flush_test.rs:77-125 | row "2" reads back with cells exactly {f1, f2} and row "3" with exactly {f1, f3}: a missing field is absent, not a placeholder |
| `Rows.FixtureScan` | collab-database/tests/user_test/async_test/flush_test.rs:77-125 | scanning the fixture in insertion order returns the three rows as inserted |
| `Transaction.TransactionRetry.constructor` | collab/src/core/transaction.rs:23-30 | `new` captures the start time once; timeout is 2000 ms and retry interval 50 ms |
| `Transaction.ClockAt` | collab/src/core/transaction.rs:33-41 | each refused try moves the clock forward by at least the retry interval |
| `Transaction.PolledToOutcome` | collab/src/core/transaction.rs:33-44 | what a polling loop may end in: every try was made while less than the timeout had elapsed since construction, every try but a granted last one was refused, a granted loop ends at its granting try, and a loop that was not granted ends only once the deadline is reached |
| `Transaction.TransactionRetry.Poll` | collab/src/core/transaction.rs:33-42 | every try asks for the same kind of transaction; tries happen only while elapsed < timeout; the first granted try ends the loop at once; a loop that is not granted ends exactly when the deadline is reached; at most 40 tries are refused; the loop terminates |
| `Transaction.TransactionRetry.GetReadTxn` | collab/src/core/transaction.rs:32-45 | always returns a read transaction; it falls back to one blocking acquisition exactly when the deadline passes with no granted try |
| `Transaction.TransactionRetry.TryGetWriteTxn` | collab/src/core/transaction.rs:47-60 | returns a write transaction without origin on the first granted try, and `AcquiredWriteTxnFail` only when the deadline passes with no granted try |
| `Transaction.TransactionRetry.GetWriteTxnWith` | collab/src/core/transaction.rs:62-75 | never fails; every try carries the given origin, and so does the returned transaction, whether granted by a try or by the blocking fallback at the deadline |
| `Transaction.TransactionRetry.TryGetWriteTxnWith` | collab/src/core/transaction.rs:77-93 | every try carries the given origin; on success the transaction carries it; `AcquiredWriteTxnFail` only when the deadline passes with no granted try |
| `Transaction.FailedTriesBounded` | collab/src/core/transaction.rs:33-41 | a loop that starts no earlier than construction makes at most ceil(timeout / retry interval) refused tries |
| `Transaction.PollOutcomeDeterministic` | collab/src/core/transaction.rs:33-44 | the number of tries, whether one was granted, and the final clock are all fixed by the start time, the clock on entry and the lock's answers |
| `Transaction.ExpiredDeadlineNeverPolls` | collab/src/core/transaction.rs:33 | the deadline is measured from construction and never reset: a call made after it has passed makes no try at all |

## Left out

- `row_from_map_ref`, `row_from_value`, `RowBuilder` and `RowUpdate` are not part of this model. The decoder is a stand-in: it needs a string under `id`. A missing height, visibility or cells field takes the default 60, true or empty. A field of the wrong kind, or a cell that is not a map, makes the entry undecodable.
- Round trips rest on the stand-in decoder. `CellsRoundTrip`, `InsertThenGet`, `InsertThenScan`, `HeightEditKeepsOtherFields` and the fixture lemmas hold because `DecodeCells` and `RowFromFields` are written to read back what `EncodeCells` and `EncodeRow` write. They do not prove that the real `RowBuilder` and `row_from_map_ref` agree with each other; that is assumed.
- Rows carry only id, height, visibility and cells. The `block_id` and `created_at` fields that stored rows also hold are not modelled: `row_map.rs` never reads or writes them itself.
- `Rows.RowMap.InsertRowWithTxn`: `set_cells` is modelled as one write of the nested cells map, not one write per cell.
- `Rows.RowMap.UpdateRow`: the mutator is a pure function from the handle to the field writes it makes and the value it returns. Its writes are applied after it returns, so the model does not capture a mutator that reads its own writes back through the handle. The `handles` log is ghost; it records each call of the mutator.
- The container's iteration order is unspecified (a hash map). Read transactions take it as an input that lists each key once.
- Transactions: there is no concurrency, thread, real lock, `sleep` or `Instant`. A read transaction is only a snapshot. The write transaction of the row store is the method call itself.
- `Transaction.TransactionRetry.GetReadTxn`, `Transaction.TransactionRetry.GetWriteTxnWith`: the wait inside the blocking fallback is not modelled. The returned clock is the one at the deadline.
- The `doc` reference is represented only by the oracle of try answers.
- The `tracing::warn!` logging on the timeout paths is left out.
- `DocTransactionExtension` (`get_encoded_collab_v1`/`v2`, `doc_transaction`, `doc_transaction_mut`) is left out. These are thin wrappers over the CRDT library's encoders, and the CRDT itself is out of scope.
- Snapshot and update-log persistence, compaction and reopening a database are left out. Their implementation is not part of this model. The fixture lemmas therefore cover insertion and reading back, not flush-and-reload.
- Row heights are unbounded integers, not the source's 32-bit integers.
