# Binlog relay model

A Dafny model of the change-data-capture relay in `binlog_processor.py`. The relay reads
row events from a MySQL replication stream and projects them into the target table `table3`.
Rows of `table1` (orders) are mirrored into `table3`. Rows of `table2` (status transitions)
set one of the columns `orderStatus1` to `orderStatus5`. After each event, the relay saves
the stream position so that a restart resumes from there.

Modules:

- `Types` (types.dfy): events as the stream reader decodes them, `table3` as `map<int, Row>`
  keyed by `orderId`, stream positions, and `Result`/`Completion` for raised errors.
- `Projection` (projection.dfy): the effect on `table3` of each SQL statement the handlers
  send, as pure functions, with what each one changes, leaves alone and restores.
- `Router` (router.dfy): dispatch by table name and event kind (`ApplyEvent`), and the
  idempotence of every event except a `table1` write.
- `Relay` (relay.dfy): the `PositionManager` class (the position file as an
  `Option<Position>` field) and the `BinlogProcessor` class. That class holds `table3`, has
  one method per handler, and has the `ProcessEvents` loop. `ProcessEvents` is proved
  against `Replay`, the run as a function. Lemmas cover crash and resume.

Behaviour of the code that the model keeps:

- A `table1` write is a plain `INSERT` (binlog_processor.py:183), not an upsert. A key that
  already exists, or is repeated in the batch, makes the statement fail. The failed
  statement leaves the table unchanged. It raises out of the loop before the position is
  saved. One consequence is proved: if the relay crashes after a write but before saving
  its position, the redelivered write fails with a duplicate key, and the relay stops on that event every
  time it restarts (`Relay.CrashAfterWriteWedges`). Every other event converges on
  redelivery (`Relay.CrashResumeConverges`).
- Status code 2 is labelled `Processing`, with a capital P (binlog_processor.py:251).
- The position file is overwritten in place (binlog_processor.py:93-94), not replaced
  atomically.
- Deleted keys come from each entry's `values` (binlog_processor.py:213).

Statements built from an empty row batch fail. The write and update handlers then call
`execute_query` with an empty value list. That sends the statement with its `%s`
placeholders unfilled (binlog_processor.py:56-59). The delete handler reads column
`orderId` of an empty frame (binlog_processor.py:215). Both raise. The model reports this
as `Err(EmptyStatement)`. A status batch with no rows does nothing.

A status `UPDATE` whose `orderId` matches no row changes nothing.

Every statement commits on its own (binlog_processor.py:60). A `table2` write therefore
commits its status rows one at a time. A crash partway through a batch leaves a prefix of it
applied, and the event is delivered again on restart. The resumed run still ends where an
uninterrupted run would (`Relay.CrashInStatusBatchConverges`).

## Model

| member | source | states |
|---|---|---|
| `Projection.WithStatus` | binlog_processor.py:258 | setting `orderStatus<code>` changes that status column only: the other four status columns and the mirrored columns keep their values |
| `Projection.InsertEach` | binlog_processor.py:180-185 | a row-by-row insert of the batch can only fail with a duplicate-key error, and the key it names belongs to the batch |
| `Projection.Insert` | binlog_processor.py:180-185 | the write INSERT succeeds exactly when the batch is non-empty, none of its keys is in `table3` and it repeats no key; on success it adds one fresh row per image and keeps every old row; it fails with the empty-statement error exactly when the batch is empty |
| `Projection.InsertEachSpec` | binlog_processor.py:180-185 | the write INSERT succeeds exactly when no key of the batch is already in `table3` and the batch repeats no key; on success the new table is the old one plus one fresh row per image (status columns NULL), with every old row unchanged |
| `Projection.DeleteUndoesInsert` | binlog_processor.py:180-185 | deleting a batch that was just inserted gives back the table as it was before the insert |
| `Projection.Overlay` | binlog_processor.py:198-202 | an upserted row takes `orderItem`, `customerName` and `orderDate` from the after image; a new row has NULL status columns; an existing row keeps all five status columns |
| `Projection.UpsertOne` | binlog_processor.py:198-202 | upserting one image adds its key if absent, lays the image over the row the key had, and leaves every other row unchanged |
| `Projection.UpsertEach` | binlog_processor.py:196-204 | an update batch's keys become keys of `table3`, no key is removed, and rows whose keys the batch does not mention keep their value |
| `Projection.Upsert` | binlog_processor.py:196-204 | the update statement fails exactly when the batch is empty; otherwise the new key set is the old one plus the batch's keys, and rows the batch does not mention are unchanged |
| `Projection.UpsertEachAt` | binlog_processor.py:196-204 | per key, an update batch leaves the key's last after-image laid over the row the key had (inserting it if absent); keys the batch does not mention keep their row, and no key is removed |
| `Projection.UpsertEachIdempotent` | binlog_processor.py:196-204 | applying an update batch twice gives the same table as applying it once |
| `Projection.UpsertKeepsStatuses` | binlog_processor.py:198-202 | after an update batch, every status column of a row that existed is unchanged, and a newly inserted row has NULL status columns |
| `Projection.Delete` | binlog_processor.py:213-218 | a delete with at least one row removes exactly the keys named in the batch's `values` and keeps every other row unchanged; an empty batch raises |
| `Projection.DeleteIdempotent` | binlog_processor.py:213-218 | applying a delete batch twice gives the same table as applying it once |
| `Projection.StatusLabel` | binlog_processor.py:249-256 | the status map has a label exactly for the codes 1 to 5, and every label is non-empty, so a known code always passes the `if order_status` test |
| `Projection.StatusLabels` | binlog_processor.py:249-255 | codes 1 to 5 map to `ordered`, `Processing`, `shipped`, `outForDelivery`, `delivered` |
| `Projection.SetStatus` | binlog_processor.py:256-259 | one status row with a known code, for an existing order, changes only column `orderStatus<code>` of that order, setting it to the code's label; other rows, other columns and the key set are unchanged; an unknown code or a missing order leaves the table unchanged |
| `Projection.SetStatusIdempotent` | binlog_processor.py:258 | applying one status write twice gives the same table as applying it once |
| `Projection.SetStatuses` | binlog_processor.py:239-241 | a status batch never adds or removes a row of `table3`, and never changes a row's mirrored columns |
| `Projection.SetStatusesAt` | binlog_processor.py:239-258 | after a status batch, column `c` of order `k` holds the label of `c` exactly when some row of the batch carries order `k` with code `c`; otherwise it keeps its old value; mirrored columns and keys are never touched |
| `Projection.SetStatusesIdempotent` | binlog_processor.py:239-241 | applying a status batch twice gives the same table as applying it once |
| `Projection.SetStatusesUnknownCodes` | binlog_processor.py:256-257 | a status batch whose codes all lie outside 1 to 5 leaves the table unchanged |
| `Projection.CodesForPrefix` | binlog_processor.py:240-241 | the codes a prefix of a status batch carries for an order are among those the whole batch carries |
| `Projection.SetStatusesPrefix` | binlog_processor.py:240-241 | status rows are committed one at a time; if the first `j` rows of a batch were applied and the whole batch is applied again, the table ends as if the batch had been applied once |
| `Router.ValuesOf` | binlog_processor.py:181 | the write images are the `values` of the entries, one per entry and in entry order |
| `Router.AfterValuesOf` | binlog_processor.py:196 | the update images are the `after_values` of the entries, one per entry and in entry order |
| `Router.Table1Effect` | binlog_processor.py:166-171 | a `table1` event raises exactly when its batch is empty, or when it is a write whose keys clash with `table3` or with each other; a delete only removes keys, while a write or update only adds keys |
| `Router.Table2Effect` | binlog_processor.py:229-230 | a `table2` event keeps the key set and every row's mirrored columns, and only a write changes anything |
| `Router.ApplyEvent` | binlog_processor.py:144-149 | routing is total: an event raises only when it belongs to `table1`; any other table, and `table2` update or delete events, leave the table unchanged; a `table2` event never changes the key set |
| `Router.UpdateIgnoresBeforeValues` | binlog_processor.py:196 | two update events with the same after images have the same effect, whatever their before images |
| `Router.EventIdempotent` | binlog_processor.py:166-171 | every event other than a `table1` write, once applied, changes nothing when delivered again |
| `Router.WriteRedeliveryFails` | binlog_processor.py:183-185 | a `table1` write that succeeded raises a duplicate-key error on its first row's `orderId` when delivered again |
| `Relay.Replay` | binlog_processor.py:137-156 | the table after handling the events in stream order; the first handler that raises ends the run with its error, so a run can raise only if one of its events belongs to `table1` |
| `Relay.ReplayWithoutTable1` | binlog_processor.py:137-156 | a run over events none of which belongs to `table1` never raises and ends with the same key set it started with |
| `Relay.ReplayStep` | binlog_processor.py:137-156 | one more event either ends the whole run with its handler's error, or extends the handled prefix by its effect and the saved positions by its position |
| `Relay.ReplayAppend` | binlog_processor.py:137-156 | handling two stretches of the stream one after the other ends where handling their concatenation does, and an error in the first stretch stops the run |
| `Relay.CrashResumeConverges` | binlog_processor.py:122-156 | if the relay crashes after applying event `k` but before saving its position, it resumes at event `k`; provided event `k` is not a `table1` write, the resumed run ends in the same state (or the same error) as an uninterrupted run |
| `Relay.CrashInStatusBatchConverges` | binlog_processor.py:137-156 | if the relay crashes inside a `table2` write after some of its status rows were committed, it resumes at that event, and the resumed run ends in the same state (or the same error) as an uninterrupted run |
| `Relay.CrashAfterWriteWedges` | binlog_processor.py:151-185 | after the same crash following a `table1` write, the first event of the resumed run, the redelivered write, raises a duplicate-key error on its first row's `orderId`, and the resumed run ends with exactly that error |
| `Relay.PositionManager.constructor` | binlog_processor.py:68-74 | a store starts with the position stored in its file, or none if there is no file, and with no saves recorded |
| `Relay.PositionManager.LoadLastPosition` | binlog_processor.py:76-85 | load returns the stored position, and None when nothing is stored |
| `Relay.PositionManager.SaveLastPosition` | binlog_processor.py:87-94 | save overwrites the stored position with the new one and records the save |
| `Relay.CheckpointRoundTrip` | binlog_processor.py:76-94 | on a fresh store load finds nothing; after save(p) load returns p; a second save(q) replaces p |
| `Relay.BinlogProcessor.constructor` | binlog_processor.py:100-116 | a processor starts with the given target table and position store |
| `Relay.BinlogProcessor.HandleWriteRowsEvent` | binlog_processor.py:173-186 | the table becomes the result of the INSERT of the entries' `values`, or stays unchanged while the handler raises that statement's error |
| `Relay.BinlogProcessor.HandleUpdateRowsEvent` | binlog_processor.py:188-205 | the table becomes the result of the upsert of the entries' `after_values`, or stays unchanged while the handler raises |
| `Relay.BinlogProcessor.HandleDeleteRowsEvent` | binlog_processor.py:207-219 | the table loses the keys in the entries' `values`, or stays unchanged while the handler raises on an empty batch |
| `Relay.BinlogProcessor.HandleTable1Event` | binlog_processor.py:158-171 | a `table1` event goes to the write, update or delete handler according to its kind, with that handler's effect |
| `Relay.BinlogProcessor.UpdateOrderStatus` | binlog_processor.py:243-260 | one status row has the effect `SetStatus` describes |
| `Relay.BinlogProcessor.HandleTable2WriteRowsEvent` | binlog_processor.py:232-241 | the status rows are applied one at a time, in batch order, and the table ends as `SetStatuses` of the batch |
| `Relay.BinlogProcessor.HandleTable2Event` | binlog_processor.py:221-230 | only a `table2` write changes the table; `table2` update and delete events leave it unchanged |
| `Relay.BinlogProcessor.HandleEvent` | binlog_processor.py:143-149 | an event is routed by table name, and its handler has the effect `ApplyEvent` gives it: the table changes to that effect, or stays unchanged while the handler raises |
| `Relay.BinlogProcessor.ProcessEvents` | binlog_processor.py:133-156 | events are handled in stream order; every event whose handler returns, skipped ones included, has its position saved, once and in order, right after its handler; if the stream runs out, the table is `Replay` of the whole stream and the checkpoint is the last event's position; if event `k`'s handler raises, the table is `Replay` of the first `k` events, the saves are exactly positions 0 to k-1, and event `k`'s position is never saved |

## Left out

- `MySQLConnector` (binlog_processor.py:13-62): connections, cursors, `executemany` and
  commits. Each statement is modelled by its effect on the `table3` map. A failing
  multi-row statement is taken to leave the table unchanged, because one statement is
  atomic in the server.
- `BinLogStreamReader` and `start_stream` (binlog_processor.py:118-131): the replication
  protocol is outside the model. The stream is a given sequence of (event, position)
  pairs. When a position is stored, a resumed stream is the suffix after it. The `Decoded`
  predicate states what the reader guarantees: rows are decoded against the event's own
  table schema, write and delete entries carry `values`, and update entries carry
  `before_values` and `after_values`.
- Column names and value types: a `table1` image is a record of `orderId`, `orderItem`,
  `customerName` and `orderDate`. A `table2` image is a record of `orderId` and
  `orderStatus`. The positional column list of the INSERT, and rows whose columns do not
  fit it, are not modelled.
- pandas DataFrame construction (binlog_processor.py:182, 197, 214, 239): only the row
  lists it wraps are modelled.
- SQL text: the string building, and the injection it allows at lines 216-217 and 258,
  are not modelled. Keys and labels go into the map directly.
- Logging, and `main` (binlog_processor.py:262-285): configuration and process plumbing.
  When an exception leaves `process_events`, `main` logs it and closes the stream. The
  model returns `Stopped` instead.
- Status column defaults: the schema of `table3` is not part of this model. A row that an
  INSERT creates is taken to have NULL in `orderStatus1` to `orderStatus5`, the default a
  nullable column without a declared default gets.
- Relay.PositionManager.SaveLastPosition: does not model a crash while the file is being
  written, or JSON encoding. The model keeps the position in memory and overwrites it in
  one step.
- Where a run starts: the crash lemmas (`Relay.CrashResumeConverges`,
  `Relay.CrashInStatusBatchConverges`, `Relay.CrashAfterWriteWedges`) assume a stored
  checkpoint to resume from. With no position file, `start_stream` opens the reader with no
  log file and no position (binlog_processor.py:122-130), and the reader then starts
  wherever it places itself, which is not in this repository. A cold start, or a crash
  before the first save, may therefore skip events rather than redeliver them.
- Clock, blocking reads and stream disconnection: the loop ends when the given sequence
  ends.
