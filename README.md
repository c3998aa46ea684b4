# data_loader feeder and workers, modelled in Dafny

`data_loader` reads a job file of entity identifiers, one per line. It runs one
**feeder** process and several **worker** processes (`receiver-0`, `receiver-1`, …).
They share a FIFO queue and an `is_queue_empty` value.

- The feeder holds the file's lines in a list `data`. Whenever the queue is empty, it
  pops a batch of at most `BATCH_SIZE` lines off the front. It strips each line and puts
  it on the queue. It does this until `data` is empty.
- A worker repeatedly takes the front entity and requests it. It logs the response at
  level error (status other than 200), warning (slower than `LONG_RESPONSE` seconds) or
  info. When a database is configured, it inserts one row with the response. It stops
  the first time it finds the queue empty.

This project models that hand-off and proves what it guarantees.

- `text.dfy` (module `Text`) is Python's `str.strip()`, with the full `str.isspace()`
  character set. It is characterised as the unique slice that only whitespace surrounds
  and that has no whitespace at its ends.
- `feeder.dfy` (module `Feeder`) is the batch arithmetic: `data_range_to`, how many lines
  one pass pops, and the batch sizes of a fully drained run. The number of batches is
  proved to be ceil(B / BATCH_SIZE).
- `worker.dfy` (module `Worker`) covers:
  - the three-way log-level decision;
  - the response a worker can get (`Fetched`);
  - the record of one hand-off (`Delivery`);
  - the rows a worker inserts.
- `pipeline.dfy` (module `Pipeline`) holds the shared state as class `Run`:
  - the feeder's `data`, the queue, the stored flag, the inserted rows and the log;
  - ghost bookkeeping: how many lines the feeder has popped, and every hand-off so far.

  The methods of `Run` are:
  - one pass of the feeder's loop (`FeederStep`, with the inner `for` loop as `PutBatch`,
    inside `LoadBatch`);
  - one pass of a worker's loop (`WorkerStep`);
  - a worker's whole loop (`RunWorker`);
  - the feeder's whole loop under a drain-every-batch schedule (`RunFeederDrained`);
  - any sequential interleaving of passes (`Interleave`).

  Every pass and every whole loop keeps the hand-off invariant `Valid()`. `PutBatch`
  is the inner `for` loop: it runs in the middle of a batch, and `LoadBatch` restores
  the invariant after it. The lemmas `Conservation`,
  `ConservationCounts`, `DeliveryIsLine` and `AllDelivered` prove from that invariant
  that no entity is lost or handed out twice, and that hand-offs follow file order.

The inputs from outside the processes are parameters:
- the job file's lines are the constructor's `lines`;
- `BATCH_SIZE`, `int(LONG_RESPONSE)` and whether a database is configured are constants
  of `Run`;
- the HTTP request is a function `fetch` from entity to `Fetched`; in an interleaving,
  `respond(t, e)` is the response step `t` gets for entity `e`.

The model follows the code as written, also where it does something other than what the
code's own comments intend. The comment at loader.py:114 calls `is_queue_empty` the "Flag
to signalize workers that queue is not reloading but real empty". The code as written
does this:
- **The completion flag is never set.** The feeder's final `is_queue_empty = 1`
  (lib/feeder.py:26) rebinds a local name, so `flag` keeps the 0 it was created with. No
  method other than the constructor writes it.
- **The flag test always passes.** Workers test the `multiprocessing.Value` object, not
  the number it stores. That object is always true (`ValueIsTruthy`). So a worker stops
  the first time it finds the queue empty, even when the feeder still holds lines. The
  workers still running take the feeder's next batches (lib/worker.py:31,39). Lines go
  unrequested only once every worker has ended. Then the feeder finds the queue empty
  once more and queues one more batch (lib/feeder.py:16-21), which nobody takes. If
  lines remain after that batch, the queue never empties again. The rest of the lines
  stay in `data` and `while len(data) > 0` never ends, so `process.join()`
  (loader.py:137-138) waits forever.
- **A failed request is not recorded.** Nothing catches an exception from
  `requests.get`. The entity has already left the queue: it is recorded as a `Raised`
  delivery with no log line and no row, and the worker's process ends.
- **Blank lines are not skipped.** The line `"\n"` becomes the empty entity `""`, which
  is queued and requested like any other.

## Model

| member | source | states |
|---|---|---|
| Text.TrimStartSpec | lib/feeder.py:20 | `lstrip` removes a run of whitespace from the front, leaves a suffix of the line, and leaves nothing that starts with whitespace |
| Text.TrimEndSpec | lib/feeder.py:20 | `rstrip` removes a run of whitespace from the back, leaves a prefix of the line, and leaves nothing that ends with whitespace |
| Text.StripIsSlice | lib/feeder.py:20 | `strip()` returns a slice of the line; everything outside the slice is whitespace, and the slice has no whitespace at either end |
| Text.SpaceOutside | lib/feeder.py:20 | every character outside a stripped slice is whitespace |
| Text.StripsToUnique | lib/feeder.py:20 | there is only one such slice |
| Text.StripUnique | lib/feeder.py:20 | any slice that only whitespace surrounds and that has no whitespace at its ends is exactly what `strip()` returns |
| Text.StripIdempotent | lib/feeder.py:20 | stripping an entity again does not change it |
| Text.BlankLineIsEmptyEntity | loader.py:112 | a line of only whitespace (a blank line from `readlines()`) becomes the empty entity; it is not dropped |
| Text.StripDropsNewline | loader.py:112 | a line `e + "\n"` from `readlines()`, where `e` has no whitespace at its ends, becomes the entity `e` |
| Text.StripAll | lib/feeder.py:19-21 | there is one entity per raw line |
| Text.StripAllAt | lib/feeder.py:19-21 | entity k is line k, stripped |
| Text.StripAllDrop | lib/feeder.py:19-21 | the stripped form of the lines left after popping k is the stripped backlog with its first k entities removed |
| Feeder.Moved | lib/feeder.py:17-19 | one pass pops exactly `BATCH_SIZE` lines when more remain than that, otherwise all of them. It never pops more than either. With `BATCH_SIZE <= 0` it pops none. With `BATCH_SIZE >= 1` and lines remaining it pops at least one |
| Feeder.CeilingUnique | lib/feeder.py:15-21 | the ceiling the batch count is compared with is unique |
| Feeder.BatchLengthsShape | lib/feeder.py:15-21 | when every batch is drained: ceil(B / `BATCH_SIZE`) batches; each has between 1 and `BATCH_SIZE` lines; all but the last have exactly `BATCH_SIZE`; together they hold all B lines; with B = 0 there are none |
| Feeder.ThreeLinesTwoPerBatch | lib/feeder.py:15-23 | three lines at `BATCH_SIZE=2` are logged as batches of 2 and then 1 |
| Worker.Classify | lib/worker.py:44-51 | error exactly when the status is not 200; warning exactly when it is 200 and `elapsed` is above `LONG_RESPONSE` seconds; info exactly when it is 200 and not slower; the three cases are mutually exclusive and cover every response |
| Worker.ErrorIgnoresElapsed | lib/worker.py:44-45 | a non-200 status is an error whatever the elapsed time |
| Worker.SlowerIsNoBetter | lib/worker.py:47-51 | for status 200, a slower response or a lower threshold never turns a warning into info |
| Worker.RowsOfAllResponded | lib/worker.py:53-59 | when every request got a response, there is exactly one row per hand-off, in hand-off order. Each row is `(process, entity, code, response_time, response_content)` of that hand-off |
| Pipeline.Conservation | lib/feeder.py:15-21 | at every state: handed-out entities, then queued entities, then the stripped lines still in `data` make up the stripped job file, in order |
| Pipeline.ConservationCounts | lib/feeder.py:15-21 | every entity is handed out, queued or still to come exactly as many times as its line occurs in the job file |
| Pipeline.DeliveryIsLine | lib/worker.py:39 | the k-th `queue.get()` of the run returns line k of the job file, stripped: no line is handed out twice and order is kept |
| Pipeline.AllDelivered | lib/feeder.py:15-21 | once `data` and the queue are both empty, the hand-offs are exactly the stripped job file |
| Pipeline.HandedOffByBatch | lib/feeder.py:17-21 | moving the first n lines of `data`, stripped, onto an empty queue keeps the hand-off invariant |
| Pipeline.TakeKeeps | lib/worker.py:39-59 | a worker taking the front of the queue, plus the row it inserts, keeps the hand-off invariant and the one-row-per-response invariant |
| Pipeline.LoadsStep | lib/feeder.py:17-23 | logging one more batch leaves "batches logged so far, then batches to come" unchanged |
| Pipeline.RequestLinesClassified | lib/worker.py:42-51 | a worker's request lines for a run of responses are one per hand-off, in order. Each carries the worker, the entity, the status, the elapsed time and the level `Classify` gives |
| Pipeline.LoadsConcat | lib/feeder.py:23 | the load lines of two stretches of log, one after the other, are the load lines of the first followed by those of the second |
| Pipeline.LoadsOfRequestLines | lib/worker.py:42-51 | a worker's request lines contain no load line |
| Pipeline.LoadsKeptByRequest | lib/worker.py:42-51 | one more request line leaves the load lines unchanged |
| Pipeline.LoadsPass | lib/feeder.py:23 | a feeder pass that logs `Loaded(n)`, followed by a drain that logs no load, adds exactly `n` to the load lines; a pass that logs nothing adds nothing |
| Pipeline.Run.constructor | loader.py:108-112 | the initial state: `data` is the file's lines, the queue is empty, the flag is 0, nothing is logged or inserted; the hand-off invariant holds |
| Pipeline.Run.FeederStep | lib/feeder.py:15-26 | one pass of `while len(data) > 0`. With `data` empty the feeder ends, and nothing else changes: the flag is outside its `modifies`. With the queue non-empty, neither `data` nor the queue nor the log changes. Otherwise `data` loses its first `Moved(B, BATCH_SIZE)` lines, those lines stripped become the queue, and the load is logged |
| Pipeline.Run.LoadBatch | lib/feeder.py:16-23 | on an empty queue: the first `n` lines leave `data`, their stripped forms become the queue, and `Loaded(data_range_to)` is logged, with `n` given by `Moved` |
| Pipeline.Run.Refill | lib/feeder.py:15-23 | a feeder pass on an empty queue: with `data` empty the feeder ends and logs nothing; otherwise `data` loses its first `Moved(B, BATCH_SIZE)` lines and exactly one load line, for the returned `data_range_to`, is logged |
| Pipeline.Run.PutBatch | lib/feeder.py:19-21 | after `range(0, data_range_to)` pops and puts: `data` has lost its first `max(data_range_to, 0)` lines, and those lines, stripped and in order, are appended to the queue |
| Pipeline.Run.WorkerStep | lib/worker.py:30-59 | one pass of `while True`. On an empty queue the worker logs "queue is empty" and "I`m done" and stops, with no hand-off or row. Otherwise the front entity leaves the queue, the rest stays in order, and the entity is appended to the hand-offs. The log gets the request line at its `Classify` level, a row is appended when a database is configured, and the worker stops exactly when its request raised |
| Pipeline.Run.Handle | lib/worker.py:39-59 | the front entity leaves the queue and becomes the next hand-off. A response is logged at its level, plus a row when a database is configured; a raised request ends the worker with neither |
| Pipeline.Run.RunWorker | lib/worker.py:30-61 | a worker's whole loop, run alone: it ends, and its hand-offs are the front of the queue in FIFO order. Every hand-off went to this worker and holds what `fetch` answered for its entity. Either its last request raised, or every request got a response, the queue is empty, and the log ends with "queue is empty" and "I`m done". Its other log lines are exactly its request lines |
| Pipeline.Run.DrainQueue | lib/worker.py:30-39 | a worker whose requests all get responses takes every queued entity, in order, without ending. Its hand-offs are exactly the old queue, each holding `fetch`'s answer, and it logs no load line |
| Pipeline.Run.FeedAndDrain | lib/feeder.py:15-24 | a feeder pass followed by a full drain leaves the queue empty and `data` without its first batch. The load lines in the log grow by exactly the returned `data_range_to`, and by nothing when `data` was empty |
| Pipeline.Run.RunFeederDrained | lib/feeder.py:15-24 | with `BATCH_SIZE >= 1`, when a worker drains every batch, the feeder's loop ends with `data` empty. The counts of the load lines it adds to the log are exactly `BatchLengths(B, BATCH_SIZE)`, so it logs ceil(B / `BATCH_SIZE`) batches. The worker receives every line, stripped, in file order, each with `fetch`'s answer |
| Pipeline.Run.FeederTurn | lib/feeder.py:15-16 | a turn of the feeder, which has no effect once it has ended, keeps the invariant; lines only leave `data`; an ended feeder stays ended |
| Pipeline.Run.WorkerTurn | lib/worker.py:30-59 | a turn of a worker, which has no effect once it has ended, keeps the invariant; hand-offs are only appended; ended workers stay ended |
| Pipeline.Run.Take | loader.py:118-135 | one step by any of the started processes keeps the invariant and only moves the run forward |
| Pipeline.Run.Interleave | loader.py:118-138 | any sequential interleaving of feeder and worker passes, with responses that may differ per step, keeps `Valid()`. So `Conservation`, `DeliveryIsLine` and `AllDelivered` hold after every step. Hand-offs, popped lines and ended processes only ever grow |
| Pipeline.ThreeLinesStrip | loader.py:112 | the lines `a`, `b`, `c` that `readlines()` returns, ending in newlines, become the entities `a`, `b`, `c` |
| Pipeline.ThreeRows | lib/worker.py:53-59 | a worker's hand-offs of `a`, `b`, `c` from a server answering 500 for `b` and 200 otherwise give the rows `(receiver-0, a, 200)`, `(receiver-0, b, 500)`, `(receiver-0, c, 200)`, in that order |
| Pipeline.ThreeLineJob | loader.py:108-138 | a whole run of a three-line job file with `BATCH_SIZE=2`, a database, and a server that answers 500 for `b`, driven through `Run`: the log shows batches of 2 and 1, and the table gets the three rows in file order, `b`'s with code 500 |

## Left out

- loader.py is not part of this model as a unit: argument parsing, reading the
  environment, opening the job file, the database connection and `CREATE TABLE`, the
  log folder, and starting and joining processes. Its effect on the model is the
  constructor's parameters.
- The HTTP request and its URL template (lib/worker.py:40) are modelled only as `fetch`,
  a function from entity to response, or exception, that is given as a parameter.
- Real parallelism is modelled only as interleavings of whole loop passes: one run of
  the body of the feeder's or a worker's loop is one atomic step. Interleavings inside a
  feeder batch, between its individual `put` calls, are not modelled. Neither is the
  cross-process lag with which `queue.empty()` sees a `put`.
- `time.sleep` calls are left out. A feeder pass that finds the queue non-empty is a
  step that changes nothing.
- The log is kept as typed entries, not loguru's text lines, and the `;`-joined message
  with `str(timedelta)` is not modelled. The "starting ..." and "URL template" lines are
  left out.
- `timedelta` and floats: `elapsed` is a natural number of microseconds and the threshold
  is an integer number of seconds, which is exact for `timedelta` comparison.
- Parsing `BATCH_SIZE` and `LONG_RESPONSE` with `int(...)` is left out, and so is the
  error a non-numeric value raises. Both are integer constants of `Run`.
- The SQL text, the cursor, and database connection or insert failures are left out.
  Rows are records appended to `rows`.
- Pipeline.Run.FeederStep: with `BATCH_SIZE <= 0` each pass moves nothing and logs
  `Loaded(BATCH_SIZE)`, so the feeder's loop never ends. This is modelled for one pass,
  but `RunFeederDrained` requires `BATCH_SIZE >= 1`.
- Pipeline.Run.RunFeederDrained: covers only the schedule in which one worker drains
  every batch with responses only. Other schedules are covered by `Interleave`, which
  states the invariant and monotonicity but not the batch count.
- Pipeline.Run.DrainQueue: requires every request to get a response, because with a
  raised request the worker ends before the queue is drained.
- Pipeline.Run.Interleave: does not prove that the run ends, because it need not. Under
  the code's always-true flag test, every worker may end while the feeder still holds
  lines. The feeder then queues one more batch that nobody takes. If lines remain after
  that, it spins forever on the non-empty queue.
- Pipeline.Run.DrainQueue: of the log it states only that no load line is added. The
  exact request lines of a worker's loop are stated by `RunWorker` and
  `RequestLinesClassified`.
