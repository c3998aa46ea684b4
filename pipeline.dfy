/** The state the feeder process and the worker processes share — the backlog the
    feeder owns, the queue, the `is_queue_empty` value, the results table and the log —
    and the steps each process takes on it. Processes run one step at a time, in any
    order: a step is one pass through the body of the feeder's or a worker's loop. */
module Pipeline {
  import opened Text
  import opened Feeder
  import opened Worker

  /** The lines of the run's log file that the model keeps. */
  datatype LogEntry =
    | Loaded(count: int)                      // "feeder -> N items loaded to queue"
    | QueueEmpty(worker: nat)                 // "receiver-i: queue is empty"
    | Request(level: Level, worker: nat, entity: string, status: int, elapsed: nat)
    | Finished(worker: nat)                   // "receiver-i: queue and feeder is empty, I`m done"

  /** Who takes the next step: the feeder, or worker `receiver-i`. */
  datatype Step = FeederIteration | WorkerIteration(worker: nat)

  /** The truth value of `is_queue_empty` as a worker tests it. The workers receive the
      `multiprocessing.Value` wrapper object, not the integer it stores, and that object
      defines neither `__bool__` nor `__len__`: it is true whatever it stores. */
  predicate ValueIsTruthy(stored: int) {
    true
  }

  /** The hand-off invariant, for lines `backlog` whose stripped forms are `entities`:
      the feeder has taken the first `taken` lines off `backlog` and `data` is the rest,
      and the entities handed to workers so far, followed by the queue, are the stripped
      forms of the lines taken, in order. */
  ghost predicate HandedOff(entities: seq<string>, backlog: seq<string>, taken: int, data: seq<string>, queue: seq<string>, delivered: seq<string>) {
    |entities| == |backlog| && 0 <= taken <= |backlog| &&
    data == backlog[taken..] &&
    delivered + queue == entities[..taken]
  }

  lemma AppendAssoc<T>(a: seq<T>, b: seq<T>, c: seq<T>)
    ensures (a + b) + c == a + (b + c)
  {
  }

  /** Moving the front of `q` to the back of `a`. */
  lemma MoveFront<T>(a: seq<T>, q: seq<T>)
    requires q != []
    ensures (a + [q[0]]) + q[1..] == a + q
  {
    assert q == [q[0]] + q[1..];
    AppendAssoc(a, [q[0]], q[1..]);
  }

  lemma SplitAt<T>(s: seq<T>, i: int)
    requires 0 <= i <= |s|
    ensures s[..i] + s[i..] == s
  {
  }

  /** Nothing is lost or duplicated: delivered entities, queued entities and the
      remaining lines (stripped) make up the stripped backlog, in order. */
  lemma Conservation(backlog: seq<string>, taken: int, data: seq<string>, queue: seq<string>, delivered: seq<string>)
    requires HandedOff(StripAll(backlog), backlog, taken, data, queue, delivered)
    ensures delivered + queue + StripAll(data) == StripAll(backlog)
  {
    StripAllDrop(backlog, taken);
    SplitAt(StripAll(backlog), taken);
  }

  /** The same, counting: every line's entity is delivered, queued or still to come,
      exactly as often as it occurs in the job file. */
  lemma ConservationCounts(backlog: seq<string>, taken: int, data: seq<string>, queue: seq<string>, delivered: seq<string>)
    requires HandedOff(StripAll(backlog), backlog, taken, data, queue, delivered)
    ensures multiset(delivered) + multiset(queue) + multiset(StripAll(data)) == multiset(StripAll(backlog))
  {
    Conservation(backlog, taken, data, queue, delivered);
    assert multiset(delivered + queue + StripAll(data)) == multiset(delivered + queue) + multiset(StripAll(data));
  }

  /** The k-th hand-off delivers line k of the job file, stripped: every line is handed to
      at most one worker, and hand-offs follow the file's order. */
  lemma DeliveryIsLine(backlog: seq<string>, taken: int, data: seq<string>, queue: seq<string>, delivered: seq<string>, k: int)
    requires HandedOff(StripAll(backlog), backlog, taken, data, queue, delivered)
    requires 0 <= k < |delivered|
    ensures k < |backlog| && delivered[k] == Strip(backlog[k])
  {
    PrefixAt(StripAll(backlog), delivered, queue, taken, k);
    StripAllAt(backlog, k);
  }

  /** Once the backlog and the queue are both empty, every line of the job file has been
      handed to exactly one worker, stripped, in file order. */
  lemma AllDelivered(backlog: seq<string>, taken: int, data: seq<string>, queue: seq<string>, delivered: seq<string>)
    requires HandedOff(StripAll(backlog), backlog, taken, data, queue, delivered)
    requires data == [] && queue == []
    ensures delivered == StripAll(backlog)
  {
    Conservation(backlog, taken, data, queue, delivered);
    assert delivered + queue + StripAll(data) == delivered;
  }

  lemma PrefixAt<U>(all: seq<U>, a: seq<U>, b: seq<U>, t: int, k: int)
    requires 0 <= t <= |all| && a + b == all[..t] && 0 <= k < |a|
    ensures k < |all| && a[k] == all[k]
  {
    assert a[k] == (a + b)[k];
  }

  /** What was delivered between two states whose queues are empty is the stretch of
      the stripped backlog taken in between. */
  lemma DeliveredBetween<U>(all: seq<U>, before: seq<U>, since: seq<U>, t0: int, t: int)
    requires 0 <= t0 <= |all| && 0 <= t <= |all| && before == all[..t0] && before + since == all[..t]
    ensures t0 <= t && since == all[t0..t]
  {
    assert |before + since| == t;
    forall k | 0 <= k < |since| ensures since[k] == all[t0..t][k] {
      assert since[k] == (before + since)[t0 + k];
    }
  }

  lemma PrefixExtend<U>(all: seq<U>, tail: seq<U>, c: int, n: int)
    requires 0 <= c && 0 <= n && c + n <= |all| && tail == all[c..]
    ensures all[..c] + tail[..n] == all[..c + n]
  {
  }

  /** A feeder batch keeps the invariant: with the queue empty, it moves the first `n`
      remaining lines, stripped, onto the queue. */
  lemma HandedOffByBatch(entities: seq<string>, backlog: seq<string>, taken: int, data: seq<string>, delivered: seq<string>,
                         n: int, taken': int, data': seq<string>, queue': seq<string>)
    requires entities == StripAll(backlog)
    requires HandedOff(entities, backlog, taken, data, [], delivered) && 0 <= n <= |data|
    requires taken' == taken + n && data' == data[n..] && queue' == StripAll(data)[..n]
    ensures HandedOff(entities, backlog, taken', data', queue', delivered)
  {
    assert delivered == delivered + [];
    StripAllDrop(backlog, taken);
    PrefixExtend(StripAll(backlog), StripAll(data), taken, n);
    assert data[n..] == backlog[taken + n..];
  }

  /** A worker taking the front of the queue, as delivery `d`, keeps the invariant, and
      so does the row it inserts when a database is configured. */
  lemma TakeKeeps(entities: seq<string>, backlog: seq<string>, taken: int, data: seq<string>,
                  queue: seq<string>, processed: seq<Delivery>, rows: seq<Row>, d: Delivery, dbConfigured: bool,
                  queue': seq<string>, processed': seq<Delivery>, rows': seq<Row>)
    requires HandedOff(entities, backlog, taken, data, queue, Entities(processed)) && queue != [] && d.entity == queue[0]
    requires rows == (if dbConfigured then RowsOf(processed) else [])
    requires queue' == queue[1..] && processed' == processed + [d] && rows' == rows + (if dbConfigured then RowOf(d) else [])
    ensures HandedOff(entities, backlog, taken, data, queue', Entities(processed'))
    ensures rows' == (if dbConfigured then RowsOf(processed') else [])
  {
    EntitiesSnoc(processed, d);
    MoveFront(Entities(processed), queue);
    RowsOfAppend(processed, d);
  }

  /** The batch sizes logged so far, followed by those still to come, do not change
      when one more batch of a non-empty backlog is logged. */
  lemma LoadsStep(loads: seq<int>, remaining: nat, rest: nat, load: int, total: seq<int>, batchSize: int)
    requires batchSize >= 1 && remaining > 0
    requires rest == remaining - Moved(remaining, batchSize) && load == RangeTo(remaining, batchSize)
    requires loads + BatchLengths(remaining, batchSize) == total
    ensures (loads + [load]) + BatchLengths(rest, batchSize) == total
  {
    AppendAssoc(loads, [load], BatchLengths(rest, batchSize));
  }

  /** The request line a worker logs for one delivery; a request that raised logs nothing. */
  function RequestLine(d: Delivery, longResponse: int): seq<LogEntry> {
    match d.fetched
    case Responded(status, elapsed, _) => [Request(Classify(status, elapsed, longResponse), d.worker, d.entity, status, elapsed)]
    case Raised => []
  }

  /** The request lines a worker logs for a sequence of deliveries, in order. */
  function RequestLines(ds: seq<Delivery>, longResponse: int): seq<LogEntry> {
    if ds == [] then [] else RequestLines(ds[..|ds| - 1], longResponse) + RequestLine(ds[|ds| - 1], longResponse)
  }

  lemma RequestLinesAppend(ds: seq<Delivery>, d: Delivery, longResponse: int)
    ensures RequestLines(ds + [d], longResponse) == RequestLines(ds, longResponse) + RequestLine(d, longResponse)
  {
    assert (ds + [d])[..|ds|] == ds;
  }

  /** Every line of a worker's log for a run of responses carries the level Classify gives. */
  lemma {:induction false} RequestLinesClassified(ds: seq<Delivery>, longResponse: int)
    requires AllResponded(ds)
    ensures |RequestLines(ds, longResponse)| == |ds|
    ensures forall k :: 0 <= k < |ds| ==>
      var line, f := RequestLines(ds, longResponse)[k], ds[k].fetched;
      line == Request(Classify(f.status, f.elapsed, longResponse), ds[k].worker, ds[k].entity, f.status, f.elapsed)
  {
    if ds != [] {
      var init := ds[..|ds| - 1];
      RequestLinesClassified(init, longResponse);
      assert ds == init + [ds[|ds| - 1]];
      RequestLinesAppend(init, ds[|ds| - 1], longResponse);
    }
  }

  /** The `N` of a "feeder -> N items loaded to queue" line. */
  function LoadOf(e: LogEntry): seq<int> {
    match e
    case Loaded(n) => [n]
    case _ => []
  }

  /** The `N` of every "feeder -> N items loaded to queue" line of `log`, in order. */
  function Loads(log: seq<LogEntry>): seq<int> {
    if log == [] then [] else Loads(log[..|log| - 1]) + LoadOf(log[|log| - 1])
  }

  lemma {:induction false} LoadsConcat(a: seq<LogEntry>, b: seq<LogEntry>)
    ensures Loads(a + b) == Loads(a) + Loads(b)
    decreases |b|
  {
    if b == [] {
      assert a + b == a;
    } else {
      var init, last := b[..|b| - 1], b[|b| - 1];
      LoadsConcat(a, init);
      assert (a + b)[..|a + b| - 1] == a + init && (a + b)[|a + b| - 1] == last;
      calc {
        Loads(a + b);
        Loads(a + init) + LoadOf(last);
        (Loads(a) + Loads(init)) + LoadOf(last);
        Loads(a) + (Loads(init) + LoadOf(last));
      }
    }
  }

  /** A worker's request lines are never load lines. */
  lemma {:induction false} LoadsOfRequestLines(ds: seq<Delivery>, longResponse: int)
    ensures Loads(RequestLines(ds, longResponse)) == []
  {
    if ds != [] {
      var init, d := ds[..|ds| - 1], ds[|ds| - 1];
      LoadsOfRequestLines(init, longResponse);
      LoadsConcat(RequestLines(init, longResponse), RequestLine(d, longResponse));
    }
  }

  /** A request line is not a load line. */
  lemma LoadsKeptByRequest(log0: seq<LogEntry>, log1: seq<LogEntry>, d: Delivery, longResponse: int)
    requires log1 == log0 + RequestLine(d, longResponse)
    ensures Loads(log1) == Loads(log0)
  {
    LoadsConcat(log0, RequestLine(d, longResponse));
    assert Loads(RequestLine(d, longResponse)) == [] by {
      LoadsOfRequestLines([d], longResponse);
      assert RequestLines([d], longResponse) == RequestLines([], longResponse) + RequestLine(d, longResponse);
    }
  }

  /** A feeder pass that logs a load when `fed`, followed by a drain that logs no load,
      adds exactly that load to the logged loads. */
  lemma LoadsPass(log0: seq<LogEntry>, log1: seq<LogEntry>, log2: seq<LogEntry>, fed: bool, load: int)
    requires log1 == log0 + (if fed then [Loaded(load)] else [])
    requires Loads(log2) == Loads(log1)
    ensures Loads(log2) == Loads(log0) + (if fed then [load] else [])
  {
    if fed {
      LoadsConcat(log0, [Loaded(load)]);
      assert Loads([Loaded(load)]) == Loads([]) + [load];
    } else {
      assert log1 == log0;
    }
  }

  /** One run of the job: the processes' shared state and the settings every process
      reads from the environment. */
  class Run {
    const batchSize: int       // BATCH_SIZE
    const longResponse: int    // int(LONG_RESPONSE), seconds
    const dbConfigured: bool   // whether the workers got a db_config
    ghost const backlog: seq<string>   // the lines `readlines()` returned
    ghost const entities: seq<string>  // those lines, stripped

    var data: seq<string>      // the feeder's list of lines not yet queued
    var queue: seq<string>     // the multiprocessing.Queue, front first
    var flag: int              // the int stored in the is_queue_empty Value
    var rows: seq<Row>         // rows this run inserted into the results table
    var log: seq<LogEntry>
    var feederExited: bool
    var exited: set<nat>       // workers whose process has ended
    ghost var taken: nat                 // lines the feeder has popped off `data`
    ghost var processed: seq<Delivery>   // every hand-off so far, in order

    /** `entities` are the stripped lines; a fact about constants, so no step can change it. */
    ghost predicate Stripped() {
      entities == StripAll(backlog)
    }

    ghost predicate Valid()
      reads this
    {
      HandedOff(entities, backlog, taken, data, queue, Entities(processed)) &&
      rows == (if dbConfigured then RowsOf(processed) else []) &&
      (feederExited ==> data == [])
    }

    /** The state `main` sets up before starting the processes: an empty queue, the
        Value created with 0, and the job file's lines. */
    constructor (lines: seq<string>, batchSize: int, longResponse: int, dbConfigured: bool)
      ensures Valid() && Stripped()
      ensures this.batchSize == batchSize && this.longResponse == longResponse && this.dbConfigured == dbConfigured
      ensures backlog == lines && data == lines && queue == [] && flag == 0
      ensures rows == [] && log == [] && !feederExited && exited == {} && processed == []
    {
      this.batchSize := batchSize;
      this.longResponse := longResponse;
      this.dbConfigured := dbConfigured;
      backlog := lines;
      entities := StripAll(lines);
      data := lines;
      queue := [];
      flag := 0;
      rows := [];
      log := [];
      feederExited := false;
      exited := {};
      taken := 0;
      processed := [];
      assert lines[0..] == lines && StripAll(lines)[..0] == [];
    }

    /** One pass of the feeder's `while len(data) > 0` loop. With an empty backlog the
        feeder ends (its last assignment only rebinds a local name). With a non-empty
        queue it changes nothing. Otherwise it pops `data_range_to` lines off the front
        of `data` and puts each, stripped, at the back of the queue. */
    method FeederStep()
      requires Valid() && Stripped() && !feederExited
      modifies this`data, this`queue, this`log, this`feederExited, this`taken
      ensures Valid() && old(taken) <= taken
      ensures feederExited <==> old(data) == []
      ensures old(data) == [] || old(queue) != [] ==>
        data == old(data) && queue == old(queue) && log == old(log) && taken == old(taken)
      ensures old(data) != [] && old(queue) == [] ==>
        var n := Moved(|old(data)|, batchSize);
        data == old(data)[n..] && queue == StripAll(old(data))[..n] && taken == old(taken) + n &&
        log == old(log) + [Loaded(RangeTo(|old(data)|, batchSize))]
    {
      if |data| == 0 {
        // `is_queue_empty = 1` binds the feeder's local name to 1: `flag` is not written
        feederExited := true;
        return;
      }
      if queue == [] {
        LoadBatch();
      }
    }

    /** The branch of a feeder pass that finds the queue empty: one batch of
        `data_range_to` lines goes onto the queue and the load is logged. */
    method LoadBatch()
      requires Valid() && Stripped() && !feederExited && queue == []
      modifies this`data, this`queue, this`log, this`taken
      ensures Valid()
      ensures var n := Moved(|old(data)|, batchSize);
        data == old(data)[n..] && queue == StripAll(old(data))[..n] && taken == old(taken) + n &&
        log == old(log) + [Loaded(RangeTo(|old(data)|, batchSize))]
    {
      ghost var lines, n, taken0 := data, Moved(|data|, batchSize), taken;
      var rangeTo := RangeTo(|data|, batchSize);
      assert n == (if rangeTo < 0 then 0 else rangeTo);
      PutBatch(rangeTo);
      log := log + [Loaded(rangeTo)];
      taken := taken + n;
      assert queue == [] + StripAll(lines)[..n] == StripAll(lines)[..n];
      HandedOffByBatch(entities, backlog, taken0, lines, Entities(processed), n, taken, data, queue);
    }

    /** The feeder's `for i in range(0, data_range_to)` loop: each pass pops the first
        line of `data` and puts it, stripped, at the back of the queue. A negative
        `rangeTo` is an empty range; a range longer than `data` would make `pop(0)` raise,
        which `data_range_to` never allows. */
    method PutBatch(rangeTo: int)
      requires rangeTo <= |data|
      modifies this`data, this`queue
      ensures var n := if rangeTo < 0 then 0 else rangeTo;
        data == old(data)[n..] && queue == old(queue) + StripAll(old(data))[..n]
    {
      var i := 0;
      while i < rangeTo
        invariant 0 <= i && i <= (if rangeTo < 0 then 0 else rangeTo)
        invariant data == old(data)[i..]
        invariant queue == old(queue) + StripAll(old(data))[..i]
      {
        var wallet := Strip(data[0]);
        data := data[1..];
        queue := queue + [wallet];
        StripAllAt(old(data), i);
        i := i + 1;
      }
    }

    /** One pass of worker `receiver-w`'s `while True` loop. On an empty queue it logs
        that, tests `is_queue_empty` (always true) and leaves the loop. Otherwise it takes
        the entity at the front, requests it, logs the response at the level Classify
        gives, and inserts one row if a database is configured; a request that raises
        ends the worker after the entity has left the queue. `stop` says whether the
        worker is done. */
    method WorkerStep(w: nat, fetch: string -> Fetched) returns (stop: bool)
      requires Valid() && w !in exited
      modifies this`queue, this`processed, this`log, this`rows, this`exited
      ensures Valid() && old(processed) <= processed
      ensures exited == old(exited) + (if stop then {w} else {})
      ensures old(queue) == [] ==>
        stop && queue == [] && processed == old(processed) && rows == old(rows) &&
        log == old(log) + [QueueEmpty(w), Finished(w)]
      ensures old(queue) != [] ==>
        var d := Delivery(w, old(queue)[0], fetch(old(queue)[0]));
        queue == old(queue)[1..] && processed == old(processed) + [d] &&
        stop == d.fetched.Raised? &&
        log == old(log) + RequestLine(d, longResponse) &&
        rows == old(rows) + (if dbConfigured then RowOf(d) else [])
    {
      if queue == [] {
        log := log + [QueueEmpty(w)];
        stop := ValueIsTruthy(flag);
        if stop {
          log := log + [Finished(w)];
          exited := exited + {w};
        }
        return;
      }
      stop := Handle(w, fetch);
    }

    /** The part of a worker pass that runs when `queue.get()` returns an entity: the
        entity leaves the queue, its request is made, and the response is logged and
        stored; a request that raises ends the worker instead. */
    method Handle(w: nat, fetch: string -> Fetched) returns (stop: bool)
      requires Valid() && w !in exited && queue != []
      modifies this`queue, this`processed, this`log, this`rows, this`exited
      ensures Valid()
      ensures var d := Delivery(w, old(queue)[0], fetch(old(queue)[0]));
        queue == old(queue)[1..] && processed == old(processed) + [d] &&
        stop == d.fetched.Raised? && exited == old(exited) + (if stop then {w} else {}) &&
        log == old(log) + RequestLine(d, longResponse) &&
        rows == old(rows) + (if dbConfigured then RowOf(d) else [])
    {
      var entity := queue[0];
      var fetched := fetch(entity);
      ghost var d := Delivery(w, entity, fetched);
      ghost var queue0, processed0, rows0 := queue, processed, rows;
      queue := queue[1..];
      processed := processed + [d];
      match fetched {
        case Raised =>
          exited := exited + {w};
          stop := true;
        case Responded(status, elapsed, body) =>
          log := log + [Request(Classify(status, elapsed, longResponse), w, entity, status, elapsed)];
          if dbConfigured {
            rows := rows + [Row(w, entity, status, elapsed, body)];
          }
          stop := false;
      }
      TakeKeeps(entities, backlog, taken, data, queue0, processed0, rows0, d, dbConfigured, queue, processed, rows);
    }

    /** Worker `receiver-w`'s whole `while True` loop while no other process steps. It
        takes entities from the front of the queue, in order, until it first finds the
        queue empty or a request raises; `got` are its hand-offs. On a clean exit it has
        drained the queue. */
    method RunWorker(w: nat, fetch: string -> Fetched) returns (ghost got: seq<Delivery>)
      requires Valid() && w !in exited
      modifies this`queue, this`processed, this`log, this`rows, this`exited
      ensures Valid() && exited == old(exited) + {w}
      ensures processed == old(processed) + got
      ensures Entities(got) + queue == old(queue)
      ensures ServedBy(got, w, fetch)
      ensures if got != [] && got[|got| - 1].fetched.Raised? then
          AllResponded(got[..|got| - 1]) &&
          log == old(log) + RequestLines(got, longResponse)
        else
          AllResponded(got) && queue == [] &&
          log == old(log) + RequestLines(got, longResponse) + [QueueEmpty(w), Finished(w)]
    {
      got := [];
      while true
        invariant Valid() && w !in exited && exited == old(exited)
        invariant processed == old(processed) + got
        invariant Entities(got) + queue == old(queue)
        invariant ServedBy(got, w, fetch) && AllResponded(got)
        invariant log == old(log) + RequestLines(got, longResponse)
        decreases |queue|
      {
        ghost var q := queue;
        var stop := WorkerStep(w, fetch);
        if stop {
          if q != [] {
            ghost var d := Delivery(w, q[0], fetch(q[0]));
            ServedOne(got, d, q, old(processed), old(log), w, fetch);
            assert (got + [d])[..|got|] == got;
            got := got + [d];
          } else {
            assert got != [] ==> got[|got| - 1].fetched.Responded?;
          }
          return;
        }
        ghost var d := Delivery(w, q[0], fetch(q[0]));
        ServedOne(got, d, q, old(processed), old(log), w, fetch);
        AllRespondedAppend(got, d);
        got := got + [d];
      }
    }

    /** The bookkeeping of one more hand-off `d` of the front of `q` to worker `w`. */
    lemma ServedOne(got: seq<Delivery>, d: Delivery, q: seq<string>, processed0: seq<Delivery>, log0: seq<LogEntry>, w: nat, fetch: string -> Fetched)
      requires q != [] && d.entity == q[0] && d.worker == w && d.fetched == fetch(q[0]) && ServedBy(got, w, fetch)
      ensures Entities(got + [d]) + q[1..] == Entities(got) + q
      ensures (processed0 + got) + [d] == processed0 + (got + [d])
      ensures (log0 + RequestLines(got, longResponse)) + RequestLine(d, longResponse) == log0 + RequestLines(got + [d], longResponse)
      ensures ServedBy(got + [d], w, fetch)
    {
      EntitiesSnoc(got, d);
      MoveFront(Entities(got), q);
      AppendAssoc(processed0, got, [d]);
      RequestLinesAppend(got, d, longResponse);
      AppendAssoc(log0, RequestLines(got, longResponse), RequestLine(d, longResponse));
      ServedByAppend(got, [d], w, fetch);
    }

    /** Worker `receiver-w` takes every queued entity in turn, never meeting an empty
        queue, every request getting a response. */
    method DrainQueue(w: nat, fetch: string -> Fetched) returns (ghost got: seq<Delivery>)
      requires Valid() && w !in exited
      requires forall e :: fetch(e).Responded?
      modifies this`queue, this`processed, this`log, this`rows, this`exited
      ensures Valid() && exited == old(exited) && queue == []
      ensures processed == old(processed) + got && Entities(got) == old(queue)
      ensures ServedBy(got, w, fetch) && Loads(log) == Loads(old(log))
    {
      got := [];
      while queue != []
        invariant Valid() && exited == old(exited)
        invariant processed == old(processed) + got
        invariant Entities(got) + queue == old(queue)
        invariant ServedBy(got, w, fetch)
        invariant Loads(log) == Loads(old(log))
        decreases |queue|
      {
        ghost var q, log0 := queue, log;
        // a worker pass on a non-empty queue is its `queue.get()` branch
        var stop := Handle(w, fetch);
        ghost var d := Delivery(w, q[0], fetch(q[0]));
        ServedOne(got, d, q, old(processed), old(log), w, fetch);
        LoadsKeptByRequest(log0, log, d, longResponse);
        got := got + [d];
      }
      assert Entities(got) + [] == Entities(got);
    }

    /** A feeder pass that finds the queue empty: the feeder ends if its backlog is
        empty, and loads and logs one batch otherwise. `load` is its `data_range_to`. */
    method Refill() returns (load: int)
      requires Valid() && Stripped() && !feederExited && queue == []
      modifies this`data, this`queue, this`log, this`feederExited, this`taken
      ensures Valid() && load == RangeTo(|old(data)|, batchSize)
      ensures feederExited <==> old(data) == []
      ensures old(data) != [] ==> data == old(data)[Moved(|old(data)|, batchSize)..]
      ensures log == old(log) + (if old(data) != [] then [Loaded(load)] else [])
    {
      load := RangeTo(|data|, batchSize);
      FeederStep();
    }

    /** One feeder pass followed by worker `receiver-w` taking every entity it queued,
        every request getting a response. */
    method FeedAndDrain(w: nat, fetch: string -> Fetched) returns (load: int, ghost more: seq<Delivery>)
      requires Valid() && Stripped() && !feederExited && queue == [] && w !in exited
      requires forall e :: fetch(e).Responded?
      modifies this`data, this`queue, this`log, this`feederExited, this`taken
      modifies this`processed, this`rows, this`exited
      ensures Valid() && queue == [] && exited == old(exited)
      ensures processed == old(processed) + more
      ensures ServedBy(more, w, fetch)
      ensures feederExited <==> old(data) == []
      ensures old(data) != [] ==>
        data == old(data)[Moved(|old(data)|, batchSize)..] && load == RangeTo(|old(data)|, batchSize)
      ensures Loads(log) == Loads(old(log)) + (if old(data) != [] then [load] else [])
    {
      ghost var fed, log0 := data != [], log;
      load := Refill();
      ghost var log1 := log;
      more := DrainQueue(w, fetch);
      LoadsPass(log0, log1, log, fed, load);
    }

    /** The feeder's whole loop under the schedule in which worker `receiver-w` drains
        every batch before the feeder looks at the queue again, every request getting a
        response. The feeder performs one batch per entry of BatchLengths, so
        ceil(B / BATCH_SIZE) batches, ends with `data` empty, and every line reaches
        `receiver-w` stripped and in file order. */
    method RunFeederDrained(w: nat, fetch: string -> Fetched) returns (loads: seq<int>, ghost got: seq<Delivery>)
      requires Valid() && Stripped() && !feederExited && queue == [] && w !in exited && batchSize >= 1
      requires forall e :: fetch(e).Responded?
      modifies this`data, this`queue, this`log, this`feederExited, this`taken
      modifies this`processed, this`rows, this`exited
      ensures Valid() && feederExited && data == [] && queue == [] && exited == old(exited)
      ensures loads == BatchLengths(|old(data)|, batchSize) && Loads(log) == Loads(old(log)) + loads
      ensures processed == old(processed) + got && Entities(got) == StripAll(old(data))
      ensures ServedBy(got, w, fetch)
    {
      loads := [];
      got := [];
      assert Entities(processed) + [] == entities[..taken];
      while !feederExited
        invariant Valid() && queue == [] && exited == old(exited)
        invariant loads + BatchLengths(|data|, batchSize) == BatchLengths(|old(data)|, batchSize)
        invariant processed == old(processed) + got
        invariant ServedBy(got, w, fetch)
        invariant Loads(log) == Loads(old(log)) + loads
        decreases |data| + (if feederExited then 0 else 1)
      {
        ghost var remaining := |data|;
        var load;
        ghost var more;
        load, more := FeedAndDrain(w, fetch);
        if !feederExited {
          LoadsStep(loads, remaining, |data|, load, BatchLengths(|old(data)|, batchSize), batchSize);
          AppendAssoc(Loads(old(log)), loads, [load]);
          loads := loads + [load];
        }
        ServedByAppend(got, more, w, fetch);
        AppendAssoc(old(processed), got, more);
        got := got + more;
      }
      assert loads + [] == loads;
      EntitiesConcat(old(processed), got);
      assert Entities(processed) + [] == entities[..taken];
      DeliveredBetween(entities, Entities(old(processed)), Entities(got), old(taken), taken);
      assert entities[old(taken)..taken] == entities[old(taken)..];
      StripAllDrop(backlog, old(taken));
    }

    /** The feeder's turn in a schedule: one pass of its loop unless it has ended. */
    method FeederTurn()
      requires Valid() && Stripped()
      modifies this`data, this`queue, this`log, this`feederExited, this`taken
      ensures Valid() && old(taken) <= taken && (old(feederExited) ==> feederExited)
    {
      if !feederExited {
        FeederStep();
      }
    }

    /** Worker `receiver-w`'s turn in a schedule: one pass of its loop unless its process
        has ended. */
    method WorkerTurn(w: nat, fetch: string -> Fetched)
      requires Valid()
      modifies this`queue, this`processed, this`log, this`rows, this`exited
      ensures Valid() && old(processed) <= processed && old(exited) <= exited
    {
      if w !in exited {
        var stop := WorkerStep(w, fetch);
      }
    }

    /** One step of the schedule. The hand-off invariant is kept, the shared flag is not
        written, hand-offs are only appended, ended processes stay ended, and lines only
        ever leave the backlog. */
    method Take(s: Step, fetch: string -> Fetched)
      requires Valid() && Stripped()
      modifies this`data, this`queue, this`log, this`feederExited, this`taken
      modifies this`processed, this`rows, this`exited
      ensures Valid()
      ensures old(processed) <= processed && old(exited) <= exited && old(taken) <= taken
      ensures old(feederExited) ==> feederExited
    {
      match s
      case FeederIteration => FeederTurn();
      case WorkerIteration(w) => WorkerTurn(w, fetch);
    }

    /** Any sequential interleaving of feeder and worker steps. `respond(t, e)` is the
        response step `t` gets for `e`, so requests for one entity may be answered
        differently. */
    method Interleave(schedule: seq<Step>, respond: (nat, string) -> Fetched)
      requires Valid() && Stripped()
      modifies this`data, this`queue, this`log, this`feederExited, this`taken
      modifies this`processed, this`rows, this`exited
      ensures Valid()
      ensures old(processed) <= processed && old(exited) <= exited && old(taken) <= taken
      ensures old(feederExited) ==> feederExited
    {
      for t := 0 to |schedule|
        invariant Valid()
        invariant old(processed) <= processed && old(exited) <= exited && old(taken) <= taken
        invariant old(feederExited) ==> feederExited
      {
        Take(schedule[t], e => respond(t, e));
      }
    }
  }

  /** The three lines of the example job file become the entities `a`, `b` and `c`. */
  lemma ThreeLinesStrip()
    ensures StripAll(["a\n", "b\n", "c\n"]) == ["a", "b", "c"]
  {
    var lines := ["a\n", "b\n", "c\n"];
    StripDropsNewline("a");
    StripDropsNewline("b");
    StripDropsNewline("c");
    StripAllAt(lines, 0);
    StripAllAt(lines, 1);
    StripAllAt(lines, 2);
    assert "a\n" == "a" + "\n" && "b\n" == "b" + "\n" && "c\n" == "c" + "\n";
  }

  /** The rows for the deliveries of `a`, `b` and `c` to `receiver-0` from a server that
      answers 500 for `b` and 200 for the others at once. */
  lemma ThreeRows(ds: seq<Delivery>, fetch: string -> Fetched)
    requires Entities(ds) == ["a", "b", "c"] && ServedBy(ds, 0, fetch)
    requires fetch("a") == Responded(200, 0, "") && fetch("b") == Responded(500, 0, "") && fetch("c") == Responded(200, 0, "")
    ensures RowsOf(ds) == [Row(0, "a", 200, 0, ""), Row(0, "b", 500, 0, ""), Row(0, "c", 200, 0, "")]
  {
    assert |ds| == 3 && ds[0].entity == "a" && ds[1].entity == "b" && ds[2].entity == "c" by {
      assert |Entities(ds)| == |ds|;
      assert Entities(ds)[0] == ds[0].entity && Entities(ds)[1] == ds[1].entity && Entities(ds)[2] == ds[2].entity;
    }
    assert ds[0] == Delivery(0, "a", Responded(200, 0, ""));
    assert ds[1] == Delivery(0, "b", Responded(500, 0, ""));
    assert ds[2] == Delivery(0, "c", Responded(200, 0, ""));
    assert AllResponded(ds);
    RowsOfAllResponded(ds);
  }

  /** A job file of the three lines `a`, `b` and `c`, `BATCH_SIZE=2`, a database
      configured, and a server that answers 500 for `b` and 200 for the others at once,
      run with worker `receiver-0` draining every batch. The feeder logs a batch of 2
      and then a batch of 1. The results table gets one row per line, in file order, and
      `b`'s row carries code 500. */
  method ThreeLineJob() returns (loaded: seq<int>, rows: seq<Row>)
    ensures loaded == [2, 1]
    ensures rows == [Row(0, "a", 200, 0, ""), Row(0, "b", 500, 0, ""), Row(0, "c", 200, 0, "")]
  {
    var fetch := (e: string) => if e == "b" then Responded(500, 0, "") else Responded(200, 0, "");
    var run := new Run(["a\n", "b\n", "c\n"], 2, 1, true);
    ThreeLinesTwoPerBatch();
    ThreeLinesStrip();
    var loads;
    ghost var got;
    loads, got := run.RunFeederDrained(0, fetch);
    loaded := Loads(run.log);
    rows := run.rows;
    assert loaded == [] + loads;
    ThreeRows(got, fetch);
    assert run.processed == got;
  }
}
