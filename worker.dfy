/** What one worker iteration (`process_worker`) does with an entity: the response it
    gets, the log level it picks, and the row it stores. */
module Worker {

  /** What `requests.get` gives back for one entity: a response with its status code,
      `elapsed` in whole microseconds and body text, or an exception (a connection
      failure, say), which nothing in `process_worker` catches. */
  datatype Fetched =
    | Responded(status: int, elapsed: nat, body: string)
    | Raised

  /** The loguru level of a request line. */
  datatype Level = Error | Warning | Info

  const MicrosPerSecond: int := 1_000_000

  /** The level of the line for a response, with `longResponse` standing for
      `int(LONG_RESPONSE)` seconds. `timedelta` holds whole microseconds, so comparing
      `elapsed` with `timedelta(seconds=longResponse)` is comparing microsecond counts. */
  function Classify(status: int, elapsed: nat, longResponse: int): (level: Level)
    ensures level == Error <==> status != 200
    ensures level == Warning <==> status == 200 && elapsed > longResponse * MicrosPerSecond
    ensures level == Info <==> status == 200 && elapsed <= longResponse * MicrosPerSecond
  {
    if status != 200 then Error
    else if elapsed > longResponse * MicrosPerSecond then Warning
    else Info
  }

  /** Any non-200 status is an error however fast the answer came. */
  lemma ErrorIgnoresElapsed(status: int, e1: nat, e2: nat, longResponse: int)
    requires status != 200
    ensures Classify(status, e1, longResponse) == Classify(status, e2, longResponse) == Error
  {
  }

  /** For a 200 response a longer wait never makes the level better, and a larger
      threshold never makes it worse. */
  lemma SlowerIsNoBetter(e1: nat, e2: nat, t1: int, t2: int)
    requires e1 <= e2 && t2 <= t1
    ensures Classify(200, e1, t1) == Warning ==> Classify(200, e2, t2) == Warning
    ensures Classify(200, e2, t2) == Info ==> Classify(200, e1, t1) == Info
  {
    assert t2 * MicrosPerSecond <= t1 * MicrosPerSecond;
  }

  /** One hand-off of an entity from the queue to a worker: the worker's index `i` (its
      process is named `receiver-i`), the entity, and what its request gave back. */
  datatype Delivery = Delivery(worker: nat, entity: string, fetched: Fetched)

  /** One row of the results table: the columns `process`, `entity`, `code`,
      `response_time` and `response_content` (the server fills in `ts`). */
  datatype Row = Row(process: nat, entity: string, code: int, responseTime: nat, content: string)

  /** Every delivery in `ds` went to worker `w` and got what `fetch` answers for its
      entity. */
  predicate ServedBy(ds: seq<Delivery>, w: nat, fetch: string -> Fetched) {
    forall k :: 0 <= k < |ds| ==> ds[k].worker == w && ds[k].fetched == fetch(ds[k].entity)
  }

  lemma ServedByAppend(a: seq<Delivery>, b: seq<Delivery>, w: nat, fetch: string -> Fetched)
    requires ServedBy(a, w, fetch) && ServedBy(b, w, fetch)
    ensures ServedBy(a + b, w, fetch)
  {
    forall k | 0 <= k < |a + b| ensures (a + b)[k].worker == w && (a + b)[k].fetched == fetch((a + b)[k].entity) {
      if k >= |a| { assert (a + b)[k] == b[k - |a|]; }
    }
  }

  /** Every request in `ds` got a response. */
  predicate AllResponded(ds: seq<Delivery>) {
    forall k :: 0 <= k < |ds| ==> ds[k].fetched.Responded?
  }

  lemma AllRespondedAppend(a: seq<Delivery>, d: Delivery)
    requires AllResponded(a) && d.fetched.Responded?
    ensures AllResponded(a + [d])
  {
    forall k | 0 <= k < |a| + 1 ensures (a + [d])[k].fetched.Responded? {
      if k < |a| { assert (a + [d])[k] == a[k]; }
    }
  }

  /** The entities of a sequence of deliveries, in order. */
  function Entities(ds: seq<Delivery>): (es: seq<string>) {
    seq(|ds|, k requires 0 <= k < |ds| => ds[k].entity)
  }

  lemma EntitiesConcat(a: seq<Delivery>, b: seq<Delivery>)
    ensures Entities(a + b) == Entities(a) + Entities(b)
  {
  }

  lemma EntitiesSnoc(ds: seq<Delivery>, d: Delivery)
    ensures Entities(ds + [d]) == Entities(ds) + [d.entity]
  {
    EntitiesConcat(ds, [d]);
    assert Entities([d]) == [d.entity];
  }

  /** The row a worker inserts for one delivery: none for a request that raised (the
      exception ends the worker before the insert). */
  function RowOf(d: Delivery): seq<Row> {
    match d.fetched
    case Responded(status, elapsed, body) => [Row(d.worker, d.entity, status, elapsed, body)]
    case Raised => []
  }

  /** The rows a worker inserts for a sequence of deliveries, in order. */
  function RowsOf(ds: seq<Delivery>): seq<Row> {
    if ds == [] then [] else RowsOf(ds[..|ds| - 1]) + RowOf(ds[|ds| - 1])
  }

  lemma RowsOfAppend(ds: seq<Delivery>, d: Delivery)
    ensures RowsOf(ds + [d]) == RowsOf(ds) + RowOf(d)
  {
    assert (ds + [d])[..|ds|] == ds;
  }

  /** When every request got a response there is exactly one row per delivery, in
      delivery order, carrying the worker, the entity and the response. */
  lemma {:induction false} RowsOfAllResponded(ds: seq<Delivery>)
    requires AllResponded(ds)
    ensures |RowsOf(ds)| == |ds|
    ensures forall k :: 0 <= k < |ds| ==>
      var row, d := RowsOf(ds)[k], ds[k];
      row == Row(d.worker, d.entity, d.fetched.status, d.fetched.elapsed, d.fetched.body)
  {
    if ds != [] {
      var init := ds[..|ds| - 1];
      RowsOfAllResponded(init);
      assert ds == init + [ds[|ds| - 1]];
      RowsOfAppend(init, ds[|ds| - 1]);
    }
  }}
