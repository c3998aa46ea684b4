/** The arithmetic of the feeder's batching loop (`process_feeder`): how many lines one
    iteration moves, and how many iterations a backlog needs when every batch is
    drained before the feeder looks at the queue again. */
module Feeder {

  /** `data_range_to`: the batch size one iteration logs and loops up to, for a backlog
      of `remaining` lines and the configured `BATCH_SIZE`. */
  function RangeTo(remaining: nat, batchSize: int): int {
    if remaining > batchSize then batchSize else remaining
  }

  /** How many lines `for i in range(0, data_range_to)` pops: a `range` with a negative
      end is empty. */
  function Moved(remaining: nat, batchSize: int): (n: nat)
    ensures n <= remaining
    ensures batchSize >= 0 ==> n <= batchSize
    ensures remaining > batchSize >= 0 ==> n == batchSize
    ensures 0 <= remaining <= batchSize ==> n == remaining
    ensures batchSize <= 0 ==> n == 0
    ensures batchSize >= 1 && remaining >= 1 ==> n >= 1
  {
    var r := RangeTo(remaining, batchSize);
    if r < 0 then 0 else r
  }

  /** `c` is ceil(n / k): the smallest number of batches of at most `k` lines that hold
      `n` lines. The two bounds fix `c` uniquely (see CeilingUnique). */
  predicate IsCeiling(c: int, n: int, k: int) {
    (c - 1) * k < n <= c * k
  }

  /** The `data_range_to` values the feeder logs, one per batch, when every batch has
      been drained by the time the feeder checks the queue again. */
  function BatchLengths(remaining: nat, batchSize: int): seq<int>
    requires batchSize >= 1
    decreases remaining
  {
    if remaining == 0 then []
    else [RangeTo(remaining, batchSize)] + BatchLengths(remaining - Moved(remaining, batchSize), batchSize)
  }

  function Sum(s: seq<int>): int {
    if s == [] then 0 else s[0] + Sum(s[1..])
  }

  lemma MulMonotone(a: int, b: int, k: int)
    requires k >= 0
    ensures a <= b ==> a * k <= b * k
  {
    if a <= b {
      assert b * k - a * k == (b - a) * k;
    }
  }

  /** IsCeiling has at most one solution. */
  lemma CeilingUnique(c: int, c': int, n: int, k: int)
    requires k >= 1 && IsCeiling(c, n, k) && IsCeiling(c', n, k)
    ensures c == c'
  {
    MulMonotone(c, c' - 1, k);
    MulMonotone(c', c - 1, k);
  }

  /** With `BATCH_SIZE >= 1` and every batch drained: the feeder performs exactly
      ceil(B / BATCH_SIZE) batches; every batch holds between 1 and BATCH_SIZE lines, all
      but the last exactly BATCH_SIZE; together they move all B lines. With B = 0 there
      is no batch. */
  lemma {:induction false} BatchLengthsShape(remaining: nat, batchSize: int)
    requires batchSize >= 1
    ensures var b := BatchLengths(remaining, batchSize);
      IsCeiling(|b|, remaining, batchSize) &&
      Sum(b) == remaining &&
      (forall t :: 0 <= t < |b| ==> 1 <= b[t] <= batchSize) &&
      (forall t :: 0 <= t < |b| - 1 ==> b[t] == batchSize)
    decreases remaining
  {
    if remaining > 0 {
      var m := Moved(remaining, batchSize);
      var rest := BatchLengths(remaining - m, batchSize);
      BatchLengthsShape(remaining - m, batchSize);
      var b := BatchLengths(remaining, batchSize);
      assert b == [m] + rest;
      assert b[1..] == rest;
      assert (|rest| + 1) * batchSize == |rest| * batchSize + batchSize;
      forall t | 0 <= t < |b| ensures 1 <= b[t] <= batchSize {
        if t > 0 { assert b[t] == rest[t - 1]; }
      }
      forall t | 0 <= t < |b| - 1 ensures b[t] == batchSize {
        if t > 0 { assert b[t] == rest[t - 1]; }
      }
    }
  }

  /** The example run of a three-line job file with `BATCH_SIZE=2`: two batches, of two
      lines and then one. */
  lemma ThreeLinesTwoPerBatch()
    ensures BatchLengths(3, 2) == [2, 1]
  {
    assert BatchLengths(1, 2) == [1] + BatchLengths(0, 2);
  }
}
