/** The time budget of `store_in_weaviate`: a StartToClose formula over the number of chunks
    and a heartbeat window, against every schedule of the embedding batches.

    Times are whole seconds for the formula and reals for the schedules. */
module StoreBudget {
  import opened Order

  // DEFAULT_BATCH_SIZE, DEFAULT_BATCH_MAX_RETRIES, DEFAULT_TIMEOUT_S,
  // BATCH_RETRY_SLEEP_BUDGET_S, STORE_FIXED_OVERHEAD_SECONDS, STORE_MAX_TIMEOUT_SECONDS
  const BATCH_SIZE: nat := 32
  const MAX_RETRIES: nat := 3
  const TIMEOUT: nat := 30
  const SLEEP_BUDGET: nat := 10
  const OVERHEAD: nat := 30
  const MAX_SECONDS: nat := 7200

  const SECONDS_PER_BATCH: nat := MAX_RETRIES * TIMEOUT + SLEEP_BUDGET
  const HEARTBEAT_TIMEOUT: nat := 2 * SECONDS_PER_BATCH

  function BatchCount(chunks: nat, size: nat): nat
    requires 0 < size
  {
    (chunks + size - 1) / size
  }

  function TimeoutSeconds(chunkCount: int, batchSize: int): int {
    var n := if chunkCount < 0 then 0 else chunkCount;
    var size := if batchSize < 1 then 1 else batchSize;
    var batches := if n > 0 then (if BatchCount(n, size) < 1 then 1 else BatchCount(n, size)) else 1;
    var raw := batches * SECONDS_PER_BATCH + OVERHEAD;
    if raw < MAX_SECONDS then raw else MAX_SECONDS
  }

  // ---------------------------------------------------------------------------
  // Schedules
  // ---------------------------------------------------------------------------

  /** When each batch took a slot and when it finished. */
  datatype Schedule = Schedule(start: seq<real>, finish: seq<real>)

  /** Batch j finished at the very moment batch i took its slot. */
  predicate Frees(s: Schedule, j: nat, i: nat)
    requires |s.start| == |s.finish|
  {
    j < |s.start| && i < |s.start| && s.start[j] < s.start[i] && s.finish[j] == s.start[i]
  }

  /** Batch i started at once, or when another finished. */
  ghost predicate AtOnceOrFreed(s: Schedule, i: nat)
    requires |s.start| == |s.finish| && i < |s.start|
  {
    s.start[i] == 0.0 || exists j: nat :: Frees(s, j, i)
  }

  /** With at least one slot, a batch starts at once or when an earlier one frees its slot;
      each takes a positive time, at most `most`. */
  ghost predicate Valid(s: Schedule, most: real) {
    && |s.start| == |s.finish|
    && (forall i :: 0 <= i < |s.start| ==> 0.0 <= s.start[i] < s.finish[i] <= s.start[i] + most)
    && (forall i: nat :: i < |s.start| ==> AtOnceOrFreed(s, i))
  }

  /** The batches that started strictly before a moment. */
  function Before(s: Schedule, t: real): set<nat> {
    set j | 0 <= j < |s.start| && s.start[j] < t
  }

  /** The time that n batches take one after the other. */
  function Serial(most: real, n: nat): real {
    if n == 0 then 0.0 else Serial(most, n - 1) + most
  }

  lemma {:induction false} SerialGrows(most: real, a: nat, b: nat)
    requires 0.0 <= most && a <= b
    ensures Serial(most, a) <= Serial(most, b)
  {
    if a < b {
      SerialGrows(most, a, b - 1);
    }
  }

  lemma {:induction false} SerialBudgets(n: nat)
    ensures Serial(SECONDS_PER_BATCH as real, n) == (n * SECONDS_PER_BATCH) as real
  {
    if n > 0 {
      SerialBudgets(n - 1);
    }
  }

  /** A batch has waited for at most the batches that started before it. */
  lemma {:induction false} WaitsForEarlier(s: Schedule, most: real, i: nat)
    requires Valid(s, most) && 0.0 <= most && i < |s.start|
    ensures s.finish[i] <= Serial(most, 1 + |Before(s, s.start[i])|)
    decreases |Before(s, s.start[i])|
  {
    assert AtOnceOrFreed(s, i);
    if s.start[i] != 0.0 {
      var j: nat :| Frees(s, j, i);
      var earlier, all := Before(s, s.start[j]), Before(s, s.start[i]);
      assert j in all && j !in earlier;
      assert earlier + {j} <= all;
      SubsetSize(earlier + {j}, all);
      WaitsForEarlier(s, most, j);
      SerialGrows(most, 1 + |earlier|, |all|);
    } else {
      assert Before(s, 0.0) == {};
    }
  }

  lemma {:induction false} BeforeIsFew(s: Schedule, n: nat, i: nat)
    requires n <= |s.start| && i < |s.start|
    ensures |set j | 0 <= j < n && s.start[j] < s.start[i]| <= n
    ensures i < n ==> |set j | 0 <= j < n && s.start[j] < s.start[i]| < n
  {
    var all := set j | 0 <= j < n && s.start[j] < s.start[i];
    if n == 0 {
      assert all == {};
    } else {
      BeforeIsFew(s, n - 1, i);
      var fewer := set j | 0 <= j < n - 1 && s.start[j] < s.start[i];
      assert all == fewer + if s.start[n - 1] < s.start[i] then {n - 1} else {};
    }
  }

  /** Whatever the number of slots, n batches are done within n batch budgets. */
  lemma SerialBound(s: Schedule, most: real, i: nat)
    requires Valid(s, most) && 0.0 <= most && i < |s.start|
    ensures s.finish[i] <= Serial(most, |s.start|)
  {
    WaitsForEarlier(s, most, i);
    BeforeIsFew(s, |s.start|, i);
    assert Before(s, s.start[i]) == set j | 0 <= j < |s.start| && s.start[j] < s.start[i];
    SerialGrows(most, 1 + |Before(s, s.start[i])|, |s.start|);
  }

  /** The batch that is unfinished at time t and started first. */
  lemma FirstUnfinished(s: Schedule, most: real, t: real, i: nat) returns (b: nat)
    requires Valid(s, most) && i < |s.start| && t < s.finish[i]
    ensures b < |s.start| && t < s.finish[b]
    ensures forall j :: 0 <= j < |s.start| && t < s.finish[j] ==> s.start[b] <= s.start[j]
  {
    b := i;
    for k := 0 to |s.start|
      invariant b < |s.start| && t < s.finish[b]
      invariant forall j :: 0 <= j < k && t < s.finish[j] ==> s.start[b] <= s.start[j]
    {
      if t < s.finish[k] && s.start[k] < s.start[b] {
        b := k;
      }
    }
  }

  /** Heartbeats never dry up: from any moment before the end, some batch finishes within one
      batch budget. */
  lemma NextCompletionIsNear(s: Schedule, most: real, t: real, i: nat) returns (b: nat)
    requires Valid(s, most) && 0.0 <= t && i < |s.start| && t < s.finish[i]
    ensures b < |s.start| && t < s.finish[b] <= t + most
  {
    b := FirstUnfinished(s, most, t, i);
    assert AtOnceOrFreed(s, b);
  }

  // ---------------------------------------------------------------------------
  // A semaphore makes such schedules
  // ---------------------------------------------------------------------------

  /** The slot that is free first. */
  method EarliestSlot(free: seq<real>) returns (slot: nat)
    requires free != []
    ensures slot < |free| && forall k :: 0 <= k < |free| ==> free[slot] <= free[k]
  {
    slot := 0;
    for k := 1 to |free|
      invariant slot < |free| && forall l :: 0 <= l < k ==> free[slot] <= free[l]
    {
      if free[k] < free[slot] {
        slot := k;
      }
    }
  }

  /** The batches take the slots in order, each the one that frees first. */
  method Simulate(durations: seq<real>, slots: nat, most: real) returns (s: Schedule)
    requires 0 < slots && forall i :: 0 <= i < |durations| ==> 0.0 < durations[i] <= most
    ensures |s.start| == |durations| && Valid(s, most)
    ensures forall i :: 0 <= i < |durations| ==> s.finish[i] == s.start[i] + durations[i]
  {
    var free := seq(slots, i => 0.0);
    s := Schedule([], []);
    for i := 0 to |durations|
      invariant |s.start| == i && |free| == slots && Valid(s, most)
      invariant forall j :: 0 <= j < i ==> s.finish[j] == s.start[j] + durations[j]
      invariant forall k :: 0 <= k < slots ==> free[k] == 0.0 || exists j :: 0 <= j < i && s.finish[j] == free[k]
    {
      var slot := EarliestSlot(free);
      var at := free[slot];
      ghost var before := s;
      s := Schedule(s.start + [at], s.finish + [at + durations[i]]);
      if at != 0.0 {
        ghost var j: nat :| j < i && before.finish[j] == at;
        assert Frees(s, j, i);
      }
      forall l: nat | l <= i ensures AtOnceOrFreed(s, l) {
        if l < i && s.start[l] != 0.0 {
          assert AtOnceOrFreed(before, l);
          var j: nat :| Frees(before, j, l);
          assert Frees(s, j, l);
        }
      }
      ghost var was := free;
      free := free[slot := at + durations[i]];
      forall k | 0 <= k < slots && free[k] != 0.0 ensures exists j :: 0 <= j < i + 1 && s.finish[j] == free[k] {
        if k == slot {
          assert s.finish[i] == free[k];
        } else {
          var j :| 0 <= j < i && before.finish[j] == was[k];
          assert s.finish[j] == free[k];
        }
      }
    }
  }

  // ---------------------------------------------------------------------------
  // The formula covers them
  // ---------------------------------------------------------------------------

  lemma {:induction false} Multiply(a: nat, b: nat, d: nat)
    requires a <= b
    ensures a * d <= b * d
  {
    if d > 0 {
      Multiply(a, b, d - 1);
      assert a * d == a * (d - 1) + a && b * d == b * (d - 1) + b;
    }
  }

  /** Division by d, as multiples of d. */
  lemma Quotient(n: nat, d: nat)
    requires 0 < d
    ensures n / d * d <= n < (n / d + 1) * d
  {
    assert n == n / d * d + n % d;
  }

  lemma AtMost(a: nat, b: nat, d: nat)
    requires a * d < (b + 1) * d
    ensures a <= b
  {
    if b < a {
      Multiply(b + 1, a, d);
    }
  }

  /** Bigger batches and fewer texts never need more batches. */
  lemma FewerBatches(texts: nat, chunks: nat, size: nat)
    requires texts <= chunks && BATCH_SIZE <= size
    ensures BatchCount(texts, size) <= BatchCount(chunks, BATCH_SIZE)
  {
    var q, r := BatchCount(chunks, BATCH_SIZE), BatchCount(texts, size);
    assert texts <= BATCH_SIZE * q;
    Multiply(BATCH_SIZE, size, q);
    Quotient(texts + size - 1, size);
    assert (q + 1) * size == size * q + size;
    AtMost(r, q, size);
  }

  lemma TimeoutShape(chunks: nat)
    requires 0 < chunks
    ensures var raw := BatchCount(chunks, BATCH_SIZE) * SECONDS_PER_BATCH + OVERHEAD;
            && (chunks <= 2272 ==> TimeoutSeconds(chunks, BATCH_SIZE) == raw)
            && (chunks > 2272 ==> TimeoutSeconds(chunks, BATCH_SIZE) == MAX_SECONDS < raw)
  {
  }

  /** Every schedule of a document of up to 2272 chunks ends within the budget less its fixed
      overhead, whatever the concurrency, for any batch size of at least the default. */
  lemma BudgetCoversEverySchedule(chunks: nat, texts: nat, size: nat, s: Schedule, i: nat)
    requires texts <= chunks <= 2272 && BATCH_SIZE <= size
    requires Valid(s, SECONDS_PER_BATCH as real) && |s.start| == BatchCount(texts, size) && i < |s.start|
    ensures s.finish[i] <= (TimeoutSeconds(chunks, BATCH_SIZE) - OVERHEAD) as real
  {
    FewerBatches(texts, chunks, size);
    var n := BatchCount(chunks, BATCH_SIZE);
    assert chunks > 0;
    TimeoutShape(chunks);
    WithinBatches(s, n, i);
  }

  lemma WithinBatches(s: Schedule, n: nat, i: nat)
    requires Valid(s, SECONDS_PER_BATCH as real) && |s.start| <= n && i < |s.start|
    ensures s.finish[i] <= (n * SECONDS_PER_BATCH) as real
  {
    SerialBound(s, SECONDS_PER_BATCH as real, i);
    SerialGrows(SECONDS_PER_BATCH as real, |s.start|, n);
    SerialBudgets(n);
  }

  function Elapsed(n: nat): real { Serial(SECONDS_PER_BATCH as real, n) }

  /** The serial schedule in which every batch uses its whole budget. */
  function Slowest(n: nat): Schedule {
    Schedule(seq(n, i requires 0 <= i => Elapsed(i)), seq(n, i requires 0 <= i => Elapsed(i + 1)))
  }

  lemma SlowestIsValid(n: nat)
    ensures Valid(Slowest(n), SECONDS_PER_BATCH as real)
  {
    var s := Slowest(n);
    forall i | 0 <= i < n ensures 0.0 <= s.start[i] {
      SerialGrows(SECONDS_PER_BATCH as real, 0, i);
    }
    forall i: nat | i < n ensures AtOnceOrFreed(s, i) {
      if i > 0 {
        assert Frees(s, i - 1, i);
      }
    }
  }

  /** The budget without its overhead covers a schedule of the document's batches. */
  ghost predicate Covers(chunks: nat, s: Schedule) {
    Valid(s, SECONDS_PER_BATCH as real) && |s.start| == BatchCount(chunks, BATCH_SIZE) ==>
      forall i :: 0 <= i < |s.start| ==> s.finish[i] <= (TimeoutSeconds(chunks, BATCH_SIZE) - OVERHEAD) as real
  }

  /** The cap is exact: a chunk count is covered for every schedule precisely up to 2272. */
  lemma CoveredExactly(chunks: nat)
    ensures (forall s :: Covers(chunks, s)) <==> chunks <= 2272
  {
    if chunks <= 2272 {
      forall s ensures Covers(chunks, s) {
        if Valid(s, SECONDS_PER_BATCH as real) && |s.start| == BatchCount(chunks, BATCH_SIZE) {
          forall i | 0 <= i < |s.start|
            ensures s.finish[i] <= (TimeoutSeconds(chunks, BATCH_SIZE) - OVERHEAD) as real
          {
            BudgetCoversEverySchedule(chunks, chunks, BATCH_SIZE, s, i);
          }
        }
      }
    } else {
      SlowestIsTooSlow(chunks);
    }
  }

  lemma SlowestIsTooSlow(chunks: nat)
    requires chunks > 2272
    ensures !Covers(chunks, Slowest(BatchCount(chunks, BATCH_SIZE)))
  {
    var n := BatchCount(chunks, BATCH_SIZE);
    var s := Slowest(n);
    SlowestIsValid(n);
    TimeoutShape(chunks);
    SerialBudgets(n);
    assert s.finish[n - 1] == Elapsed(n);
  }

  /** A gap between two completions never exceeds half of the heartbeat window. */
  lemma HeartbeatHasMargin(s: Schedule, t: real, i: nat) returns (b: nat)
    requires Valid(s, SECONDS_PER_BATCH as real) && 0.0 <= t && i < |s.start| && t < s.finish[i]
    ensures b < |s.start| && t < s.finish[b] && 2.0 * (s.finish[b] - t) <= HEARTBEAT_TIMEOUT as real == 200.0
  {
    b := NextCompletionIsNear(s, SECONDS_PER_BATCH as real, t, i);
  }

  /** The budget in numbers: 100 seconds a batch and 30 more, capped at two hours; no chunks count
      as one batch, and a batch size below 1 counts as 1. */
  lemma TimeoutExactly(chunks: int, size: int, batches: nat)
    requires chunks > 0 && size > 0 ==> (batches - 1) * size < chunks <= batches * size
    ensures chunks <= 0 ==> TimeoutSeconds(chunks, size) == 130
    ensures size <= 0 ==> TimeoutSeconds(chunks, size) == TimeoutSeconds(chunks, 1)
    ensures chunks > 0 && size > 0 ==>
              TimeoutSeconds(chunks, size) == if 100 * batches + 30 < 7200 then 100 * batches + 30 else 7200
  {
    if chunks > 0 && size > 0 {
      var q := BatchCount(chunks, size);
      Quotient(chunks + size - 1, size);
      assert (q + 1) * size == q * size + size && (batches + 1) * size == batches * size + size;
      assert batches > 0 && (batches - 1) * size == batches * size - size;
      AtMost(q, batches, size);
      AtMost(batches, q, size);
    }
  }

  /** The budget grows with the chunk count, and stays between one batch and the cap. */
  lemma TimeoutIsMonotone(fewer: int, more: int, size: int)
    requires fewer <= more
    ensures SECONDS_PER_BATCH + OVERHEAD <= TimeoutSeconds(fewer, size) <= TimeoutSeconds(more, size) <= MAX_SECONDS
  {
    var d := if size < 1 then 1 else size;
    if 0 < fewer {
      BatchesAreMonotone(fewer, more, d);
    }
  }

  lemma BatchesAreMonotone(fewer: nat, more: nat, size: nat)
    requires fewer <= more && 0 < size
    ensures BatchCount(fewer, size) <= BatchCount(more, size)
  {
    Quotient(fewer + size - 1, size);
    Quotient(more + size - 1, size);
    AtMost(BatchCount(fewer, size), BatchCount(more, size), size);
  }
}
