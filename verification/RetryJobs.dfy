/** Rows of `retry_jobs`, the statements that write them, and the backoff schedule. */
module RetryJobs {
  import opened Prelude

  datatype JobType =
    | AgreementCreation | MilestoneUpdate | StatusSync
    | ContractRetrieval | PaymentExecution | WebhookEventProcessing

  datatype JobStatus = Pending | Processing | Succeeded | Failed

  /** A row. Its id is its position in the table: rows are appended and never deleted. */
  datatype Job = Job(
    jobType: JobType, key: string, payload: string, status: JobStatus,
    attempts: nat, maxAttempts: int, nextAttemptAt: int,
    lastError: Option<string>, updatedAt: int, completedAt: Option<int>)

  datatype Config = Config(maxAttempts: int, baseDelay: int, maxDelay: int, concurrency: nat, staleAfter: int)

  datatype Request = Request(jobType: JobType, key: string, payload: string, maxAttempts: int)

  /** How one attempt ended. */
  datatype Outcome = NoHandler | Resolved | Rejected(message: string)

  // ---------------------------------------------------------------- backoff

  function Pow2(n: nat): int {
    if n == 0 then 1 else 2 * Pow2(n - 1)
  }

  /** The delay before any cap, after `k` doublings. */
  function Doubled(k: nat, base: int): int {
    base * Pow2(k)
  }

  function Backoff(attempt: int, base: int, cap: int): int {
    Min(Doubled(Max(attempt - 1, 0), base), cap)
  }

  lemma {:induction false} Pow2Positive(n: nat)
    ensures Pow2(n) >= 1
  {
    if n > 0 {
      Pow2Positive(n - 1);
    }
  }

  lemma DoubledGrows(k: nat, base: int)
    requires base >= 0
    ensures base <= Doubled(k, base) <= Doubled(k + 1, base)
  {
    Pow2Positive(k);
    assert base * Pow2(k + 1) == base * Pow2(k) + base * Pow2(k);
    assert base * (Pow2(k) - 1) >= 0;
  }

  lemma BackoffPositive(attempt: int, base: int, cap: int)
    requires base > 0 && cap > 0
    ensures Backoff(attempt, base, cap) > 0
  {
    DoubledGrows(Max(attempt - 1, 0), base);
  }

  /** The delays scheduled after the first n failures, in total. */
  function TotalDelay(n: nat, base: int, cap: int): int {
    if n == 0 then 0 else TotalDelay(n - 1, base, cap) + Backoff(n, base, cap)
  }

  /** How many of the first n delays stay under the cap. */
  function Uncapped(n: nat, base: int, cap: int): (m: nat)
    ensures m <= n
  {
    if n == 0 then 0 else Uncapped(n - 1, base, cap) + if Doubled(n - 1, base) < cap then 1 else 0
  }

  /** The uncapped delays come first. */
  lemma {:induction false} UncappedComeFirst(n: nat, base: int, cap: int)
    requires base >= 0
    ensures forall k: nat :: k < n ==> (Doubled(k, base) < cap <==> k < Uncapped(n, base, cap))
  {
    if n > 0 {
      UncappedComeFirst(n - 1, base, cap);
      if n > 1 {
        DoubledGrows(n - 2, base);
      }
    }
  }

  /** Closed form: the uncapped delays double, the others are the cap. */
  lemma {:induction false} TotalDelayClosedForm(n: nat, base: int, cap: int)
    requires base >= 0
    ensures var m := Uncapped(n, base, cap);
            TotalDelay(n, base, cap) == base * (Pow2(m) - 1) + (n - m) * cap
  {
    if n > 0 {
      TotalDelayClosedForm(n - 1, base, cap);
      UncappedComeFirst(n, base, cap);
      var m := Uncapped(n - 1, base, cap);
      if Doubled(n - 1, base) < cap {
        assert m == n - 1;
        OneMoreDoubling(m, base);
      } else {
        OneMoreCap(n - 1 - m, cap);
      }
    }
  }

  lemma OneMoreCap(k: int, cap: int)
    ensures (k + 1) * cap == k * cap + cap
  {
  }

  lemma OneMoreDoubling(m: nat, base: int)
    ensures base * (Pow2(m + 1) - 1) == base * (Pow2(m) - 1) + Doubled(m, base)
  {
  }

  // ---------------------------------------------------------------- row writes

  function NewJob(r: Request, now: int): Job {
    Job(r.jobType, r.key, r.payload, Pending, 0, r.maxAttempts, now, None, now, None)
  }

  function Started(row: Job, attempt: nat, now: int): Job {
    row.(status := Processing, attempts := attempt, updatedAt := now)
  }

  function Reclaimed(row: Job, now: int): Job {
    row.(status := Pending, updatedAt := now)
  }

  /** The closing write of an attempt; `attempt` and `maxAttempts` come from the worker's snapshot. */
  function Finished(config: Config, row: Job, attempt: nat, maxAttempts: int, outcome: Outcome, now: int): Job {
    match outcome
    case NoHandler =>
      row.(status := Failed, lastError := Some("No handler registered"), completedAt := Some(now), updatedAt := now)
    case Resolved =>
      row.(status := Succeeded, lastError := None, completedAt := Some(now), updatedAt := now)
    case Rejected(message) =>
      if attempt >= maxAttempts then
        row.(status := Failed, lastError := Some(message), completedAt := Some(now), updatedAt := now)
      else
        row.(status := Pending, lastError := Some(message),
             nextAttemptAt := now + Backoff(attempt, config.baseDelay, config.maxDelay), updatedAt := now)
  }

  // ---------------------------------------------------------------- queries

  function FindKey(rows: seq<Job>, key: string): (id: Option<nat>)
    ensures id.Some? ==> id.value < |rows| && rows[id.value].key == key
    ensures id == None ==> forall i :: 0 <= i < |rows| ==> rows[i].key != key
  {
    if rows == [] then None
    else
      var front := FindKey(rows[..|rows| - 1], key);
      if front.Some? then front
      else if rows[|rows| - 1].key == key then Some(|rows| - 1)
      else None
  }

  predicate IsDue(row: Job, now: int) {
    row.status == Pending && row.nextAttemptAt <= now
  }

  predicate IsStale(config: Config, row: Job, now: int) {
    row.status == Processing && row.updatedAt <= now - config.staleAfter
  }

  ghost predicate Ids(rows: seq<Job>, ids: seq<nat>) {
    && (forall k :: 0 <= k < |ids| ==> ids[k] < |rows|)
    && (forall j, k :: 0 <= j < k < |ids| ==> ids[j] != ids[k])
  }

  /** Every stale row, in whatever order the database returns them. */
  ghost predicate IsStaleSelection(config: Config, rows: seq<Job>, now: int, stale: seq<nat>) {
    && Ids(rows, stale)
    && (forall i: nat :: i < |rows| ==> (i in stale <==> IsStale(config, rows[i], now)))
  }

  /** The earliest due rows, at most `concurrency` of them, ties in any order. */
  ghost predicate IsDueSelection(config: Config, rows: seq<Job>, now: int, due: seq<nat>) {
    && Ids(rows, due)
    && |due| <= config.concurrency
    && (forall k :: 0 <= k < |due| ==> IsDue(rows[due[k]], now))
    && (forall j, k :: 0 <= j < k < |due| ==> rows[due[j]].nextAttemptAt <= rows[due[k]].nextAttemptAt)
    && (forall i: nat :: i < |rows| && IsDue(rows[i], now) && i !in due ==>
          && |due| == config.concurrency
          && (forall k :: 0 <= k < |due| ==> rows[due[k]].nextAttemptAt <= rows[i].nextAttemptAt))
  }
}
