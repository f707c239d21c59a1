/**
 * The retry queue service itself: loops over rows it read, writing the table as
 * it goes. Clock readings, handler replies and the order in which the database
 * returns rows are parameters.
 */
module RetryQueue {
  import opened Prelude
  import opened RetryJobs
  import opened RetryMachine
  import opened RetryRuns

  /** One attempt as the outside world plays it: two clock readings and the handler's reply. */
  datatype Attempt = Attempt(startedAt: int, finishedAt: int, failure: Option<string>)

  datatype RetryError = NotFound | AlreadySucceeded | BeingProcessed | EnqueueFailed

  function OutcomeOf(handlers: set<JobType>, jobType: JobType, failure: Option<string>): Outcome {
    if jobType !in handlers then NoHandler
    else match failure
      case None => Resolved
      case Some(message) => Rejected(message)
  }

  /** A row after one attempt at it. */
  function Attempted(config: Config, handlers: set<JobType>, row: Job, a: Attempt): Job {
    Finished(config, Started(row, row.attempts + 1, a.startedAt), row.attempts + 1, row.maxAttempts,
             OutcomeOf(handlers, row.jobType, a.failure), a.finishedAt)
  }

  function ReclaimedRows(rows: seq<Job>, stale: seq<nat>, now: int): (r: seq<Job>)
    ensures |r| == |rows|
    ensures forall i :: 0 <= i < |rows| ==> r[i] == if i in stale then Reclaimed(rows[i], now) else rows[i]
  {
    seq(|rows|, i requires 0 <= i < |rows| => if i in stale then Reclaimed(rows[i], now) else rows[i])
  }

  /** `after` is `before` with each listed row attempted once, on the row as it was, and no other row touched. */
  ghost predicate AttemptedRows(config: Config, handlers: set<JobType>, before: seq<Job>, after: seq<Job>,
                                due: seq<nat>, attempts: seq<Attempt>)
    requires |attempts| >= |due|
  {
    && |after| == |before|
    && Ids(before, due)
    && (forall k :: 0 <= k < |due| ==> after[due[k]] == Attempted(config, handlers, before[due[k]], attempts[k]))
    && (forall i: nat :: i < |before| && i !in due ==> after[i] == before[i])
  }

  lemma ReclaimedOneMore(rows: seq<Job>, stale: seq<nat>, n: nat, now: int)
    requires Ids(rows, stale) && n < |stale|
    ensures ReclaimedRows(rows, stale[..n], now)[stale[n]] == rows[stale[n]]
    ensures ReclaimedRows(rows, stale[..n + 1], now)
            == ReclaimedRows(rows, stale[..n], now)[stale[n] := Reclaimed(rows[stale[n]], now)]
  {
  }

  lemma AttemptedOneMore(config: Config, handlers: set<JobType>, before: seq<Job>, mid: seq<Job>, after: seq<Job>,
                         due: seq<nat>, attempts: seq<Attempt>, n: nat)
    requires Ids(before, due) && n < |due| == |attempts|
    requires AttemptedRows(config, handlers, before, mid, due[..n], attempts[..n])
    requires after == mid[due[n] := Attempted(config, handlers, before[due[n]], attempts[n])]
    ensures AttemptedRows(config, handlers, before, after, due[..n + 1], attempts[..n + 1])
  {
    assert due[n] !in due[..n];
    assert due[..n + 1] == due[..n] + [due[n]];
  }

  lemma NotYetAttempted(config: Config, handlers: set<JobType>, before: seq<Job>, mid: seq<Job>,
                        due: seq<nat>, attempts: seq<Attempt>, n: nat)
    requires Ids(before, due) && n < |due| == |attempts|
    requires AttemptedRows(config, handlers, before, mid, due[..n], attempts[..n])
    ensures due[n] < |mid| && mid[due[n]] == before[due[n]]
  {
  }

  class RetryQueueService {
    const config: Config
    var rows: seq<Job>
    var handlers: set<JobType>

    constructor (config: Config)
      ensures this.config == config && rows == [] && handlers == {}
    {
      this.config := config;
      rows := [];
      handlers := {};
    }

    method RegisterHandler(jobType: JobType)
      modifies this`handlers
      ensures handlers == old(handlers) + {jobType}
    {
      handlers := handlers + {jobType};
    }

    /**
     * Looks the key up, inserts when it found none, and on a unique violation looks
     * again. Each statement may fail: a failing lookup reads as "no such key".
     */
    method Enqueue(jobType: JobType, payload: string, key: string, maxAttempts: Option<int>, now: int,
                   lookupFails: bool, insertFails: bool, rereadFails: bool) returns (r: Result<nat, RetryError>)
      modifies this`rows
      ensures r.Ok? ==> r.value < |rows| && rows[r.value].key == key
      ensures var found := FindKey(old(rows), key);
              && (r.Ok? <==> if found.Some? && lookupFails then !insertFails && !rereadFails else found.Some? || !insertFails)
              && (found.Some? || r.Err? ==> rows == old(rows))
              && (found.Some? && r.Ok? ==> r.value == found.value)
              && (found.None? && r.Ok? ==>
                    var limit := if maxAttempts.Some? then maxAttempts.value else config.maxAttempts;
                    && r.value == |old(rows)| && rows == old(rows) + [rows[r.value]]
                    && rows[r.value] == Job(jobType, key, payload, Pending, 0, limit, now, None, now, None))
      ensures r.Err? ==> r.error == EnqueueFailed
      ensures old(UniqueKeys(rows)) ==> UniqueKeys(rows)
    {
      var existing := if lookupFails then None else FindKey(rows, key);
      if existing.Some? {
        return Ok(existing.value);
      }
      var limit := if maxAttempts.Some? then maxAttempts.value else config.maxAttempts;
      if insertFails {
        return Err(EnqueueFailed);
      }
      if FindKey(rows, key).Some? {
        var raced := if rereadFails then None else FindKey(rows, key);
        if raced.Some? {
          return Ok(raced.value);
        }
        return Err(EnqueueFailed);
      }
      rows := rows + [NewJob(Request(jobType, key, payload, limit), now)];
      return Ok(|rows| - 1);
    }

    method ProcessJob(id: nat, job: Job, a: Attempt)
      requires id < |rows|
      modifies this`rows
      ensures rows == old(rows)[id :=
                Finished(config, Started(old(rows[id]), job.attempts + 1, a.startedAt), job.attempts + 1, job.maxAttempts,
                         OutcomeOf(handlers, job.jobType, a.failure), a.finishedAt)]
      ensures var row, was := rows[id], old(rows[id]);
              && row == was.(attempts := job.attempts + 1, status := row.status, lastError := row.lastError,
                             completedAt := row.completedAt, nextAttemptAt := row.nextAttemptAt, updatedAt := a.finishedAt)
              && (job.jobType !in handlers ==>
                    row.status == Failed && row.lastError.Some? && row.completedAt == Some(a.finishedAt))
              && (job.jobType in handlers && a.failure == None ==>
                    row.status == Succeeded && row.lastError == None && row.completedAt == Some(a.finishedAt))
              && (job.jobType in handlers && a.failure.Some? ==> row.lastError == a.failure)
              && (job.jobType in handlers && a.failure.Some? && job.attempts + 1 >= job.maxAttempts ==>
                    row.status == Failed && row.completedAt == Some(a.finishedAt))
              && (if job.jobType in handlers && a.failure.Some? && job.attempts + 1 < job.maxAttempts then
                    && row.status == Pending && row.completedAt == was.completedAt
                    && row.nextAttemptAt == a.finishedAt + Min(config.baseDelay * Pow2(job.attempts), config.maxDelay)
                  else row.nextAttemptAt == was.nextAttemptAt)
    {
      var attempt := job.attempts + 1;
      rows := rows[id := Started(rows[id], attempt, a.startedAt)];
      if job.jobType !in handlers {
        rows := rows[id := Finished(config, rows[id], attempt, job.maxAttempts, NoHandler, a.finishedAt)];
        return;
      }
      match a.failure {
        case None =>
          rows := rows[id := Finished(config, rows[id], attempt, job.maxAttempts, Resolved, a.finishedAt)];
        case Some(message) =>
          rows := rows[id := Finished(config, rows[id], attempt, job.maxAttempts, Rejected(message), a.finishedAt)];
      }
    }

    method ReclaimStaleProcessingJobs(stale: seq<nat>, now: int)
      requires IsStaleSelection(config, rows, now, stale)
      modifies this`rows
      ensures rows == ReclaimedRows(old(rows), stale, now)
      ensures |rows| == |old(rows)|
      ensures forall i :: 0 <= i < |rows| ==>
                rows[i] == if old(rows)[i].status == Processing && old(rows)[i].updatedAt + config.staleAfter <= now
                           then old(rows)[i].(status := Pending, updatedAt := now) else old(rows)[i]
    {
      ghost var before := rows;
      assert ReclaimedRows(before, stale[..0], now) == before;
      for k := 0 to |stale|
        invariant rows == ReclaimedRows(before, stale[..k], now)
      {
        ReclaimedOneMore(before, stale, k, now);
        rows := rows[stale[k] := Reclaimed(rows[stale[k]], now)];
      }
      assert stale[..|stale|] == stale;
      assert forall i: nat :: i < |before| ==> (i in stale <==> IsStale(config, before[i], now));
    }

    /** One poll: stale rows go back to pending, then the earliest due rows are attempted in turn. */
    method ProcessDueJobs(reclaimAt: int, stale: seq<nat>, selectAt: int, due: seq<nat>, attempts: seq<Attempt>)
      requires IsStaleSelection(config, rows, reclaimAt, stale)
      requires IsDueSelection(config, ReclaimedRows(rows, stale, reclaimAt), selectAt, due)
      requires |attempts| == |due|
      modifies this`rows
      ensures AttemptedRows(config, handlers, ReclaimedRows(old(rows), stale, reclaimAt), rows, due, attempts)
    {
      ReclaimStaleProcessingJobs(stale, reclaimAt);
      ProcessEach(due, attempts);
    }

    method ProcessEach(due: seq<nat>, attempts: seq<Attempt>)
      requires Ids(rows, due) && |attempts| == |due|
      modifies this`rows
      ensures AttemptedRows(config, handlers, old(rows), rows, due, attempts)
    {
      ghost var before := rows;
      var jobs := Snapshots(rows, due);
      for k := 0 to |due|
        invariant AttemptedRows(config, handlers, before, rows, due[..k], attempts[..k])
      {
        ghost var mid := rows;
        NotYetAttempted(config, handlers, before, mid, due, attempts, k);
        ProcessJob(due[k], jobs[k].job, attempts[k]);
        assert rows == mid[due[k] := Attempted(config, handlers, before[due[k]], attempts[k])];
        AttemptedOneMore(config, handlers, before, mid, rows, due, attempts, k);
      }
      assert due[..|due|] == due && attempts[..|due|] == attempts;
    }

    method ManualRetry(id: nat, a: Attempt) returns (r: Result<Job, RetryError>)
      modifies this`rows
      ensures id >= |old(rows)| ==> r == Err(NotFound)
      ensures id < |old(rows)| && old(rows[id]).status == Succeeded ==> r == Err(AlreadySucceeded)
      ensures id < |old(rows)| && old(rows[id]).status == Processing ==> r == Err(BeingProcessed)
      ensures r.Err? ==> rows == old(rows)
      ensures r.Ok? ==> AttemptedRows(config, handlers, old(rows), rows, [id], [a]) && r.value == rows[id]
      ensures r.Ok? <==> id < |old(rows)| && (old(rows[id]).status == Pending || old(rows[id]).status == Failed)
    {
      if id >= |rows| {
        return Err(NotFound);
      }
      var job := rows[id];
      if job.status == Succeeded {
        return Err(AlreadySucceeded);
      }
      if job.status == Processing {
        return Err(BeingProcessed);
      }
      ProcessJob(id, job, a);
      return Ok(rows[id]);
    }
  }

  // ---------------------------------------------------------------- the service's poll is a run of the machine

  lemma AppendOne(config: Config, s: State, a: seq<Event>, e: Event)
    requires IsRun(config, s, a) && Enabled(config, After(config, s, a), e)
    ensures IsRun(config, s, a + [e]) && After(config, s, a + [e]) == Step(config, After(config, s, a), e)
  {
  }

  lemma {:induction false} Append(config: Config, s: State, a: seq<Event>, b: seq<Event>)
    requires IsRun(config, s, a) && IsRun(config, After(config, s, a), b)
    ensures IsRun(config, s, a + b) && After(config, s, a + b) == After(config, After(config, s, a), b)
    decreases |b|
  {
    if b == [] {
      assert a + b == a;
    } else {
      Append(config, s, a, Init(b));
      AppendOne(config, s, a + Init(b), Last(b));
      assert a + b == a + Init(b) + [Last(b)];
    }
  }

  lemma One(config: Config, s: State, e: Event)
    requires Enabled(config, s, e)
    ensures IsRun(config, s, [e]) && After(config, s, [e]) == Step(config, s, e)
  {
  }

  lemma Prepend(config: Config, s: State, e: Event, t: State, b: seq<Event>)
    requires Enabled(config, s, e) && t == Step(config, s, e) && IsRun(config, t, b)
    ensures IsRun(config, s, [e] + b) && After(config, s, [e] + b) == After(config, t, b)
  {
    One(config, s, e);
    Append(config, s, [e], b);
  }

  function ReclaimTrace(stale: seq<nat>, now: int): (es: seq<Event>)
    ensures |es| == |stale|
  {
    seq(|stale|, k requires 0 <= k < |stale| => Reclaim(stale[k], now))
  }

  lemma ReclaimStep(config: Config, s: State, now: int) returns (t: State)
    requires s.worker.Reclaiming? && s.worker.stale != [] && s.worker.stale[0] < |s.rows| && s.clock == now
    ensures var id := s.worker.stale[0];
            && Enabled(config, s, Reclaim(id, now)) && t == Step(config, s, Reclaim(id, now))
            && t == s.(rows := s.rows[id := Reclaimed(s.rows[id], now)], worker := Reclaiming(s.worker.stale[1..]))
  {
    t := Step(config, s, Reclaim(s.worker.stale[0], now));
  }

  lemma ReclaimedFirst(rows: seq<Job>, stale: seq<nat>, now: int)
    requires Ids(rows, stale) && stale != []
    ensures ReclaimedRows(rows[stale[0] := Reclaimed(rows[stale[0]], now)], stale[1..], now) == ReclaimedRows(rows, stale, now)
  {
  }

  lemma ReclaimFirst(config: Config, s: State, stale: seq<nat>, now: int, t: State)
    requires stale != [] && Enabled(config, s, Reclaim(stale[0], now)) && t == Step(config, s, Reclaim(stale[0], now))
    requires IsRun(config, t, ReclaimTrace(stale[1..], now))
    ensures IsRun(config, s, ReclaimTrace(stale, now))
    ensures After(config, s, ReclaimTrace(stale, now)) == After(config, t, ReclaimTrace(stale[1..], now))
  {
    Prepend(config, s, Reclaim(stale[0], now), t, ReclaimTrace(stale[1..], now));
    assert ReclaimTrace(stale, now) == [Reclaim(stale[0], now)] + ReclaimTrace(stale[1..], now);
  }

  lemma {:induction false} ReclaimRun(config: Config, s: State, stale: seq<nat>, now: int)
    requires s.worker == Reclaiming(stale) && Ids(s.rows, stale) && s.clock == now
    ensures var es := ReclaimTrace(stale, now);
            IsRun(config, s, es) && After(config, s, es) == s.(rows := ReclaimedRows(s.rows, stale, now), worker := Reclaiming([]))
    decreases |stale|
  {
    if stale == [] {
      assert ReclaimedRows(s.rows, [], now) == s.rows;
    } else {
      var t := ReclaimStep(config, s, now);
      var rest := stale[1..];
      ReclaimedFirst(s.rows, stale, now);
      ReclaimRun(config, t, rest, now);
      ReclaimFirst(config, s, stale, now, t);
    }
  }

  /** Clock readings never go back. */
  ghost predicate InOrder(from: int, attempts: seq<Attempt>) {
    && (forall k :: 0 <= k < |attempts| ==> from <= attempts[k].startedAt <= attempts[k].finishedAt)
    && (forall j, k :: 0 <= j < k < |attempts| ==> attempts[j].finishedAt <= attempts[k].startedAt)
  }

  function AttemptTrace(handlers: set<JobType>, rows: seq<Job>, due: seq<nat>, attempts: seq<Attempt>): seq<Event>
    requires |attempts| == |due| && forall k :: 0 <= k < |due| ==> due[k] < |rows|
  {
    if due == [] then []
    else
      var n := |due| - 1;
      var a, id := attempts[n], due[n];
      AttemptTrace(handlers, rows, due[..n], attempts[..n]) + TwoSteps(handlers, rows[id], id, a, false)
  }

  /** The worker is through the first n of the rows it selected. */
  ghost predicate Through(config: Config, handlers: set<JobType>, s: State, due: seq<nat>, n: nat, attempts: seq<Attempt>, t: State)
    requires n <= |due| == |attempts| && Ids(s.rows, due)
  {
    && AttemptedRows(config, handlers, s.rows, t.rows, due[..n], attempts[..n])
    && t.worker == Draining(Snapshots(s.rows, due)[n..], false)
    && t.callers == s.callers
    && t.clock == if n == 0 then s.clock else attempts[n - 1].finishedAt
  }

  lemma {:induction false} AttemptRun(config: Config, handlers: set<JobType>, s: State, due: seq<nat>, n: nat, attempts: seq<Attempt>)
      returns (t: State)
    requires Ids(s.rows, due) && n <= |due| == |attempts| && InOrder(s.clock, attempts)
    requires s.worker == Draining(Snapshots(s.rows, due), false)
    ensures var es := AttemptTrace(handlers, s.rows, due[..n], attempts[..n]);
            IsRun(config, s, es) && t == After(config, s, es)
    ensures Through(config, handlers, s, due, n, attempts, t)
  {
    if n == 0 {
      t := s;
    } else {
      var m := n - 1;
      var front := AttemptTrace(handlers, s.rows, due[..m], attempts[..m]);
      var two := TwoSteps(handlers, s.rows[due[m]], due[m], attempts[m], false);
      var before := AttemptRun(config, handlers, s, due, m, attempts);
      t := OneMoreThrough(config, handlers, s, due, m, attempts, before);
      Append(config, s, front, two);
      OneMoreAttempt(handlers, s.rows, due, m, attempts);
    }
  }

  lemma OneMoreAttempt(handlers: set<JobType>, rows: seq<Job>, due: seq<nat>, n: nat, attempts: seq<Attempt>)
    requires n < |due| == |attempts| && forall k :: 0 <= k < |due| ==> due[k] < |rows|
    ensures AttemptTrace(handlers, rows, due[..n + 1], attempts[..n + 1])
            == AttemptTrace(handlers, rows, due[..n], attempts[..n]) + TwoSteps(handlers, rows[due[n]], due[n], attempts[n], false)
  {
    assert due[..n + 1][..n] == due[..n] && attempts[..n + 1][..n] == attempts[..n];
  }

  lemma OneMoreThrough(config: Config, handlers: set<JobType>, s: State, due: seq<nat>, n: nat, attempts: seq<Attempt>, t: State)
      returns (u: State)
    requires Ids(s.rows, due) && n < |due| == |attempts| && InOrder(s.clock, attempts)
    requires Through(config, handlers, s, due, n, attempts, t)
    ensures var es := TwoSteps(handlers, s.rows[due[n]], due[n], attempts[n], false);
            IsRun(config, t, es) && u == After(config, t, es)
    ensures Through(config, handlers, s, due, n + 1, attempts, u)
  {
    NotYetAttempted(config, handlers, s.rows, t.rows, due, attempts, n);
    AttemptIsTwoSteps(config, handlers, t, attempts[n]);
    u := After(config, t, TwoSteps(handlers, s.rows[due[n]], due[n], attempts[n], false));
    AttemptedOneMore(config, handlers, s.rows, t.rows,
                     t.rows[due[n] := Attempted(config, handlers, t.rows[due[n]], attempts[n])], due, attempts, n);
  }

  function TwoSteps(handlers: set<JobType>, row: Job, id: nat, a: Attempt, manual: bool): seq<Event> {
    [Start(id, a.startedAt, manual), Finish(id, a.finishedAt, OutcomeOf(handlers, row.jobType, a.failure))]
  }

  lemma AttemptIsTwoSteps(config: Config, handlers: set<JobType>, t: State, a: Attempt)
    requires t.worker.Draining? && t.worker.due != [] && t.worker.due[0].id < |t.rows|
    requires t.worker.due[0].job == t.rows[t.worker.due[0].id] && t.clock <= a.startedAt <= a.finishedAt
    ensures var id := t.worker.due[0].id;
            var es := TwoSteps(handlers, t.rows[id], id, a, t.worker.manual);
            && IsRun(config, t, es)
            && After(config, t, es) == t.(rows := t.rows[id := Attempted(config, handlers, t.rows[id], a)],
                                          worker := Draining(t.worker.due[1..], t.worker.manual), clock := a.finishedAt)
  {
    var id := t.worker.due[0].id;
    var es := TwoSteps(handlers, t.rows[id], id, a, t.worker.manual);
    One(config, t, es[0]);
    var t1 := Step(config, t, es[0]);
    One(config, t1, es[1]);
    Append(config, t, [es[0]], [es[1]]);
    assert [es[0]] + [es[1]] == es;
    var row := Started(t.rows[id], t.rows[id].attempts + 1, a.startedAt);
    assert t1.rows == t.rows[id := row];
    assert t.rows[id := row][id := Attempted(config, handlers, t.rows[id], a)]
        == t.rows[id := Attempted(config, handlers, t.rows[id], a)];
  }

  function PollTrace(handlers: set<JobType>, rows: seq<Job>, reclaimAt: int, stale: seq<nat>, selectAt: int, due: seq<nat>,
                     attempts: seq<Attempt>): seq<Event>
    requires |attempts| == |due| && forall k :: 0 <= k < |due| ==> due[k] < |rows|
  {
    [BeginPoll(reclaimAt, stale)] + ReclaimTrace(stale, reclaimAt) + [SelectDue(selectAt, due)]
    + AttemptTrace(handlers, rows, due, attempts) + [EndCycle(false)]
  }

  /**
   * The poll the service makes is a run of the machine: from an idle worker the
   * statements of one poll are enabled in order and leave exactly the rows
   * `ProcessDueJobs` leaves, with the worker idle again.
   */
  lemma PollIsARun(config: Config, handlers: set<JobType>, s: State, reclaimAt: int, stale: seq<nat>, selectAt: int,
                   due: seq<nat>, attempts: seq<Attempt>)
    requires s.worker.Idle? && s.clock <= reclaimAt <= selectAt && |attempts| == |due| && InOrder(selectAt, attempts)
    requires IsStaleSelection(config, s.rows, reclaimAt, stale)
    requires IsDueSelection(config, ReclaimedRows(s.rows, stale, reclaimAt), selectAt, due)
    ensures var reclaimed := ReclaimedRows(s.rows, stale, reclaimAt);
            var es := PollTrace(handlers, reclaimed, reclaimAt, stale, selectAt, due, attempts);
            && IsRun(config, s, es)
            && After(config, s, es).worker.Idle?
            && AttemptedRows(config, handlers, reclaimed, After(config, s, es).rows, due, attempts)
  {
    var reclaimed := ReclaimedRows(s.rows, stale, reclaimAt);
    var head := [BeginPoll(reclaimAt, stale)] + ReclaimTrace(stale, reclaimAt) + [SelectDue(selectAt, due)];
    var tail := AttemptTrace(handlers, reclaimed, due, attempts) + [EndCycle(false)];
    SelectionIsARun(config, s, reclaimAt, stale, selectAt, due);
    DrainIsARun(config, handlers, After(config, s, head), due, attempts);
    Append(config, s, head, tail);
    assert head + tail == PollTrace(handlers, reclaimed, reclaimAt, stale, selectAt, due, attempts);
  }

  lemma DrainIsARun(config: Config, handlers: set<JobType>, s: State, due: seq<nat>, attempts: seq<Attempt>)
    requires Ids(s.rows, due) && |due| == |attempts| && InOrder(s.clock, attempts)
    requires s.worker == Draining(Snapshots(s.rows, due), false)
    ensures var es := AttemptTrace(handlers, s.rows, due, attempts) + [EndCycle(false)];
            && IsRun(config, s, es)
            && After(config, s, es).worker.Idle?
            && AttemptedRows(config, handlers, s.rows, After(config, s, es).rows, due, attempts)
  {
    var t := AttemptRun(config, handlers, s, due, |due|, attempts);
    assert due[..|due|] == due && attempts[..|due|] == attempts;
    var drain := AttemptTrace(handlers, s.rows, due, attempts);
    One(config, t, EndCycle(false));
    Append(config, s, drain, [EndCycle(false)]);
  }

  lemma SelectionIsARun(config: Config, s: State, reclaimAt: int, stale: seq<nat>, selectAt: int, due: seq<nat>)
    requires s.worker.Idle? && s.clock <= reclaimAt <= selectAt
    requires IsStaleSelection(config, s.rows, reclaimAt, stale)
    requires IsDueSelection(config, ReclaimedRows(s.rows, stale, reclaimAt), selectAt, due)
    ensures var es := [BeginPoll(reclaimAt, stale)] + ReclaimTrace(stale, reclaimAt) + [SelectDue(selectAt, due)];
            var reclaimed := ReclaimedRows(s.rows, stale, reclaimAt);
            && IsRun(config, s, es)
            && After(config, s, es) == State(reclaimed, Draining(Snapshots(reclaimed, due), false), s.callers, selectAt)
  {
    var begin, reclaims, select := BeginPoll(reclaimAt, stale), ReclaimTrace(stale, reclaimAt), SelectDue(selectAt, due);
    One(config, s, begin);
    var s1 := Step(config, s, begin);
    ReclaimRun(config, s1, stale, reclaimAt);
    Append(config, s, [begin], reclaims);
    One(config, After(config, s1, reclaims), select);
    Append(config, s, [begin] + reclaims, [select]);
  }

  // ---------------------------------------------------------------- so are manual retries and enqueues

  /** A manual retry of a pending or failed job is a run: read, start, finish, and the worker is idle again. */
  lemma ManualRetryIsARun(config: Config, handlers: set<JobType>, s: State, id: nat, a: Attempt)
    requires s.worker.Idle? && id < |s.rows| && s.clock <= a.startedAt <= a.finishedAt
    requires s.rows[id].status == Pending || s.rows[id].status == Failed
    ensures var es := [BeginManual(id)] + TwoSteps(handlers, s.rows[id], id, a, true) + [EndCycle(true)];
            && IsRun(config, s, es)
            && After(config, s, es) == s.(rows := s.rows[id := Attempted(config, handlers, s.rows[id], a)], clock := a.finishedAt)
  {
    var begin, two := [BeginManual(id)], TwoSteps(handlers, s.rows[id], id, a, true);
    One(config, s, BeginManual(id));
    var s1 := Step(config, s, BeginManual(id));
    assert s1 == s.(worker := Draining([Snapshot(id, s.rows[id])], true)) by {
      assert Snapshots(s.rows, [id]) == [Snapshot(id, s.rows[id])];
    }
    AttemptIsTwoSteps(config, handlers, s1, a);
    Append(config, s, begin, two);
    AppendOne(config, s, begin + two, EndCycle(true));
  }

  /** The statements one caller makes, as they turn out. */
  function EnqueueTrace(rows: seq<Job>, caller: nat, request: Request, now: int,
                        lookupFails: bool, insertFails: bool, rereadFails: bool): seq<Event> {
    var known := FindKey(rows, request.key).Some?;
    [Call(request), if lookupFails then LookupError(caller) else Lookup(caller)]
    + if known && !lookupFails then []
      else if insertFails then [InsertError(caller)]
      else if !known then [Insert(caller, now)]
      else [Insert(caller, now), if rereadFails then RereadError(caller) else Reread(caller)]
  }

  lemma TwoMore(config: Config, s: State, es: seq<Event>, a: Event, b: Event)
    requires IsRun(config, s, es) && Enabled(config, After(config, s, es), a)
    requires Enabled(config, Step(config, After(config, s, es), a), b)
    ensures IsRun(config, s, es + [a, b])
    ensures After(config, s, es + [a, b]) == Step(config, Step(config, After(config, s, es), a), b)
  {
    AppendOne(config, s, es, a);
    AppendOne(config, s, es + [a], b);
    assert es + [a] + [b] == es + [a, b];
  }

  /**
   * An enqueue is a run of the machine, whichever of its statements fail: the
   * caller ends up with the id the service returns, or refused, and the table with
   * the row the service adds, if any.
   */
  lemma EnqueueIsARun(config: Config, s: State, request: Request, now: int,
                      lookupFails: bool, insertFails: bool, rereadFails: bool)
    ensures var found, c := FindKey(s.rows, request.key), |s.callers|;
            var ok := if found.Some? && lookupFails then !insertFails && !rereadFails else found.Some? || !insertFails;
            var es := EnqueueTrace(s.rows, c, request, now, lookupFails, insertFails, rereadFails);
            && IsRun(config, s, es)
            && var t := After(config, s, es);
               && t.rows == (if found.None? && ok then s.rows + [NewJob(request, now)] else s.rows)
               && |t.callers| == c + 1
               && t.callers[c] == (if !ok then Refused(request)
                                   else Returned(request, if found.Some? then found.value else |s.rows|))
  {
    var found, c := FindKey(s.rows, request.key), |s.callers|;
    var look := if lookupFails then LookupError(c) else Lookup(c);
    TwoMore(config, s, [], Call(request), look);
    assert [] + [Call(request), look] == [Call(request), look];
    var es := [Call(request), look];
    if found.Some? && !lookupFails {
      assert es + [] == es;
    } else if insertFails {
      AppendOne(config, s, es, InsertError(c));
    } else if found.None? {
      AppendOne(config, s, es, Insert(c, now));
    } else {
      TwoMore(config, s, es, Insert(c, now), if rereadFails then RereadError(c) else Reread(c));
    }
  }
}
