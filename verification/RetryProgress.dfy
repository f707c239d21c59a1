/**
 * Progress of the retry queue: what it takes for every job to succeed or fail,
 * and what holds a job back.
 */
module RetryProgress {
  import opened Prelude
  import opened RetryJobs
  import opened RetryMachine
  import opened RetryRuns
  import opened RetryQueue

  // ---------------------------------------------------------------- what holds a job back

  /** A row the worker left in processing stays as it is until it is reclaimed, whatever else happens. */
  lemma {:induction false} OrphansWait(config: Config, s: State, es: seq<Event>, id: nat)
    requires Inv(s) && IsRun(config, s, es)
    requires id < |s.rows| && s.rows[id].status == Processing && !Holding(s, id)
    requires Count(es, ReclaimsOf(id)) == 0
    ensures var t := After(config, s, es);
            id < |t.rows| && t.rows[id] == s.rows[id] && !Holding(t, id)
    decreases |es|
  {
    if es != [] {
      OrphansWait(config, s, Init(es), id);
      RunKeepsInv(config, s, Init(es));
      StepRows(config, After(config, s, Init(es)), Last(es));
    }
  }

  /** Nothing having failed, what an idle worker leaves unsettled is pending, with tries left. */
  lemma OnlyPendingIsUnsettled(config: Config, es: seq<Event>, id: nat)
    requires Reachable(config, es) && Count(es, Failures) == 0 && Final(config, es).worker.Idle?
    requires id < |Final(config, es).rows| && !Settled(Final(config, es).rows[id])
    ensures var row := Final(config, es).rows[id];
            row.status == Pending && row.attempts < Budget(es, row, id)
  {
    if Final(config, es).rows[id].status == Processing {
      OnlyFailuresOrphan(config, es, id);
    }
    AttemptBudget(config, es, id);
  }

  // ---------------------------------------------------------------- tries left

  /** How often a job can still be started before it must settle. */
  function TriesLeft(row: Job): (n: nat)
    ensures n == 0 <==> Settled(row)
  {
    if Settled(row) then 0 else Max(row.maxAttempts - row.attempts, 1)
  }

  function TriesOf(rows: seq<Job>): (r: seq<int>)
    ensures |r| == |rows|
    ensures forall i :: 0 <= i < |rows| ==> r[i] == TriesLeft(rows[i])
  {
    seq(|rows|, i requires 0 <= i < |rows| => TriesLeft(rows[i]))
  }

  function Tries(rows: seq<Job>): int {
    IntSum(TriesOf(rows))
  }

  predicate AllSettled(rows: seq<Job>) {
    forall i :: 0 <= i < |rows| ==> Settled(rows[i])
  }

  lemma RewriteMovesTries(rows: seq<Job>, id: nat, row: Job)
    requires id < |rows|
    ensures Tries(rows[id := row]) == Tries(rows) - TriesLeft(rows[id]) + TriesLeft(row)
  {
    IntSumUpdate(TriesOf(rows), id, TriesLeft(row));
    assert TriesOf(rows[id := row]) == TriesOf(rows)[id := TriesLeft(row)];
  }

  lemma {:induction false} NoTriesMeansSettled(rows: seq<Job>)
    ensures Tries(rows) >= 0
    ensures Tries(rows) == 0 ==> AllSettled(rows)
  {
    if rows != [] {
      var front := rows[..|rows| - 1];
      NoTriesMeansSettled(front);
      assert TriesOf(rows)[..|rows| - 1] == TriesOf(front);
    }
  }

  /** Never more than the jobs' own maxima together (a first try is never refused). */
  lemma {:induction false} TriesWithinMaxima(rows: seq<Job>)
    ensures 2 * Tries(rows) <= IntSum(Capacities(rows))
  {
    if rows != [] {
      var front := rows[..|rows| - 1];
      TriesWithinMaxima(front);
      assert TriesOf(rows)[..|rows| - 1] == TriesOf(front);
      assert Capacities(rows)[..|rows| - 1] == Capacities(front);
    }
  }

  // ---------------------------------------------------------------- each productive poll uses one up

  /** The attempt under way is the last one of its job. */
  function Closing(s: State): nat {
    if s.worker.Attempting? && s.worker.current.id < |s.rows|
       && s.rows[s.worker.current.id].attempts >= s.rows[s.worker.current.id].maxAttempts
    then 1 else 0
  }

  /** A start the running poll is about to make. */
  function Upcoming(s: State): nat {
    if s.worker.Draining? && s.worker.due != [] && !s.worker.manual then 1 else 0
  }

  ghost function Owed(s: State): int {
    Tries(s.rows) - Closing(s) - Upcoming(s)
  }

  lemma StartSpends(config: Config, s: State, e: Event)
    requires Inv(s) && Enabled(config, s, e) && e.Start? && !e.manual
    ensures Owed(Step(config, s, e)) <= Owed(s)
  {
    assert s.worker.due[0].job == s.rows[e.id];
    RewriteMovesTries(s.rows, e.id, Step(config, s, e).rows[e.id]);
  }

  lemma FinishSpends(config: Config, s: State, e: Event)
    requires Inv(s) && Enabled(config, s, e) && e.Finish?
    ensures Owed(Step(config, s, e)) <= Owed(s)
  {
    RewriteMovesTries(s.rows, e.id, Step(config, s, e).rows[e.id]);
  }

  lemma ReclaimSpends(config: Config, s: State, e: Event)
    requires Inv(s) && Enabled(config, s, e) && e.Reclaim?
    ensures Owed(Step(config, s, e)) <= Owed(s)
  {
    RewriteMovesTries(s.rows, e.id, Step(config, s, e).rows[e.id]);
  }

  /** A productive poll uses up a try; a failure may cost one; nothing else adds any. */
  lemma StepSpends(config: Config, s: State, e: Event)
    requires Inv(s) && Enabled(config, s, e)
    requires !(e.Start? && e.manual) && |Step(config, s, e).rows| == |s.rows|
    ensures Owed(Step(config, s, e)) + (if Matches(e, Productive) then 1 else 0) <= Owed(s) + if Matches(e, Failures) then 1 else 0
  {
    match e
    case Start(_, _, _) => StartSpends(config, s, e);
    case Finish(_, _, _) => FinishSpends(config, s, e);
    case Reclaim(_, _) => ReclaimSpends(config, s, e);
    case _ => assert Step(config, s, e).rows == s.rows;
  }

  lemma {:induction false} RowsOnlyGrow(config: Config, s: State, es: seq<Event>)
    requires IsRun(config, s, es)
    ensures |s.rows| <= |After(config, s, es).rows|
    decreases |es|
  {
    if es != [] {
      RowsOnlyGrow(config, s, Init(es));
      StepRows(config, After(config, s, Init(es)), Last(es));
    }
  }

  /** A run without new jobs and manual retries, the two things that bring more work. */
  ghost predicate NoNewWork(config: Config, s: State, es: seq<Event>) {
    IsRun(config, s, es) && Count(es, Manuals) == 0 && |After(config, s, es).rows| == |s.rows|
  }

  lemma {:induction false} PollsSpend(config: Config, s: State, es: seq<Event>)
    requires Inv(s) && NoNewWork(config, s, es)
    ensures Owed(After(config, s, es)) + Count(es, Productive) <= Owed(s) + Count(es, Failures)
    decreases |es|
  {
    if es != [] {
      RowsOnlyGrow(config, s, Init(es));
      StepRows(config, After(config, s, Init(es)), Last(es));
      PollsSpend(config, s, Init(es));
      RunKeepsInv(config, s, Init(es));
      StepSpends(config, After(config, s, Init(es)), Last(es));
    }
  }

  lemma {:induction false} TriesCoverOne(rows: seq<Job>, id: nat)
    requires id < |rows| && !Settled(rows[id])
    ensures Tries(rows) >= 1
  {
    var front := rows[..|rows| - 1];
    NoTriesMeansSettled(front);
    assert TriesOf(rows)[..|rows| - 1] == TriesOf(front);
    if id < |rows| - 1 {
      TriesCoverOne(front, id);
    }
  }

  lemma OwedIsNatural(s: State)
    requires Inv(s)
    ensures Owed(s) >= 0
  {
    NoTriesMeansSettled(s.rows);
    if Closing(s) == 1 {
      TriesCoverOne(s.rows, s.worker.current.id);
    } else if Upcoming(s) == 1 {
      TriesCoverOne(s.rows, s.worker.due[0].id);
    }
  }

  /**
   * Progress. From any state that crashes may have led to, and through any further
   * failures, a run has at most as many polls that find work as there are tries
   * left, and one more for each failure; and once it has had that many and the
   * worker is idle, every job has succeeded or failed.
   */
  lemma WorkRunsOut(config: Config, s: State, es: seq<Event>)
    requires Inv(s) && NoNewWork(config, s, es)
    ensures Count(es, Productive) <= Tries(s.rows) + Count(es, Failures)
    ensures Count(es, Productive) == Tries(s.rows) + Count(es, Failures) && After(config, s, es).worker.Idle?
            ==> AllSettled(After(config, s, es).rows)
  {
    PollsSpend(config, s, es);
    RunKeepsInv(config, s, es);
    OwedIsNatural(After(config, s, es));
    NoTriesMeansSettled(After(config, s, es).rows);
  }

  /** A poll finds work exactly when some pending job is due. */
  lemma ProductiveIff(config: Config, s: State, now: int, due: seq<nat>)
    requires Enabled(config, s, SelectDue(now, due)) && config.concurrency > 0
    ensures Matches(SelectDue(now, due), Productive) <==> exists i :: 0 <= i < |s.rows| && IsDue(s.rows[i], now)
  {
    if due != [] {
      assert IsDue(s.rows[due[0]], now);
    } else if i: nat :| i < |s.rows| && IsDue(s.rows[i], now) {
      assert false;
    }
  }

  // ---------------------------------------------------------------- polls that find everything due

  /** No row is left in processing and every pending one is due. */
  predicate Patient(rows: seq<Job>, now: int) {
    forall i :: 0 <= i < |rows| ==> rows[i].status != Processing && (rows[i].status == Pending ==> IsDue(rows[i], now))
  }

  /** How many polls of the run were patient when they selected. */
  ghost function PatientPolls(config: Config, s: State, es: seq<Event>): nat
    requires IsRun(config, s, es)
    decreases |es|
  {
    if es == [] then 0
    else
      PatientPolls(config, s, Init(es))
      + if Last(es).SelectDue? && Patient(After(config, s, Init(es)).rows, Last(es).now) then 1 else 0
  }

  lemma SettledStaysSettled(config: Config, s: State, e: Event)
    requires Inv(s) && Enabled(config, s, e) && AllSettled(s.rows)
    requires !(e.Start? && e.manual) && |Step(config, s, e).rows| == |s.rows|
    ensures AllSettled(Step(config, s, e).rows)
  {
    StepRows(config, s, e);
  }

  lemma PatientPollIsProductive(config: Config, s: State, e: Event)
    requires Enabled(config, s, e) && e.SelectDue? && config.concurrency > 0 && Patient(s.rows, e.now)
    ensures Matches(e, Productive) || AllSettled(s.rows)
  {
    ProductiveIff(config, s, e.now, e.due);
  }

  /** A patient poll finds work, or there is none left. */
  lemma {:induction false} PatientPollsAreProductive(config: Config, s: State, es: seq<Event>)
    requires Inv(s) && NoNewWork(config, s, es) && config.concurrency > 0
    ensures AllSettled(After(config, s, es).rows) || PatientPolls(config, s, es) <= Count(es, Productive)
    decreases |es|
  {
    if es != [] {
      var t, e := After(config, s, Init(es)), Last(es);
      RowsOnlyGrow(config, s, Init(es));
      StepRows(config, t, e);
      PatientPollsAreProductive(config, s, Init(es));
      RunKeepsInv(config, s, Init(es));
      if AllSettled(t.rows) {
        SettledStaysSettled(config, t, e);
      } else if e.SelectDue? && Patient(t.rows, e.now) {
        PatientPollIsProductive(config, t, e);
      }
    }
  }

  /** So as many patient polls as there are tries left, and one more for each failure, settle every job. */
  lemma QueueSettles(config: Config, s: State, es: seq<Event>)
    requires Inv(s) && NoNewWork(config, s, es) && config.concurrency > 0
    requires PatientPolls(config, s, es)
             >= Tries(s.rows) + Count(es, Failures) + if After(config, s, es).worker.Idle? then 0 else 1
    ensures AllSettled(After(config, s, es).rows)
  {
    PatientPollsAreProductive(config, s, es);
    WorkRunsOut(config, s, es);
  }

  ghost predicate AlwaysPatient(config: Config, s: State, es: seq<Event>)
    requires IsRun(config, s, es)
    decreases |es|
  {
    es == [] || (AlwaysPatient(config, s, Init(es)) && (Last(es).SelectDue? ==> Patient(After(config, s, Init(es)).rows, Last(es).now)))
  }

  predicate InPoll(w: Worker) {
    (w.Draining? && !w.manual) || (w.Attempting? && !w.manual)
  }

  lemma {:induction false} PollsAreSelections(config: Config, s: State, es: seq<Event>)
    requires s.worker.Idle? && IsRun(config, s, es) && AlwaysPatient(config, s, es)
    ensures Count(es, Polls) + (if InPoll(After(config, s, es).worker) then 1 else 0) <= PatientPolls(config, s, es)
    decreases |es|
  {
    if es != [] {
      PollsAreSelections(config, s, Init(es));
    }
  }

  /** In particular: without failures, as many completed polls as the jobs' maxima together settle every job. */
  lemma PollsSettleEveryJob(config: Config, s: State, es: seq<Event>)
    requires Inv(s) && s.worker.Idle? && NoNewWork(config, s, es) && config.concurrency > 0
    requires Count(es, Failures) == 0 && AlwaysPatient(config, s, es) && After(config, s, es).worker.Idle?
    requires 2 * Count(es, Polls) >= IntSum(Capacities(s.rows))
    ensures AllSettled(After(config, s, es).rows)
  {
    PollsAreSelections(config, s, es);
    TriesWithinMaxima(s.rows);
    QueueSettles(config, s, es);
  }

  // ---------------------------------------------------------------- polls are patient once enough time has passed

  /** No row is timed further ahead than the longest delay, and none was written in the future. */
  ghost predicate Near(config: Config, s: State) {
    forall i :: 0 <= i < |s.rows| ==>
      s.rows[i].nextAttemptAt <= s.clock + Max(config.maxDelay, 0) && s.rows[i].updatedAt <= s.clock
  }

  lemma {:induction false} TimesAreNear(config: Config, s: State, es: seq<Event>)
    requires Near(config, s) && IsRun(config, s, es)
    ensures Near(config, After(config, s, es))
    decreases |es|
  {
    if es != [] {
      TimesAreNear(config, s, Init(es));
      StepStaysNear(config, After(config, s, Init(es)), Last(es));
    }
  }

  lemma StepStaysNear(config: Config, s: State, e: Event)
    requires Near(config, s) && Enabled(config, s, e)
    ensures Near(config, Step(config, s, e))
  {
    StepRows(config, s, e);
  }

  lemma ReclaimedArePatient(config: Config, s: State, reclaimAt: int, stale: seq<nat>, selectAt: int)
    requires Near(config, s) && reclaimAt <= selectAt
    requires s.clock + Max(Max(config.maxDelay, config.staleAfter), 0) <= reclaimAt
    requires IsStaleSelection(config, s.rows, reclaimAt, stale)
    ensures Patient(ReclaimedRows(s.rows, stale, reclaimAt), selectAt)
  {
    var r := ReclaimedRows(s.rows, stale, reclaimAt);
    forall i | 0 <= i < |r| ensures r[i].status != Processing && (r[i].status == Pending ==> IsDue(r[i], selectAt)) {
      assert i in stale <==> IsStale(config, s.rows[i], reclaimAt);
    }
  }

  /** The service's poll is patient when it comes the longest delay and the stale time after the last statement. */
  lemma LatePollIsPatient(config: Config, s: State, reclaimAt: int, stale: seq<nat>, selectAt: int, due: seq<nat>)
    requires Near(config, s) && s.worker.Idle? && reclaimAt <= selectAt
    requires s.clock + Max(Max(config.maxDelay, config.staleAfter), 0) <= reclaimAt
    requires IsStaleSelection(config, s.rows, reclaimAt, stale)
    requires IsDueSelection(config, ReclaimedRows(s.rows, stale, reclaimAt), selectAt, due)
    ensures var es := [BeginPoll(reclaimAt, stale)] + ReclaimTrace(stale, reclaimAt) + [SelectDue(selectAt, due)];
            IsRun(config, s, es) && PatientPolls(config, s, es) >= 1
  {
    var head, select := [BeginPoll(reclaimAt, stale)] + ReclaimTrace(stale, reclaimAt), SelectDue(selectAt, due);
    SelectionIsARun(config, s, reclaimAt, stale, selectAt, due);
    ReclaimedArePatient(config, s, reclaimAt, stale, selectAt);
    assert Init(head + [select]) == head;
    SelectionCounts(config, s, head, select);
  }

  lemma SelectionCounts(config: Config, s: State, es: seq<Event>, e: Event)
    requires IsRun(config, s, es) && IsRun(config, s, es + [e]) && e.SelectDue?
    requires Patient(After(config, s, es + [e]).rows, e.now)
    ensures PatientPolls(config, s, es + [e]) == PatientPolls(config, s, es) + 1
  {
    assert Init(es + [e]) == es;
  }

  // ---------------------------------------------------------------- why one worker at a time

  lemma TwoEvents(config: Config, s: State, a: Event, b: Event)
    requires Enabled(config, s, a) && Enabled(config, Step(config, s, a), b)
    ensures IsRun(config, s, [a, b]) && After(config, s, [a, b]) == Step(config, Step(config, s, a), b)
  {
    One(config, s, a);
    One(config, Step(config, s, a), b);
    Append(config, s, [a], [b]);
    assert [a] + [b] == [a, b];
  }

  /**
   * Two polls that overlap both hold the row as it was. If the first attempt
   * succeeds and the second, made from the stale snapshot, fails, the job is no
   * longer succeeded: it is pending again, or failed. That success is final rests
   * on polls not overlapping, for every job.
   */
  lemma OverlapUndoesSuccess(config: Config, s: State, id: nat, now: int, message: string)
    requires id < |s.rows| && s.rows[id].status == Pending && s.clock <= now
    requires s.worker == Draining([Snapshot(id, s.rows[id])], false)
    ensures var start := Start(id, now, false);
            var es, fs := [start, Finish(id, now, Resolved)], [start, Finish(id, now, Rejected(message))];
            && IsRun(config, s, es)
            && var first := After(config, s, es);
               && first.rows[id].status == Succeeded
               && IsRun(config, first.(worker := s.worker), fs)
               && After(config, first.(worker := s.worker), fs).rows[id].status
                  == if s.rows[id].attempts + 1 < s.rows[id].maxAttempts then Pending else Failed
  {
    var start := Start(id, now, false);
    TwoEvents(config, s, start, Finish(id, now, Resolved));
    var first := After(config, s, [start, Finish(id, now, Resolved)]);
    TwoEvents(config, first.(worker := s.worker), start, Finish(id, now, Rejected(message)));
  }
}
