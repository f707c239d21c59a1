/** What holds over whole runs of the retry queue, crashes included. */
module RetryRuns {
  import opened Prelude
  import opened RetryJobs
  import opened RetryMachine

  ghost predicate Reachable(config: Config, es: seq<Event>) {
    IsRun(config, EMPTY, es)
  }

  ghost function Final(config: Config, es: seq<Event>): State
    requires Reachable(config, es)
  {
    After(config, EMPTY, es)
  }

  // ---------------------------------------------------------------- attempt budget

  /** What a job may be tried: its own maximum (a first try is never refused), plus every reclaim and manual retry of it. */
  function Budget(es: seq<Event>, row: Job, id: nat): int {
    Max(row.maxAttempts, 1) + Count(es, ReclaimsOf(id)) + Count(es, ManualsOf(id))
  }

  predicate Affordable(row: Job, starts: nat, budget: int) {
    row.attempts == starts <= budget && (row.status == Pending ==> row.attempts < budget)
  }

  lemma StepIsAffordable(config: Config, s: State, e: Event, id: nat, starts: nat, extra: nat)
    requires Inv(s) && Enabled(config, s, e)
    requires id < |s.rows| ==> Affordable(s.rows[id], starts, Max(s.rows[id].maxAttempts, 1) + extra)
    requires id >= |s.rows| ==> starts == 0
    ensures var t := Step(config, s, e);
            var more := if Matches(e, ReclaimsOf(id)) || Matches(e, ManualsOf(id)) then 1 else 0;
            var again := if Matches(e, StartsOf(id)) then 1 else 0;
            && (id < |t.rows| ==> Affordable(t.rows[id], starts + again, Max(t.rows[id].maxAttempts, 1) + extra + more))
            && (id >= |t.rows| ==> starts + again == 0)
  {
    StepRows(config, s, e);
  }

  /** `attempts` counts exactly the starts of a job, and stays within its budget, strictly while the job is pending. */
  lemma {:induction false} AttemptBudget(config: Config, es: seq<Event>, id: nat)
    requires Reachable(config, es)
    ensures id < |Final(config, es).rows| ==>
              var row := Final(config, es).rows[id];
              && row.attempts == Count(es, StartsOf(id)) <= Budget(es, row, id)
              && (row.status == Pending ==> row.attempts < Budget(es, row, id))
    ensures id >= |Final(config, es).rows| ==> Count(es, StartsOf(id)) == 0
    decreases |es|
  {
    if es != [] {
      RunKeepsInv(config, EMPTY, Init(es));
      AttemptBudget(config, Init(es), id);
      var extra := Count(Init(es), ReclaimsOf(id)) + Count(Init(es), ManualsOf(id));
      StepIsAffordable(config, Final(config, Init(es)), Last(es), id, Count(Init(es), StartsOf(id)), extra);
    }
  }

  /** The budget without the allowance for a first try. */
  ghost predicate WithinMaximum(config: Config, es: seq<Event>, id: nat) {
    Reachable(config, es) && id < |Final(config, es).rows| ==>
      var row := Final(config, es).rows[id];
      row.attempts <= row.maxAttempts + Count(es, ReclaimsOf(id)) + Count(es, ManualsOf(id))
  }

  lemma Extend(config: Config, es: seq<Event>, e: Event)
    requires Reachable(config, es) && Enabled(config, Final(config, es), e)
    ensures Reachable(config, es + [e]) && Final(config, es + [e]) == Step(config, Final(config, es), e)
    ensures forall kind :: Count(es + [e], kind) == Count(es, kind) + if Matches(e, kind) then 1 else 0
  {
    assert Init(es + [e]) == es;
  }

  /** A caller alone puts its job in the empty table. */
  lemma EnqueueAlone(config: Config, request: Request) returns (es: seq<Event>)
    ensures Reachable(config, es) && Final(config, es) == State([NewJob(request, 0)], Idle, [Returned(request, 0)], 0)
    ensures forall kind: Kind :: kind.ReclaimsOf? || kind.ManualsOf? ==> Count(es, kind) == 0
  {
    Extend(config, [], Call(request));
    es := [] + [Call(request)];
    assert Final(config, es) == State([], Idle, [Looking(request)], 0);
    Extend(config, es, Lookup(0));
    es := es + [Lookup(0)];
    assert Final(config, es) == State([], Idle, [Inserting(request)], 0);
    Extend(config, es, Insert(0, 0));
    es := es + [Insert(0, 0)];
  }

  /** Every job is tried once by some run, even when its maximum is zero or less. */
  lemma FirstTryIsMade(config: Config, request: Request) returns (es: seq<Event>)
    requires config.concurrency > 0
    ensures Reachable(config, es) && Final(config, es).rows == [Started(NewJob(request, 0), 1, 0)]
    ensures Count(es, ReclaimsOf(0)) == Count(es, ManualsOf(0)) == 0
  {
    es := EnqueueAlone(config, request);
    var rows := [NewJob(request, 0)];
    Extend(config, es, BeginPoll(0, []));
    es := es + [BeginPoll(0, [])];
    assert IsDueSelection(config, rows, 0, [0]);
    assert Snapshots(rows, [0]) == [Snapshot(0, rows[0])];
    Extend(config, es, SelectDue(0, [0]));
    es := es + [SelectDue(0, [0])];
    assert Final(config, es) == State(rows, Draining([Snapshot(0, rows[0])], false), [Returned(request, 0)], 0);
    Extend(config, es, Start(0, 0, false));
    es := es + [Start(0, 0, false)];
  }

  /** So a job's own maximum bounds its attempts, over every run, exactly when the maximum is at least one. */
  lemma MaximumBoundsIff(config: Config, m: int)
    requires config.concurrency > 0
    ensures (forall es, id: nat | Reachable(config, es) && id < |Final(config, es).rows| && Final(config, es).rows[id].maxAttempts == m
             :: WithinMaximum(config, es, id))
            <==> m >= 1
  {
    if m >= 1 {
      forall es, id: nat | Reachable(config, es) && id < |Final(config, es).rows| && Final(config, es).rows[id].maxAttempts == m
        ensures WithinMaximum(config, es, id)
      {
        AttemptBudget(config, es, id);
      }
    } else {
      var request := Request(StatusSync, "key", "payload", m);
      var es := FirstTryIsMade(config, request);
      assert !WithinMaximum(config, es, 0);
    }
  }

  /** Success is final: no later step of any run touches the row again. */
  lemma {:induction false} SucceededIsFinal(config: Config, s: State, es: seq<Event>, id: nat)
    requires Inv(s) && IsRun(config, s, es)
    requires id < |s.rows| && s.rows[id].status == Succeeded
    ensures id < |After(config, s, es).rows| && After(config, s, es).rows[id] == s.rows[id]
    decreases |es|
  {
    if es != [] {
      SucceededIsFinal(config, s, Init(es), id);
      RunKeepsInv(config, s, Init(es));
      StepRows(config, After(config, s, Init(es)), Last(es));
    }
  }

  // ---------------------------------------------------------------- termination

  /** Attempts still owed to a job, counted in worker writes. */
  function JobPotential(row: Job): int {
    match row.status
    case Pending => 2 * (Max(row.maxAttempts, 1) - row.attempts)
    case Processing => 2 * (Max(row.maxAttempts, 1) - row.attempts) + 1
    case _ => 0
  }

  function Potentials(rows: seq<Job>): (r: seq<int>)
    ensures |r| == |rows|
    ensures forall i :: 0 <= i < |rows| ==> r[i] == JobPotential(rows[i])
  {
    seq(|rows|, i requires 0 <= i < |rows| => JobPotential(rows[i]))
  }

  function Capacities(rows: seq<Job>): (r: seq<int>)
    ensures |r| == |rows|
    ensures forall i :: 0 <= i < |rows| ==> r[i] == 2 * Max(rows[i].maxAttempts, 1)
  {
    seq(|rows|, i requires 0 <= i < |rows| => 2 * Max(rows[i].maxAttempts, 1))
  }

  predicate Settled(row: Job) {
    row.status == Succeeded || row.status == Failed
  }

  /** Potential in use, less the potential the jobs came with. */
  function Balance(rows: seq<Job>): int {
    IntSum(Potentials(rows)) - IntSum(Capacities(rows))
  }

  lemma RewriteMovesBalance(rows: seq<Job>, id: nat, row: Job)
    requires id < |rows| && row.maxAttempts == rows[id].maxAttempts
    ensures Balance(rows[id := row]) == Balance(rows) - JobPotential(rows[id]) + JobPotential(row)
  {
    assert Capacities(rows[id := row]) == Capacities(rows);
    IntSumUpdate(Potentials(rows), id, JobPotential(row));
    assert Potentials(rows[id := row]) == Potentials(rows)[id := JobPotential(row)];
  }

  lemma InsertKeepsBalance(rows: seq<Job>, r: Request, now: int)
    ensures Balance(rows + [NewJob(r, now)]) == Balance(rows)
  {
    assert Potentials(rows + [NewJob(r, now)])[..|rows|] == Potentials(rows);
    assert Capacities(rows + [NewJob(r, now)])[..|rows|] == Capacities(rows);
  }

  lemma StartLowersBalance(config: Config, s: State, e: Event)
    requires Inv(s) && Enabled(config, s, e) && e.Start? && !e.manual
    ensures Balance(Step(config, s, e).rows) + 1 == Balance(s.rows)
  {
    assert s.worker.due[0].job == s.rows[e.id];
    RewriteMovesBalance(s.rows, e.id, Step(config, s, e).rows[e.id]);
  }

  lemma FinishLowersBalance(config: Config, s: State, e: Event)
    requires Inv(s) && Enabled(config, s, e) && e.Finish? && JobPotential(s.rows[e.id]) >= 1
    ensures Balance(Step(config, s, e).rows) + 1 <= Balance(s.rows)
  {
    RewriteMovesBalance(s.rows, e.id, Step(config, s, e).rows[e.id]);
  }

  lemma StepLowersBalance(config: Config, s: State, e: Event)
    requires Inv(s) && Enabled(config, s, e) && !e.Reclaim? && !(e.Start? && e.manual)
    requires forall i :: 0 <= i < |s.rows| && s.rows[i].status == Processing ==> JobPotential(s.rows[i]) >= 1
    ensures Balance(Step(config, s, e).rows) + (if e.Start? || e.Finish? then 1 else 0) <= Balance(s.rows)
  {
    if e.Start? {
      StartLowersBalance(config, s, e);
    } else if e.Finish? {
      FinishLowersBalance(config, s, e);
    } else if e.Insert? {
      InsertKeepsBalance(s.rows, s.callers[e.caller].request, e.now);
    } else {
      assert Step(config, s, e).rows == s.rows;
    }
  }

  lemma {:induction false} NoInterventions(es: seq<Event>, id: nat)
    requires Count(es, Reclaims) == 0 && Count(es, Manuals) == 0
    ensures Count(es, ReclaimsOf(id)) == 0 && Count(es, ManualsOf(id)) == 0
  {
    if es != [] {
      NoInterventions(Init(es), id);
    }
  }

  /** Nobody intervening, an unsettled job still has potential left. */
  lemma UnsettledHasPotential(config: Config, es: seq<Event>, id: nat)
    requires Reachable(config, es) && Count(es, Reclaims) == 0 && Count(es, Manuals) == 0
    requires id < |Final(config, es).rows|
    ensures var row := Final(config, es).rows[id];
            row.attempts <= Max(row.maxAttempts, 1) && (if Settled(row) then JobPotential(row) == 0 else JobPotential(row) >= 1)
  {
    AttemptBudget(config, es, id);
    NoInterventions(es, id);
  }

  lemma UnsettledHavePotential(config: Config, es: seq<Event>)
    requires Reachable(config, es) && Count(es, Reclaims) == 0 && Count(es, Manuals) == 0
    ensures var rows := Final(config, es).rows;
            forall i :: 0 <= i < |rows| ==> if Settled(rows[i]) then JobPotential(rows[i]) == 0 else JobPotential(rows[i]) >= 1
  {
    var rows := Final(config, es).rows;
    forall i | 0 <= i < |rows| ensures if Settled(rows[i]) then JobPotential(rows[i]) == 0 else JobPotential(rows[i]) >= 1 {
      UnsettledHasPotential(config, es, i);
    }
  }

  lemma {:induction false} StartsAreBounded(config: Config, es: seq<Event>)
    requires Reachable(config, es) && Count(es, Reclaims) == 0 && Count(es, Manuals) == 0
    ensures var rows := Final(config, es).rows;
            Count(es, Writes) + Balance(rows) <= 0
    decreases |es|
  {
    if es != [] {
      StartsAreBounded(config, Init(es));
      RunKeepsInv(config, EMPTY, Init(es));
      UnsettledHavePotential(config, Init(es));
      StepLowersBalance(config, Final(config, Init(es)), Last(es));
    }
  }

  /**
   * Without reclaims and manual retries every start and every finish uses up
   * potential, so the queue can make at most twice the sum of the maxima of them,
   * less one for each job not yet settled.
   */
  lemma QueueWindsDown(config: Config, es: seq<Event>)
    requires Reachable(config, es) && Count(es, Reclaims) == 0 && Count(es, Manuals) == 0
    ensures var rows := Final(config, es).rows;
            Count(es, Writes) + Unsettled(rows) <= IntSum(Capacities(rows))
  {
    var rows := Final(config, es).rows;
    StartsAreBounded(config, es);
    UnsettledHavePotential(config, es);
    UnsettledAtMost(rows);
  }

  function Unsettled(rows: seq<Job>): nat {
    if rows == [] then 0 else Unsettled(rows[..|rows| - 1]) + if Settled(rows[|rows| - 1]) then 0 else 1
  }

  lemma {:induction false} UnsettledAtMost(rows: seq<Job>)
    requires forall i :: 0 <= i < |rows| ==> if Settled(rows[i]) then JobPotential(rows[i]) == 0 else JobPotential(rows[i]) >= 1
    ensures Unsettled(rows) <= IntSum(Potentials(rows))
  {
    if rows != [] {
      UnsettledAtMost(rows[..|rows| - 1]);
      assert Potentials(rows)[..|rows| - 1] == Potentials(rows[..|rows| - 1]);
    }
  }

  /** Without failures nothing is orphaned: a row in processing is the one the worker is attempting. */
  lemma {:induction false} OnlyFailuresOrphan(config: Config, es: seq<Event>, id: nat)
    requires Reachable(config, es) && Count(es, Failures) == 0
    requires id < |Final(config, es).rows| && Final(config, es).rows[id].status == Processing
    ensures Final(config, es).worker.Attempting? && Final(config, es).worker.current.id == id
    decreases |es|
  {
    if es != [] {
      var s, e := Final(config, Init(es)), Last(es);
      RunKeepsInv(config, EMPTY, Init(es));
      StepRows(config, s, e);
      if id < |s.rows| && s.rows[id].status == Processing {
        OnlyFailuresOrphan(config, Init(es), id);
      }
    }
  }

  /** A crash keeps the table, and what was answered; the worker and every caller still under way are gone. */
  lemma CrashKeepsTable(config: Config, s: State)
    ensures Enabled(config, s, Crash)
    ensures var t := Step(config, s, Crash);
            && t.rows == s.rows && t.worker == Idle && |t.callers| == |s.callers|
            && forall c :: 0 <= c < |s.callers| ==>
                 if s.callers[c].Returned? || s.callers[c].Refused? then t.callers[c] == s.callers[c] else t.callers[c].Lost?
  {
  }

  /** An abandoned cycle costs nobody but the worker anything. */
  lemma AbortFreesWorker(config: Config, s: State)
    requires Enabled(config, s, Abort)
    ensures Step(config, s, Abort) == State(s.rows, Idle, s.callers, s.clock)
  {
  }

  // ---------------------------------------------------------------- enqueue

  /** All callers of a key get the same job, the only row with that key. */
  lemma OneJobPerKey(config: Config, es: seq<Event>, c: nat, d: nat)
    requires Reachable(config, es)
    ensures var s := Final(config, es);
            c < |s.callers| && d < |s.callers| && s.callers[c].Returned? && s.callers[d].Returned?
            && s.callers[c].request.key == s.callers[d].request.key ==>
              && s.callers[c].id == s.callers[d].id < |s.rows|
              && forall i :: 0 <= i < |s.rows| ==> (s.rows[i].key == s.callers[c].request.key <==> i == s.callers[c].id)
  {
    RunKeepsInv(config, EMPTY, es);
  }

  /** Whatever happens later, a job keeps its type, key, payload and maximum, and its place in the table. */
  lemma {:induction false} JobsKeepTheirIdentity(config: Config, s: State, es: seq<Event>, id: nat)
    requires IsRun(config, s, es) && id < |s.rows|
    ensures id < |After(config, s, es).rows| && SameJob(After(config, s, es).rows[id], s.rows[id])
    decreases |es|
  {
    if es != [] {
      JobsKeepTheirIdentity(config, s, Init(es), id);
      StepRows(config, After(config, s, Init(es)), Last(es));
    }
  }

  /** Losing the race is never an error: only a failing insert or a failing second look can refuse a caller. */
  lemma {:induction false} RacesAreNotRefused(config: Config, es: seq<Event>, c: nat)
    requires Reachable(config, es) && Count(es, EnqueueErrors) == 0 && c < |Final(config, es).callers|
    ensures !Final(config, es).callers[c].Refused?
    decreases |es|
  {
    if es != [] {
      RunKeepsInv(config, EMPTY, Init(es));
      if c < |Final(config, Init(es)).callers| {
        RacesAreNotRefused(config, Init(es), c);
      }
    }
  }

  // ---------------------------------------------------------------- schedule

  /** In no run, however it is interleaved, does an automatic attempt start early or on a job that is not pending. */
  lemma NeverEarly(config: Config, es: seq<Event>, id: nat, now: int)
    requires Reachable(config, es) && Enabled(config, Final(config, es), Start(id, now, false))
    ensures var row := Final(config, es).rows[id]; row.status == Pending && row.nextAttemptAt <= now
  {
    RunKeepsInv(config, EMPTY, es);
  }

  ghost predicate Holding(s: State, id: nat) {
    s.worker.Attempting? && s.worker.current.id == id
  }

  lemma {:induction false} TimeStays(config: Config, s: State, es: seq<Event>, id: nat)
    requires Inv(s) && IsRun(config, s, es) && id < |s.rows| && !Holding(s, id)
    requires Count(es, StartsOf(id)) == 0
    ensures var t := After(config, s, es);
            id < |t.rows| && !Holding(t, id) && t.rows[id].nextAttemptAt == s.rows[id].nextAttemptAt
    decreases |es|
  {
    if es != [] {
      TimeStays(config, s, Init(es), id);
      StepRows(config, After(config, s, Init(es)), Last(es));
    }
  }

  /** A failed attempt that is not the last one re-times its job by its backoff exactly: base * 2^(k - 1), capped. */
  lemma FailedAttemptIsRetimed(config: Config, s: State, id: nat, now: int, message: string)
    requires Inv(s) && Enabled(config, s, Finish(id, now, Rejected(message)))
    requires s.rows[id].attempts < s.rows[id].maxAttempts
    ensures var row := Step(config, s, Finish(id, now, Rejected(message))).rows[id];
            && row.status == Pending && row.lastError == Some(message)
            && row.nextAttemptAt == now + Min(config.baseDelay * Pow2(Max(s.rows[id].attempts - 1, 0)), config.maxDelay)
  {
  }

  /** After a failed attempt k that is to be retried, the next automatic start of the job waits out the backoff of k. */
  lemma BackoffIsWaitedOut(config: Config, s: State, id: nat, failedAt: int, message: string, es: seq<Event>, startedAt: int)
    requires Inv(s) && Enabled(config, s, Finish(id, failedAt, Rejected(message)))
    requires s.rows[id].attempts < s.rows[id].maxAttempts
    requires var t := Step(config, s, Finish(id, failedAt, Rejected(message)));
             && IsRun(config, t, es) && Count(es, StartsOf(id)) == 0
             && Enabled(config, After(config, t, es), Start(id, startedAt, false))
    ensures startedAt - failedAt >= Backoff(s.rows[id].attempts, config.baseDelay, config.maxDelay)
  {
    var e := Finish(id, failedAt, Rejected(message));
    var t := Step(config, s, e);
    StepKeepsCallers(config, s, e);
    StepKeepsWorker(config, s, e);
    RunKeepsInv(config, t, es);
    TimeStays(config, t, es, id);
  }

  /** When the job was first started. */
  function FirstStart(es: seq<Event>, id: nat): int
    requires Count(es, StartsOf(id)) > 0
  {
    if Count(Init(es), StartsOf(id)) > 0 then FirstStart(Init(es), id) else Last(es).now
  }

  /** The next start of a job tried n times is timed at least n delays after its first. */
  ghost predicate OnPace(config: Config, s: State, id: nat, n: nat, first: int)
    requires id < |s.rows| && n > 0
  {
    && (s.rows[id].status == Pending ==> s.rows[id].nextAttemptAt >= first + TotalDelay(n, config.baseDelay, config.maxDelay))
    && (s.rows[id].status == Processing ==> s.clock >= first + TotalDelay(n - 1, config.baseDelay, config.maxDelay))
  }

  lemma StepKeepsPace(config: Config, s: State, e: Event, id: nat, first: int)
    requires Inv(s) && Enabled(config, s, e) && id < |s.rows| && s.rows[id].attempts > 0
    requires !Matches(e, ReclaimsOf(id)) && !Matches(e, ManualsOf(id))
    requires OnPace(config, s, id, s.rows[id].attempts, first)
    ensures OnPace(config, Step(config, s, e), id, Step(config, s, e).rows[id].attempts, first)
  {
    StepRows(config, s, e);
    if e.Start? && e.id == id {
      assert s.rows[id].status == Pending && s.rows[id].nextAttemptAt <= e.now;
    } else if e.Finish? && e.id == id {
      assert s.rows[id].status == Processing;
    }
  }

  lemma {:induction false} JobsKeepPace(config: Config, es: seq<Event>, id: nat)
    requires Reachable(config, es) && Count(es, ReclaimsOf(id)) == 0 && Count(es, ManualsOf(id)) == 0
    requires id < |Final(config, es).rows| && Count(es, StartsOf(id)) > 0
    ensures OnPace(config, Final(config, es), id, Count(es, StartsOf(id)), FirstStart(es, id))
    decreases |es|
  {
    var front := Init(es);
    AttemptBudget(config, front, id);
    AttemptBudget(config, es, id);
    RunKeepsInv(config, EMPTY, front);
    if Count(front, StartsOf(id)) > 0 {
      JobsKeepPace(config, front, id);
      StepKeepsPace(config, Final(config, front), Last(es), id, FirstStart(front, id));
    }
  }

  /**
   * Over a whole run the schedule is the closed form: a job that was neither
   * reclaimed nor retried by hand is started for the (n + 1)-st time at least
   * base * (2^m - 1) + (n - m) * cap after the first, m of the n delays being uncapped.
   */
  lemma StartsKeepSchedule(config: Config, es: seq<Event>, id: nat, now: int)
    requires Reachable(config, es) && Count(es, ReclaimsOf(id)) == 0 && Count(es, ManualsOf(id)) == 0
    requires Count(es, StartsOf(id)) > 0 && config.baseDelay >= 0
    requires Enabled(config, Final(config, es), Start(id, now, false))
    ensures var n := Count(es, StartsOf(id));
            var m := Uncapped(n, config.baseDelay, config.maxDelay);
            now - FirstStart(es, id) >= config.baseDelay * (Pow2(m) - 1) + (n - m) * config.maxDelay
  {
    NeverEarly(config, es, id, now);
    JobsKeepPace(config, es, id);
    TotalDelayClosedForm(Count(es, StartsOf(id)), config.baseDelay, config.maxDelay);
  }

  /** The delays the closing writes of a run put before the next attempt of a job, in total. */
  ghost function Scheduled(config: Config, es: seq<Event>, id: nat): int
    requires Reachable(config, es)
    decreases |es|
  {
    if es == [] then 0
    else
      var e, rows := Last(es), Final(config, es).rows;
      Scheduled(config, Init(es), id)
      + if e.Finish? && e.id == id < |rows| && rows[id].status == Pending then rows[id].nextAttemptAt - e.now else 0
  }

  /** How many delays a job has behind it, its next attempt included. */
  function DelaysOf(row: Job): int {
    if row.status == Pending then row.attempts else row.attempts - 1
  }

  lemma StepSchedules(config: Config, s: State, e: Event, id: nat)
    requires Inv(s) && Enabled(config, s, e) && id < |s.rows| && DelaysOf(s.rows[id]) >= 0
    requires !Matches(e, ReclaimsOf(id)) && !Matches(e, ManualsOf(id))
    ensures var after := Step(config, s, e).rows[id];
            && DelaysOf(after) >= 0
            && TotalDelay(DelaysOf(after), config.baseDelay, config.maxDelay)
               == TotalDelay(DelaysOf(s.rows[id]), config.baseDelay, config.maxDelay)
                  + if e.Finish? && e.id == id && after.status == Pending then after.nextAttemptAt - e.now else 0
  {
    StepRows(config, s, e);
    if e.Start? && e.id == id {
      assert s.worker.due[0].job == s.rows[id];
    } else if e.Finish? && e.id == id {
      assert s.rows[id].status == Processing && s.rows[id].attempts > 0;
    }
  }

  lemma {:induction false} DelaysSum(config: Config, es: seq<Event>, id: nat)
    requires Reachable(config, es) && Count(es, ReclaimsOf(id)) == 0 && Count(es, ManualsOf(id)) == 0
    ensures id >= |Final(config, es).rows| ==> Scheduled(config, es, id) == 0
    ensures id < |Final(config, es).rows| ==>
              var n := DelaysOf(Final(config, es).rows[id]);
              n >= 0 && Scheduled(config, es, id) == TotalDelay(n, config.baseDelay, config.maxDelay)
    decreases |es|
  {
    if es != [] {
      var s, e := Final(config, Init(es)), Last(es);
      DelaysSum(config, Init(es), id);
      RunKeepsInv(config, EMPTY, Init(es));
      StepRows(config, s, e);
      if id < |s.rows| {
        StepSchedules(config, s, e, id);
      }
    }
  }

  /**
   * The schedule, with equality: over every run the delays scheduled for a job that
   * was neither reclaimed nor retried by hand add up to the closed form.
   */
  lemma DelaysAreClosedForm(config: Config, es: seq<Event>, id: nat)
    requires Reachable(config, es) && Count(es, ReclaimsOf(id)) == 0 && Count(es, ManualsOf(id)) == 0
    requires id < |Final(config, es).rows| && config.baseDelay >= 0
    ensures var n := DelaysOf(Final(config, es).rows[id]);
            && n >= 0
            && var m := Uncapped(n, config.baseDelay, config.maxDelay);
               Scheduled(config, es, id) == config.baseDelay * (Pow2(m) - 1) + (n - m) * config.maxDelay
  {
    DelaysSum(config, es, id);
    TotalDelayClosedForm(DelaysOf(Final(config, es).rows[id]), config.baseDelay, config.maxDelay);
  }

  // ---------------------------------------------------------------- reclaims

  /** What the worker set out to reclaim was last written long enough ago. */
  ghost predicate ReclaimsOld(config: Config, s: State) {
    s.worker.Reclaiming? ==>
      forall k :: 0 <= k < |s.worker.stale| && s.worker.stale[k] < |s.rows|
                  ==> s.rows[s.worker.stale[k]].updatedAt + config.staleAfter <= s.clock
  }

  lemma StepReclaimsOld(config: Config, s: State, e: Event)
    requires Inv(s) && ReclaimsOld(config, s) && Enabled(config, s, e)
    ensures ReclaimsOld(config, Step(config, s, e))
  {
    StepRows(config, s, e);
    if e.Reclaim? {
      var stale, rest := s.worker.stale, s.worker.stale[1..];
      assert forall k :: 0 <= k < |rest| ==> rest[k] == stale[k + 1];
    }
  }

  lemma {:induction false} RunReclaimsOld(config: Config, es: seq<Event>)
    requires Reachable(config, es)
    ensures ReclaimsOld(config, Final(config, es))
    decreases |es|
  {
    if es != [] {
      RunReclaimsOld(config, Init(es));
      RunKeepsInv(config, EMPTY, Init(es));
      StepReclaimsOld(config, Final(config, Init(es)), Last(es));
    }
  }

  /** When the job was last started. */
  function LastStart(es: seq<Event>, id: nat): int
    requires Count(es, StartsOf(id)) > 0
  {
    if Matches(Last(es), StartsOf(id)) then Last(es).now else LastStart(Init(es), id)
  }

  /** A row in processing carries the time its attempt started. */
  lemma {:induction false} ProcessingSinceStart(config: Config, es: seq<Event>, id: nat)
    requires Reachable(config, es) && id < |Final(config, es).rows| && Final(config, es).rows[id].status == Processing
    ensures Count(es, StartsOf(id)) > 0 && Final(config, es).rows[id].updatedAt == LastStart(es, id)
    decreases |es|
  {
    StepRows(config, Final(config, Init(es)), Last(es));
    if !Matches(Last(es), StartsOf(id)) {
      ProcessingSinceStart(config, Init(es), id);
    }
  }

  /** In no run is a row reclaimed that is not in processing, or whose attempt started less than the stale time ago. */
  lemma YoungAreNotReclaimed(config: Config, es: seq<Event>, id: nat, now: int)
    requires Reachable(config, es) && Enabled(config, Final(config, es), Reclaim(id, now))
    ensures var row := Final(config, es).rows[id];
            row.status == Processing && Count(es, StartsOf(id)) > 0 && LastStart(es, id) + config.staleAfter <= now
  {
    RunKeepsInv(config, EMPTY, es);
    RunReclaimsOld(config, es);
    ProcessingSinceStart(config, es, id);
  }

  /** Unless something fails, a poll does not get past reclaiming before the last stale row it found is reclaimed. */
  lemma {:induction false} ReclaimsComeFirst(config: Config, s: State, es: seq<Event>, id: nat)
    requires s.worker.Reclaiming? && id in s.worker.stale && IsRun(config, s, es)
    requires Count(es, Failures) == 0 && Count(es, ReclaimsOf(id)) == 0
    ensures var w := After(config, s, es).worker; w.Reclaiming? && id in w.stale
    decreases |es|
  {
    if es != [] {
      ReclaimsComeFirst(config, s, Init(es), id);
      var w := After(config, s, Init(es)).worker;
      assert w.stale == [w.stale[0]] + w.stale[1..];
    }
  }

  // ---------------------------------------------------------------- bounded waiting

  /** The other pending jobs timed at or before `time`. */
  ghost function Rivals(rows: seq<Job>, job: nat, time: int): set<nat> {
    set i: nat | i < |rows| && i != job && IsDue(rows[i], time)
  }

  ghost predicate Sorted(due: seq<Snapshot>) {
    forall j, k :: 0 <= j < k < |due| ==> due[j].job.nextAttemptAt <= due[k].job.nextAttemptAt
  }

  /** Either the job is among the snapshots, or all of them are timed at or before it. */
  ghost predicate InLine(config: Config, due: seq<Snapshot>, job: nat, time: int) {
    && |due| <= config.concurrency
    && Sorted(due)
    && ((exists k :: 0 <= k < |due| && due[k].id == job && due[k].job.nextAttemptAt == time)
        || (forall k :: 0 <= k < |due| ==> due[k].id != job && due[k].job.nextAttemptAt <= time))
  }

  ghost predicate Selected(due: seq<Snapshot>, job: nat) {
    exists k :: 0 <= k < |due| && due[k].id == job
  }

  /** Starts the running poll has already made, if it did not select the job. */
  ghost function Progress(config: Config, s: State, job: nat): int {
    match s.worker
    case Draining(due, false) => if Selected(due, job) then 0 else config.concurrency - |due|
    case Attempting(_, rest, false) => if Selected(rest, job) then 0 else config.concurrency - |rest|
    case _ => 0
  }

  /** The job is pending, was due at `time`, and is not overtaken within the running poll. */
  ghost predicate Waiting(config: Config, s: State, job: nat, time: int) {
    && job < |s.rows| && !Holding(s, job)
    && s.rows[job].status == Pending && s.rows[job].nextAttemptAt == time <= s.clock
    && (s.worker.Draining? && !s.worker.manual ==> InLine(config, s.worker.due, job, time))
    && (s.worker.Attempting? && !s.worker.manual ==> InLine(config, s.worker.rest, job, time))
  }

  lemma RivalsAfterStart(config: Config, s: State, e: Event, job: nat, time: int)
    requires Inv(s) && Waiting(config, s, job, time) && Enabled(config, s, e) && e.Start? && e.id != job
    ensures var before, after := Rivals(s.rows, job, time), Rivals(Step(config, s, e).rows, job, time);
            |after| + (if e.manual then 0 else 1) <= |before|
  {
    var t := Step(config, s, e);
    var before, after := Rivals(s.rows, job, time), Rivals(t.rows, job, time);
    assert s.worker.due[0].job == s.rows[e.id];
    assert t.rows[e.id].status == Processing;
    assert after == before - {e.id};
    if !e.manual {
      assert e.id in before;
    }
  }

  lemma RivalsAfterFinish(config: Config, s: State, e: Event, job: nat, time: int)
    requires Inv(s) && Waiting(config, s, job, time) && Enabled(config, s, e) && e.Finish?
    requires config.baseDelay > 0 && config.maxDelay > 0
    ensures Rivals(Step(config, s, e).rows, job, time) == Rivals(s.rows, job, time)
  {
    var t := Step(config, s, e);
    BackoffPositive(s.worker.current.job.attempts + 1, config.baseDelay, config.maxDelay);
    assert s.rows[e.id].status == Processing;
    assert !IsDue(t.rows[e.id], time);
  }

  lemma {:induction false} SubsetSize(a: set<nat>, b: set<nat>)
    requires a <= b
    ensures |a| <= |b|
  {
    if a != {} {
      var x :| x in a;
      SubsetSize(a - {x}, b - {x});
    }
  }

  lemma RivalsAfterInsert(config: Config, s: State, e: Event, job: nat, time: int)
    requires Enabled(config, s, e) && e.Insert?
    ensures var before, after := Rivals(s.rows, job, time), Rivals(Step(config, s, e).rows, job, time);
            |after| <= |before| + if e.now <= time then 1 else 0
  {
    var before, after := Rivals(s.rows, job, time), Rivals(Step(config, s, e).rows, job, time);
    StepRows(config, s, e);
    SubsetSize(after, if e.now <= time then before + {|s.rows|} else before);
  }

  lemma RivalsAfterReclaim(config: Config, s: State, e: Event, job: nat, time: int)
    requires Enabled(config, s, e) && e.Reclaim?
    ensures var before, after := Rivals(s.rows, job, time), Rivals(Step(config, s, e).rows, job, time);
            |after| <= |before| + 1
  {
    var before, after := Rivals(s.rows, job, time), Rivals(Step(config, s, e).rows, job, time);
    SubsetSize(after, before + {e.id});
  }

  lemma RivalsAfterOther(config: Config, s: State, e: Event, job: nat, time: int)
    requires Enabled(config, s, e) && !e.Reclaim? && !e.Start? && !e.Finish?
    ensures var before, after := Rivals(s.rows, job, time), Rivals(Step(config, s, e).rows, job, time);
            |after| <= |before| + if Matches(e, InsertsBy(time)) then 1 else 0
  {
    if e.Insert? {
      RivalsAfterInsert(config, s, e, job, time);
    } else {
      assert Step(config, s, e).rows == s.rows;
    }
  }

  lemma RivalsAfterStep(config: Config, s: State, e: Event, job: nat, time: int)
    requires Inv(s) && Waiting(config, s, job, time) && Enabled(config, s, e)
    requires config.baseDelay > 0 && config.maxDelay > 0 && !Matches(e, StartsOf(job))
    ensures var before, after := Rivals(s.rows, job, time), Rivals(Step(config, s, e).rows, job, time);
            |after| + (if Matches(e, PolledStarts) then 1 else 0)
            <= |before| + if Matches(e, InsertsBy(time)) || Matches(e, Reclaims) then 1 else 0
  {
    if e.Finish? {
      RivalsAfterFinish(config, s, e, job, time);
    } else if e.Start? {
      RivalsAfterStart(config, s, e, job, time);
    } else if e.Reclaim? {
      RivalsAfterReclaim(config, s, e, job, time);
    } else {
      RivalsAfterOther(config, s, e, job, time);
    }
  }

  /** A poll that passes over a due job is full, and of jobs timed at or before it. */
  lemma WaitingSelect(config: Config, s: State, e: Event, job: nat, time: int)
    requires Inv(s) && Waiting(config, s, job, time) && Enabled(config, s, e) && e.SelectDue?
    ensures var t := Step(config, s, e); Waiting(config, t, job, time) && Progress(config, t, job) == 0
  {
  }

  lemma WaitingStart(config: Config, s: State, e: Event, job: nat, time: int)
    requires Inv(s) && Waiting(config, s, job, time) && Enabled(config, s, e) && e.Start? && e.id != job
    ensures var t := Step(config, s, e);
            Waiting(config, t, job, time) && Progress(config, t, job) <= Progress(config, s, job) + if e.manual then 0 else 1
  {
  }

  lemma WaitingFinish(config: Config, s: State, e: Event, job: nat, time: int)
    requires Inv(s) && Waiting(config, s, job, time) && Enabled(config, s, e) && e.Finish?
    ensures var t := Step(config, s, e); Waiting(config, t, job, time) && Progress(config, t, job) == Progress(config, s, job)
  {
  }

  lemma WaitingOther(config: Config, s: State, e: Event, job: nat, time: int)
    requires Inv(s) && Waiting(config, s, job, time) && Enabled(config, s, e)
    requires !e.Start? && !e.Finish? && !e.SelectDue?
    ensures var t := Step(config, s, e);
            && Waiting(config, t, job, time)
            && (if Matches(e, Polls) then config.concurrency else 0) + Progress(config, t, job) <= Progress(config, s, job)
  {
    StepRows(config, s, e);
  }

  lemma WaitingStep(config: Config, s: State, e: Event, job: nat, time: int)
    requires Inv(s) && Waiting(config, s, job, time) && Enabled(config, s, e)
    requires !Matches(e, StartsOf(job))
    ensures var t := Step(config, s, e);
            && Waiting(config, t, job, time)
            && (if Matches(e, Polls) then config.concurrency else 0) + Progress(config, t, job)
               <= Progress(config, s, job) + if Matches(e, PolledStarts) then 1 else 0
  {
    if e.SelectDue? {
      WaitingSelect(config, s, e, job, time);
    } else if e.Start? {
      WaitingStart(config, s, e, job, time);
    } else if e.Finish? {
      WaitingFinish(config, s, e, job, time);
    } else {
      WaitingOther(config, s, e, job, time);
    }
  }

  /** `concurrency` for every completed poll. */
  function Served(config: Config, es: seq<Event>): nat {
    if es == [] then 0 else Served(config, Init(es)) + if Matches(Last(es), Polls) then config.concurrency else 0
  }

  lemma {:induction false} ServedIsProduct(config: Config, es: seq<Event>)
    ensures Served(config, es) == config.concurrency * Count(es, Polls)
  {
    if es != [] {
      ServedIsProduct(config, Init(es));
      var c, n := config.concurrency, Count(Init(es), Polls);
      assert c * (n + 1) == c * n + c;
    }
  }

  /** A run from an idle worker in which the job, due at the outset, is not started. */
  ghost predicate PassesOver(config: Config, s: State, es: seq<Event>, job: nat) {
    && Inv(s) && s.worker.Idle? && job < |s.rows| && IsDue(s.rows[job], s.clock)
    && IsRun(config, s, es) && Count(es, StartsOf(job)) == 0
  }

  /** Each completed poll that passed over the job was full. */
  lemma {:induction false} PollsAreFull(config: Config, s: State, es: seq<Event>, job: nat)
    requires PassesOver(config, s, es, job)
    ensures var t := After(config, s, es);
            && Waiting(config, t, job, s.rows[job].nextAttemptAt)
            && Served(config, es) + Progress(config, t, job) <= Count(es, PolledStarts)
    decreases |es|
  {
    if es != [] {
      PollsAreFull(config, s, Init(es), job);
      RunKeepsInv(config, s, Init(es));
      WaitingStep(config, After(config, s, Init(es)), Last(es), job, s.rows[job].nextAttemptAt);
    }
  }

  /** Rivals a run may add: jobs enqueued by the time the waiting one is timed for, and reclaimed jobs. */
  function Newcomers(es: seq<Event>, time: int): nat {
    Count(es, InsertsBy(time)) + Count(es, Reclaims)
  }

  /** And each start used up one of the job's rivals, none of which comes back unless it is reclaimed. */
  lemma {:induction false} StartsUseUpRivals(config: Config, s: State, es: seq<Event>, job: nat)
    requires PassesOver(config, s, es, job) && config.baseDelay > 0 && config.maxDelay > 0
    ensures var t, time := After(config, s, es), s.rows[job].nextAttemptAt;
            |Rivals(t.rows, job, time)| + Count(es, PolledStarts) <= |Rivals(s.rows, job, time)| + Newcomers(es, time)
    decreases |es|
  {
    if es != [] {
      StartsUseUpRivals(config, s, Init(es), job);
      PollsAreFull(config, s, Init(es), job);
      RunKeepsInv(config, s, Init(es));
      RivalsAfterStep(config, After(config, s, Init(es)), Last(es), job, s.rows[job].nextAttemptAt);
    }
  }

  lemma PassedOverPolls(config: Config, s: State, es: seq<Event>, job: nat)
    requires PassesOver(config, s, es, job) && config.baseDelay > 0 && config.maxDelay > 0
    ensures var time := s.rows[job].nextAttemptAt;
            config.concurrency * Count(es, Polls) <= |Rivals(s.rows, job, time)| + Newcomers(es, time)
  {
    PollsAreFull(config, s, es, job);
    StartsUseUpRivals(config, s, es, job);
    ServedIsProduct(config, es);
  }

  /**
   * Bounded waiting. A due job with r rivals is started within r / concurrency + 1
   * completed polls, counting as rivals also the jobs enqueued in the very
   * millisecond it is timed for and every reclaim. Crashes, failed statements,
   * manual retries and enqueues may interleave freely.
   */
  lemma BoundedWaiting(config: Config, s: State, es: seq<Event>, job: nat)
    requires Inv(s) && s.worker.Idle? && job < |s.rows| && IsDue(s.rows[job], s.clock)
    requires config.baseDelay > 0 && config.maxDelay > 0 && config.concurrency > 0
    requires IsRun(config, s, es)
    requires var time := s.rows[job].nextAttemptAt;
             Count(es, Polls) >= (|Rivals(s.rows, job, time)| + Newcomers(es, time)) / config.concurrency + 1
    ensures Count(es, StartsOf(job)) >= 1
  {
    if Count(es, StartsOf(job)) == 0 {
      var time := s.rows[job].nextAttemptAt;
      PassedOverPolls(config, s, es, job);
      TooManyPolls(config.concurrency, Count(es, Polls), |Rivals(s.rows, job, time)| + Newcomers(es, time));
      assert false;
    }
  }

  lemma TooManyPolls(c: nat, polls: nat, r: nat)
    requires c > 0 && polls >= r / c + 1
    ensures c * polls > r
  {
    assert r == c * (r / c) + r % c;
    assert c * (polls - (r / c + 1)) >= 0;
    assert c * (r / c + 1) == c * (r / c) + c;
  }
}
