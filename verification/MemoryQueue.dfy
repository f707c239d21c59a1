/** The in-memory retry queue that drives the sync engine: ids, attempts and backoff. */
module MemoryQueue {
  import opened Prelude

  // ---------------------------------------------------------------- ids

  function Digit36(d: nat): char
    requires d < 36
  {
    if d < 10 then ('0' as int + d) as char else ('a' as int + d - 10) as char
  }

  function Value36(c: char): int {
    if c <= '9' then c as int - '0' as int else c as int - 'a' as int + 10
  }

  function Base36(n: nat): (s: string)
    ensures '_' !in s
  {
    if n < 36 then [Digit36(n)] else Base36(n / 36) + [Digit36(n % 36)]
  }

  function Parse36(s: string): int {
    if s == "" then 0 else 36 * Parse36(s[..|s| - 1]) + Value36(s[|s| - 1])
  }

  lemma {:induction false} Base36RoundTrip(n: nat)
    ensures Parse36(Base36(n)) == n
  {
    var s := Base36(n);
    if n >= 36 {
      Base36RoundTrip(n / 36);
      assert s[..|s| - 1] == Base36(n / 36);
    } else {
      assert s[..0] == "";
    }
  }

  predicate IsAlphanumeric(c: char) {
    'a' <= c <= 'z' || 'A' <= c <= 'Z' || '0' <= c <= '9'
  }

  function SafeType(jobType: string): string {
    var safe := seq(|jobType|, i requires 0 <= i < |jobType| => if IsAlphanumeric(jobType[i]) then jobType[i] else '_');
    if |safe| <= 12 then safe else safe[..12]
  }

  function GenerateId(jobType: string, now: nat, counter: nat): string {
    SafeType(jobType) + "_" + Base36(now) + "_" + Base36(counter)
  }

  /** What follows the last underscore. */
  function LastSegment(s: string): string {
    if s == "" || s[|s| - 1] == '_' then "" else LastSegment(s[..|s| - 1]) + [s[|s| - 1]]
  }

  lemma {:induction false} LastSegmentOf(prefix: string, s: string)
    requires '_' !in s
    ensures LastSegment(prefix + "_" + s) == s
  {
    var t := prefix + "_" + s;
    if s != "" {
      LastSegmentOf(prefix, s[..|s| - 1]);
      assert t[..|t| - 1] == prefix + "_" + s[..|s| - 1];
      assert s[|s| - 1] in s;
    }
  }

  /** Ids made with different counters differ, whatever the type and the time. */
  lemma IdsDiffer(t1: string, now1: nat, c1: nat, t2: string, now2: nat, c2: nat)
    requires c1 != c2
    ensures GenerateId(t1, now1, c1) != GenerateId(t2, now2, c2)
  {
    LastSegmentOf(SafeType(t1) + "_" + Base36(now1), Base36(c1));
    LastSegmentOf(SafeType(t2) + "_" + Base36(now2), Base36(c2));
    Base36RoundTrip(c1);
    Base36RoundTrip(c2);
  }

  // ---------------------------------------------------------------- jobs

  datatype JobStatus = Queued | Processing | Completed | Failed

  datatype Job = Job(jobType: string, retryCount: nat, maxRetries: int, lastError: Option<string>, nextRetryAt: int, status: JobStatus)

  /** What an attempt meets: no handler, or a handler that succeeds or fails. */
  datatype Reply = NoHandler | Success | Failure(error: string)

  const DEFAULT_MAX_RETRIES := 3
  const BACKOFF_BASE_MS := 2_000
  const DEFERRAL_MS := 60_000

  function Pow4(n: nat): int {
    if n == 0 then 1 else 4 * Pow4(n - 1)
  }

  function NewJob(jobType: string, maxRetries: Option<int>, now: int): Job {
    Job(jobType, 0, if maxRetries.Some? then maxRetries.value else DEFAULT_MAX_RETRIES, None, now, Queued)
  }

  function Requeued(job: Job, now: int): Job {
    job.(retryCount := 0, status := Queued, lastError := None, nextRetryAt := now)
  }

  /** A job after `processJob`; `now` is the clock when a new time is set. */
  function Attempted(job: Job, reply: Reply, now: int): Job {
    match reply
    case NoHandler => job.(nextRetryAt := now + DEFERRAL_MS)
    case Success => job.(status := Completed)
    case Failure(error) =>
      var n := job.retryCount + 1;
      if n >= job.maxRetries then job.(retryCount := n, lastError := Some(error), status := Failed)
      else job.(retryCount := n, lastError := Some(error), status := Queued, nextRetryAt := now + BACKOFF_BASE_MS * Pow4(n - 1))
  }

  predicate IsDue(job: Job, now: int) {
    job.status == Queued && job.nextRetryAt <= now
  }

  // ---------------------------------------------------------------- runs

  /** The queue, the counter behind its ids, and every id it ever returned. */
  datatype State = State(counter: nat, jobs: map<string, Job>, issued: seq<string>)

  const EMPTY: State := State(0, map[], [])

  datatype Action =
    | Enqueue(jobType: string, maxRetries: Option<int>, now: nat)
    | Retry(id: string, now: nat)
    | Clear
    | Attempt(id: string, reply: Reply, dueAt: int, now: nat)

  predicate Enabled(s: State, a: Action) {
    match a
    case Retry(id, _) => id in s.jobs && s.jobs[id].status == Failed
    case Attempt(id, _, dueAt, _) => id in s.jobs && IsDue(s.jobs[id], dueAt)
    case _ => true
  }

  function Cleared(jobs: map<string, Job>): (r: map<string, Job>)
    ensures forall id :: id in r <==> id in jobs && jobs[id].status != Completed && jobs[id].status != Failed
    ensures forall id :: id in r ==> r[id] == jobs[id]
  {
    map id | id in jobs && jobs[id].status != Completed && jobs[id].status != Failed :: jobs[id]
  }

  function Step(s: State, a: Action): State
    requires Enabled(s, a)
  {
    match a
    case Enqueue(jobType, maxRetries, now) =>
      var id := GenerateId(jobType, now, s.counter + 1);
      State(s.counter + 1, s.jobs[id := NewJob(jobType, maxRetries, now)], s.issued + [id])
    case Retry(id, now) => s.(jobs := s.jobs[id := Requeued(s.jobs[id], now)])
    case Clear => s.(jobs := Cleared(s.jobs))
    case Attempt(id, reply, _, now) => s.(jobs := s.jobs[id := Attempted(s.jobs[id], reply, now)])
  }

  predicate IsRun(acts: seq<Action>)
    decreases |acts|, 0
  {
    acts == [] || (IsRun(acts[..|acts| - 1]) && Enabled(After(acts[..|acts| - 1]), acts[|acts| - 1]))
  }

  function After(acts: seq<Action>): State
    requires IsRun(acts)
    decreases |acts|, 1
  {
    if acts == [] then EMPTY else Step(After(acts[..|acts| - 1]), acts[|acts| - 1])
  }

  /** Handler runs of a job, and the delay scheduled between them, since it was last queued or re-queued. */
  datatype Effort = Effort(tries: nat, delay: int)

  function EffortOn(acts: seq<Action>, id: string): Effort
    requires IsRun(acts)
  {
    if acts == [] then Effort(0, 0)
    else
      var front, a := acts[..|acts| - 1], acts[|acts| - 1];
      var before, s := EffortOn(front, id), After(front);
      match a
      case Enqueue(jobType, _, now) => if GenerateId(jobType, now, s.counter + 1) == id then Effort(0, 0) else before
      case Retry(id', _) => if id' == id then Effort(0, 0) else before
      case Clear => before
      case Attempt(id', reply, _, now) =>
        if id' != id || reply.NoHandler? then before
        else MoreEffort(s.jobs[id], before, reply, now)
  }

  ghost predicate MadeWith(id: string, counter: nat) {
    exists jobType, now :: GenerateId(jobType, now, counter) == id
  }

  /** The k-th id carries counter k + 1, so no id is issued twice and none replaces a job in the queue. */
  lemma {:induction false} IdsOverRuns(acts: seq<Action>)
    requires IsRun(acts)
    ensures var s := After(acts);
            && |s.issued| == s.counter
            && (forall k: nat :: k < |s.issued| ==> MadeWith(s.issued[k], k + 1))
            && (forall j, k :: 0 <= j < k < |s.issued| ==> s.issued[j] != s.issued[k])
            && (forall id :: id in s.jobs ==> id in s.issued)
  {
    if acts != [] {
      var before, a := After(acts[..|acts| - 1]), acts[|acts| - 1];
      IdsOverRuns(acts[..|acts| - 1]);
      if a.Enqueue? {
        FreshId(before, a.jobType, a.now);
      }
    }
  }

  lemma FreshId(s: State, jobType: string, now: nat)
    requires |s.issued| == s.counter && forall k: nat :: k < |s.issued| ==> MadeWith(s.issued[k], k + 1)
    ensures GenerateId(jobType, now, s.counter + 1) !in s.issued
  {
    forall j: nat | j < |s.issued| ensures s.issued[j] != GenerateId(jobType, now, s.counter + 1) {
      assert MadeWith(s.issued[j], j + 1);
      var t, n :| GenerateId(t, n, j + 1) == s.issued[j];
      IdsDiffer(t, n, j + 1, jobType, now, s.counter + 1);
    }
  }

  /** How the effort on a job stands to its retry count. */
  predicate Accounted(job: Job, e: Effort) {
    match job.status
    case Queued =>
      && e.tries == job.retryCount < Max(job.maxRetries, 1)
      && 3 * e.delay == BACKOFF_BASE_MS * (Pow4(job.retryCount) - 1)
    case Completed =>
      && e.tries == job.retryCount + 1 <= Max(job.maxRetries, 1)
      && 3 * e.delay == BACKOFF_BASE_MS * (Pow4(job.retryCount) - 1)
    case Failed =>
      && 1 <= e.tries == job.retryCount <= Max(job.maxRetries, 1)
      && 3 * e.delay == BACKOFF_BASE_MS * (Pow4(job.retryCount - 1) - 1)
    case Processing => false
  }

  /** The effort of one more attempt. */
  function MoreEffort(job: Job, e: Effort, reply: Reply, now: int): Effort {
    var after := Attempted(job, reply, now);
    Effort(e.tries + 1, e.delay + if after.status == Queued then after.nextRetryAt - now else 0)
  }

  lemma AttemptIsAccounted(job: Job, e: Effort, reply: Reply, now: int)
    requires Accounted(job, e) && job.status == Queued && reply != NoHandler
    ensures Accounted(Attempted(job, reply, now), MoreEffort(job, e, reply, now))
  {
  }

  /** Exact account of every job in every run; in particular none is left in processing. */
  lemma {:induction false} EffortIsAccounted(acts: seq<Action>, id: string)
    requires IsRun(acts) && id in After(acts).jobs
    ensures Accounted(After(acts).jobs[id], EffortOn(acts, id))
  {
    if acts != [] {
      var front, a := acts[..|acts| - 1], acts[|acts| - 1];
      var s := After(front);
      if id in s.jobs {
        EffortIsAccounted(front, id);
        IdsOverRuns(front);
        if a.Enqueue? {
          FreshId(s, a.jobType, a.now);
        } else if a.Attempt? && a.id == id && a.reply != NoHandler {
          AttemptIsAccounted(s.jobs[id], EffortOn(front, id), a.reply, a.now);
        }
      }
    }
  }

  /** At most `maxRetries` tries, and at most 2000 * (4^(maxRetries - 1) - 1) / 3 ms of waiting between them. */
  predicate WithinBudget(job: Job, e: Effort) {
    var n := Max(job.maxRetries, 1);
    e.tries <= n && 3 * e.delay <= BACKOFF_BASE_MS * (Pow4(n - 1) - 1)
  }

  lemma {:induction false} Pow4Grows(m: nat, n: nat)
    requires m <= n
    ensures 1 <= Pow4(m) <= Pow4(n)
  {
    if m < n {
      Pow4Grows(m, n - 1);
    } else if m > 0 {
      Pow4Grows(m - 1, m - 1);
    }
  }

  /** No run makes the queue exceed the budget of a (re)queued job. */
  lemma EffortIsBounded(acts: seq<Action>, id: string)
    requires IsRun(acts) && id in After(acts).jobs
    ensures WithinBudget(After(acts).jobs[id], EffortOn(acts, id))
  {
    EffortIsAccounted(acts, id);
    AccountIsBounded(After(acts).jobs[id], EffortOn(acts, id));
  }

  lemma AccountIsBounded(job: Job, e: Effort)
    requires Accounted(job, e)
    ensures WithinBudget(job, e)
  {
    var n := Max(job.maxRetries, 1);
    Pow4Grows(if job.status == Failed then job.retryCount - 1 else job.retryCount, n - 1);
  }

  // ---------------------------------------------------------------- waiting

  predicate Touches(a: Action, id: string) {
    (a.Attempt? || a.Retry?) && a.id == id
  }

  lemma {:induction false} PrefixIsRun(acts: seq<Action>, k: nat)
    requires IsRun(acts) && k <= |acts|
    ensures IsRun(acts[..k])
    ensures k < |acts| ==> Enabled(After(acts[..k]), acts[k]) && IsRun(acts[..k + 1]) && After(acts[..k + 1]) == Step(After(acts[..k]), acts[k])
    decreases |acts|
  {
    if k == |acts| {
      assert acts[..k] == acts;
    } else if k == |acts| - 1 {
      assert acts[..k + 1] == acts;
    } else {
      var front := acts[..|acts| - 1];
      PrefixIsRun(front, k);
      assert front[..k] == acts[..k] && front[..k + 1] == acts[..k + 1];
    }
  }

  lemma StepRests(s: State, a: Action, id: string)
    requires Enabled(s, a) && !Touches(a, id) && id in s.jobs && s.jobs[id].status == Queued
    requires a.Enqueue? ==> GenerateId(a.jobType, a.now, s.counter + 1) != id
    ensures id in Step(s, a).jobs && Step(s, a).jobs[id] == s.jobs[id]
  {
  }

  /** A queued job nobody attempts or re-queues stays as it is. */
  lemma {:induction false} JobRests(acts: seq<Action>, k: nat, id: string, job: Job)
    requires IsRun(acts) && k <= |acts| && IsRun(acts[..k])
    requires id in After(acts[..k]).jobs && After(acts[..k]).jobs[id] == job && job.status == Queued
    requires forall i :: k <= i < |acts| ==> !Touches(acts[i], id)
    ensures id in After(acts).jobs && After(acts).jobs[id] == job
    decreases |acts|
  {
    if k == |acts| {
      assert acts[..k] == acts;
    } else {
      var front, a := acts[..|acts| - 1], acts[|acts| - 1];
      assert front[..k] == acts[..k];
      JobRests(front, k, id, job);
      IdsOverRuns(front);
      if a.Enqueue? {
        FreshId(After(front), a.jobType, a.now);
      }
      StepRests(After(front), a, id);
    }
  }

  /** After failed try k a job is next attempted, unless re-queued by hand, 2000 * 4^(k - 1) ms later at the earliest. */
  lemma RetryWaits(acts: seq<Action>, k: nat, later: Action)
    requires IsRun(acts) && k < |acts| && IsRun(acts[..k])
    requires acts[k].Attempt? && acts[k].reply.Failure? && acts[k].id in After(acts[..k]).jobs
    requires var job := After(acts[..k]).jobs[acts[k].id]; job.retryCount + 1 < job.maxRetries
    requires forall i :: k < i < |acts| ==> !Touches(acts[i], acts[k].id)
    requires later.Attempt? && later.id == acts[k].id && Enabled(After(acts), later)
    ensures later.dueAt >= acts[k].now + 2_000 * Pow4(After(acts[..k]).jobs[acts[k].id].retryCount)
  {
    PrefixIsRun(acts, k);
    JobRests(acts, k + 1, acts[k].id, Attempted(After(acts[..k]).jobs[acts[k].id], acts[k].reply, acts[k].now));
  }

  /** An id is at most twelve characters of the job type, other than letters and digits replaced, then time and counter. */
  lemma IdForm(jobType: string, now: nat, counter: nat) returns (safe: string)
    ensures GenerateId(jobType, now, counter) == safe + "_" + Base36(now) + "_" + Base36(counter)
    ensures |safe| == Min(|jobType|, 12)
    ensures forall i :: 0 <= i < |safe| ==>
              safe[i] == if 'a' <= jobType[i] <= 'z' || 'A' <= jobType[i] <= 'Z' || '0' <= jobType[i] <= '9' then jobType[i] else '_'
  {
    safe := SafeType(jobType);
  }

  // ---------------------------------------------------------------- the service

  class MemoryRetryQueue {
    var counter: nat
    var jobs: map<string, Job>
    var handlers: set<string>
    var processing: bool
    ghost var issued: seq<string>

    constructor ()
      ensures View() == EMPTY && handlers == {} && !processing
    {
      counter, jobs, handlers, processing, issued := 0, map[], {}, false, [];
    }

    ghost function View(): State
      reads this
    {
      State(counter, jobs, issued)
    }

    method RegisterHandler(jobType: string)
      modifies this`handlers
      ensures handlers == old(handlers) + {jobType}
    {
      handlers := handlers + {jobType};
    }

    method Enqueue(jobType: string, maxRetries: Option<int>, now: nat) returns (id: string)
      modifies this
      ensures View() == Step(old(View()), Action.Enqueue(jobType, maxRetries, now))
      ensures handlers == old(handlers) && processing == old(processing)
      ensures issued == old(issued) + [id] && id in jobs
      ensures jobs[id] == Job(jobType, 0, if maxRetries.Some? then maxRetries.value else 3, None, now, Queued)
    {
      counter := counter + 1;
      id := GenerateId(jobType, now, counter);
      jobs := jobs[id := NewJob(jobType, maxRetries, now)];
      issued := issued + [id];
    }

    method RetryJob(id: string, now: nat) returns (done: bool)
      modifies this`jobs
      ensures done <==> Enabled(old(View()), Retry(id, now))
      ensures View() == if done then Step(old(View()), Retry(id, now)) else old(View())
    {
      if id !in jobs || jobs[id].status != Failed {
        return false;
      }
      jobs := jobs[id := jobs[id].(retryCount := 0, status := Queued, lastError := None, nextRetryAt := now)];
      return true;
    }

    /** Removes the settled jobs one by one and counts them. */
    method ClearCompleted() returns (removed: nat)
      modifies this`jobs
      ensures View() == Step(old(View()), Clear)
      ensures removed == |old(jobs)| - |jobs|
    {
      removed := 0;
      ghost var all := jobs;
      var left := jobs.Keys;
      while left != {}
        invariant left <= jobs.Keys <= all.Keys
        invariant forall id :: id in jobs ==> jobs[id] == all[id]
        invariant forall id :: id in all && id !in left ==> (id in jobs <==> all[id].status != Completed && all[id].status != Failed)
        invariant forall id :: id in left ==> id in jobs
        invariant removed == |all| - |jobs|
        decreases left
      {
        var id :| id in left;
        if jobs[id].status == Completed || jobs[id].status == Failed {
          ghost var before := jobs;
          jobs := jobs - {id};
          assert before.Keys == jobs.Keys + {id};
          removed := removed + 1;
        }
        left := left - {id};
      }
      assert jobs == Cleared(all);
    }

    function ReplyTo(jobType: string, error: Option<string>): Reply
      reads this`handlers
    {
      if jobType !in handlers then NoHandler
      else match error
        case None => Success
        case Some(message) => Failure(message)
    }

    method ProcessJob(id: string, error: Option<string>, now: nat)
      requires id in jobs && jobs[id].status == Queued
      modifies this`jobs
      ensures jobs == old(jobs)[id := Attempted(old(jobs[id]), ReplyTo(old(jobs[id]).jobType, error), now)]
      ensures var job, after := old(jobs[id]), jobs[id];
              if job.jobType !in handlers then after == job.(nextRetryAt := now + 60_000)
              else if error.None? then after == job.(status := Completed)
              else if job.retryCount + 1 >= job.maxRetries then
                after == job.(retryCount := job.retryCount + 1, lastError := error, status := Failed)
              else
                after == job.(retryCount := job.retryCount + 1, lastError := error,
                              nextRetryAt := now + 2_000 * Pow4(job.retryCount))
      ensures View() == Step(old(View()), Attempt(id, ReplyTo(old(jobs[id]).jobType, error), old(jobs[id]).nextRetryAt, now))
    {
      var job := jobs[id];
      if job.jobType !in handlers {
        jobs := jobs[id := job.(nextRetryAt := now + DEFERRAL_MS)];
        return;
      }
      job := job.(status := Processing);
      jobs := jobs[id := job];
      match error {
        case None =>
          job := job.(status := Completed);
        case Some(message) =>
          job := job.(retryCount := job.retryCount + 1, lastError := Some(message));
          if job.retryCount >= job.maxRetries {
            job := job.(status := Failed);
          } else {
            var delay := BACKOFF_BASE_MS * Pow4(job.retryCount - 1);
            job := job.(nextRetryAt := now + delay, status := Queued);
          }
      }
      jobs := jobs[id := job];
    }

    /**
     * One poll: the due jobs, in the order the queue lists them, each attempted
     * once; nothing else is touched and nothing is left in processing. A poll that
     * finds another under way does nothing.
     */
    method ProcessDueJobs(order: seq<string>, now: int, errors: map<string, Option<string>>, clocks: map<string, nat>)
      requires (set id | id in order) == jobs.Keys && forall i, j :: 0 <= i < j < |order| ==> order[i] != order[j]
      requires jobs.Keys <= errors.Keys && jobs.Keys <= clocks.Keys
      modifies this`jobs, this`processing
      ensures processing == old(processing)
      ensures old(processing) ==> jobs == old(jobs)
      ensures !old(processing) ==>
                && jobs.Keys == old(jobs).Keys
                && forall id :: id in jobs ==>
                     jobs[id] == if old(jobs)[id].status == Queued && old(jobs)[id].nextRetryAt <= now
                                 then Attempted(old(jobs)[id], ReplyTo(old(jobs)[id].jobType, errors[id]), clocks[id])
                                 else old(jobs)[id]
      ensures (forall id :: id in old(jobs) ==> old(jobs)[id].status != Processing)
              ==> forall id :: id in jobs ==> jobs[id].status != Processing
    {
      if processing {
        return;
      }
      processing := true;
      var due := CollectDue(order, now);
      ProcessEach(due, errors, clocks);
      processing := false;
    }

    method CollectDue(order: seq<string>, now: int) returns (due: seq<string>)
      requires (set id | id in order) == jobs.Keys && forall i, j :: 0 <= i < j < |order| ==> order[i] != order[j]
      ensures forall id :: id in due <==> id in jobs && IsDue(jobs[id], now)
      ensures forall j, k :: 0 <= j < k < |due| ==> due[j] != due[k]
    {
      due := [];
      for i := 0 to |order|
        invariant forall id :: id in due <==> id in order[..i] && id in jobs && IsDue(jobs[id], now)
        invariant forall j, k :: 0 <= j < k < |due| ==> due[j] != due[k]
      {
        assert order[i] in (set id | id in order);
        assert order[i] !in order[..i];
        if IsDue(jobs[order[i]], now) {
          due := due + [order[i]];
        }
      }
      assert order[..|order|] == order;
      assert forall id :: id in jobs ==> id in (set x | x in order);
    }

    method ProcessEach(due: seq<string>, errors: map<string, Option<string>>, clocks: map<string, nat>)
      requires forall id :: id in due ==> id in jobs && jobs[id].status == Queued
      requires forall j, k :: 0 <= j < k < |due| ==> due[j] != due[k]
      requires jobs.Keys <= errors.Keys && jobs.Keys <= clocks.Keys
      modifies this`jobs
      ensures jobs.Keys == old(jobs).Keys
      ensures forall id :: id in jobs ==>
                jobs[id] == if id in due then Attempted(old(jobs)[id], ReplyTo(old(jobs)[id].jobType, errors[id]), clocks[id])
                            else old(jobs)[id]
    {
      ghost var all := jobs;
      for k := 0 to |due|
        invariant jobs.Keys == all.Keys
        invariant forall id :: id in jobs ==>
                    jobs[id] == if id in due[..k] then Attempted(all[id], ReplyTo(all[id].jobType, errors[id]), clocks[id]) else all[id]
      {
        assert due[k] in due && due[k] !in due[..k];
        ProcessJob(due[k], errors[due[k]], clocks[due[k]]);
      }
      assert due[..|due|] == due;
    }
  }
}
