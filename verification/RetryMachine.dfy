/**
 * The retry queue as a transition system, one step per database statement.
 * One worker runs poll cycles and manual retries, never two at once; any number
 * of callers enqueue, interleaved with it and with each other. A crash may fall
 * between any two statements.
 */
module RetryMachine {
  import opened Prelude
  import opened RetryJobs

  /** A row as the worker read it. */
  datatype Snapshot = Snapshot(id: nat, job: Job)

  datatype Worker =
    | Idle
    | Reclaiming(stale: seq<nat>)
    | Draining(due: seq<Snapshot>, manual: bool)
    | Attempting(current: Snapshot, rest: seq<Snapshot>, manual: bool)

  datatype Caller =
    | Looking(request: Request)
    | Inserting(request: Request)
    | Rereading(request: Request)
    | Returned(request: Request, id: nat)
    | Refused(request: Request)
    | Lost(request: Request)

  datatype State = State(rows: seq<Job>, worker: Worker, callers: seq<Caller>, clock: int)

  const EMPTY: State := State([], Idle, [], 0)

  datatype Event =
    | Call(request: Request)
    | Lookup(caller: nat)
    | LookupError(caller: nat)   // an unanswered lookup reads as "no such key"
    | Insert(caller: nat, now: int)   // `now` was read before the statement, and other statements may have come between
    | InsertError(caller: nat)
    | Reread(caller: nat)
    | RereadError(caller: nat)
    | BeginPoll(now: int, stale: seq<nat>)
    | Reclaim(id: nat, now: int)
    | SelectDue(now: int, due: seq<nat>)
    | BeginManual(id: nat)
    | Start(id: nat, now: int, manual: bool)
    | Finish(id: nat, now: int, outcome: Outcome)
    | EndCycle(manual: bool)
    | Abort   // a read or write of the worker failed: the cycle is abandoned
    | Crash   // the process died: worker and unanswered callers are gone

  function Snapshots(rows: seq<Job>, ids: seq<nat>): (r: seq<Snapshot>)
    requires forall k :: 0 <= k < |ids| ==> ids[k] < |rows|
    ensures |r| == |ids|
    ensures forall k :: 0 <= k < |ids| ==> r[k] == Snapshot(ids[k], rows[ids[k]])
  {
    seq(|ids|, k requires 0 <= k < |ids| => Snapshot(ids[k], rows[ids[k]]))
  }

  function Survive(c: Caller): Caller {
    if c.Returned? || c.Refused? then c else Lost(c.request)
  }

  ghost predicate Enabled(config: Config, s: State, e: Event) {
    match e
    case Call(_) => true
    case Lookup(c) => c < |s.callers| && s.callers[c].Looking?
    case LookupError(c) => c < |s.callers| && s.callers[c].Looking?
    case Insert(c, _) => c < |s.callers| && s.callers[c].Inserting?
    case InsertError(c) => c < |s.callers| && s.callers[c].Inserting?
    case Reread(c) => c < |s.callers| && s.callers[c].Rereading?
    case RereadError(c) => c < |s.callers| && s.callers[c].Rereading?
    case BeginPoll(now, stale) =>   // an unanswered query reads as "nothing stale"
      s.worker.Idle? && s.clock <= now && (stale == [] || IsStaleSelection(config, s.rows, now, stale))
    case Reclaim(id, now) =>
      s.worker.Reclaiming? && s.worker.stale != [] && s.worker.stale[0] == id && id < |s.rows| && s.clock <= now
    case SelectDue(now, due) =>
      s.worker.Reclaiming? && s.worker.stale == [] && s.clock <= now && IsDueSelection(config, s.rows, now, due)
    case BeginManual(id) =>
      s.worker.Idle? && id < |s.rows| && s.rows[id].status != Succeeded && s.rows[id].status != Processing
    case Start(id, now, manual) =>
      && s.worker.Draining? && s.worker.due != [] && s.worker.due[0].id == id && id < |s.rows|
      && s.worker.manual == manual && s.clock <= now
    case Finish(id, now, _) =>
      s.worker.Attempting? && s.worker.current.id == id && id < |s.rows| && s.clock <= now
    case EndCycle(manual) => s.worker.Draining? && s.worker.due == [] && s.worker.manual == manual
    case Abort => !s.worker.Idle?
    case Crash => true
  }

  ghost function Step(config: Config, s: State, e: Event): State
    requires Enabled(config, s, e)
  {
    match e
    case Call(request) => s.(callers := s.callers + [Looking(request)])
    case Lookup(c) =>
      var request := s.callers[c].request;
      var found := FindKey(s.rows, request.key);
      s.(callers := s.callers[c := if found.Some? then Returned(request, found.value) else Inserting(request)])
    case LookupError(c) => s.(callers := s.callers[c := Inserting(s.callers[c].request)])
    case Insert(c, now) =>
      var request := s.callers[c].request;
      if FindKey(s.rows, request.key).Some? then
        s.(callers := s.callers[c := Rereading(request)], clock := Max(s.clock, now))
      else
        s.(rows := s.rows + [NewJob(request, now)], callers := s.callers[c := Returned(request, |s.rows|)],
           clock := Max(s.clock, now))
    case InsertError(c) => s.(callers := s.callers[c := Refused(s.callers[c].request)])
    case Reread(c) =>
      var request := s.callers[c].request;
      var found := FindKey(s.rows, request.key);
      s.(callers := s.callers[c := if found.Some? then Returned(request, found.value) else Refused(request)])
    case RereadError(c) => s.(callers := s.callers[c := Refused(s.callers[c].request)])
    case BeginPoll(now, stale) => s.(worker := Reclaiming(stale), clock := now)
    case Reclaim(id, now) =>
      s.(rows := s.rows[id := Reclaimed(s.rows[id], now)], worker := Reclaiming(s.worker.stale[1..]), clock := now)
    case SelectDue(now, due) => s.(worker := Draining(Snapshots(s.rows, due), false), clock := now)
    case BeginManual(id) => s.(worker := Draining(Snapshots(s.rows, [id]), true))
    case Start(id, now, manual) =>
      var current := s.worker.due[0];
      s.(rows := s.rows[id := Started(s.rows[id], current.job.attempts + 1, now)],
         worker := Attempting(current, s.worker.due[1..], manual), clock := now)
    case Finish(id, now, outcome) =>
      var snapshot := s.worker.current.job;
      s.(rows := s.rows[id := Finished(config, s.rows[id], snapshot.attempts + 1, snapshot.maxAttempts, outcome, now)],
         worker := Draining(s.worker.rest, s.worker.manual), clock := now)
    case EndCycle(_) => s.(worker := Idle)
    case Abort => s.(worker := Idle)
    case Crash =>
      s.(worker := Idle, callers := seq(|s.callers|, c requires 0 <= c < |s.callers| => Survive(s.callers[c])))
  }

  // ---------------------------------------------------------------- runs

  function Init(es: seq<Event>): seq<Event>
    requires es != []
  {
    es[..|es| - 1]
  }

  function Last(es: seq<Event>): Event
    requires es != []
  {
    es[|es| - 1]
  }

  ghost predicate IsRun(config: Config, s: State, es: seq<Event>)
    decreases |es|, 0
  {
    es == [] || (IsRun(config, s, Init(es)) && Enabled(config, After(config, s, Init(es)), Last(es)))
  }

  ghost function After(config: Config, s: State, es: seq<Event>): State
    requires IsRun(config, s, es)
    decreases |es|, 1
  {
    if es == [] then s else Step(config, After(config, s, Init(es)), Last(es))
  }

  /** What a trace is counted for. */
  datatype Kind =
    | ReclaimsOf(id: nat)
    | ManualsOf(id: nat)
    | StartsOf(id: nat)
    | Reclaims
    | Manuals
    | Writes
    | PolledStarts
    | Polls
    | Productive
    | InsertsBy(time: int)
    | EnqueueErrors
    | Failures

  predicate Matches(e: Event, kind: Kind) {
    match kind
    case ReclaimsOf(id) => e.Reclaim? && e.id == id
    case ManualsOf(id) => e.Start? && e.id == id && e.manual
    case StartsOf(id) => e.Start? && e.id == id
    case Reclaims => e.Reclaim?
    case Manuals => e.Start? && e.manual
    case Writes => e.Start? || e.Finish?
    case PolledStarts => e.Start? && !e.manual
    case Polls => e.EndCycle? && !e.manual
    case Productive => e.SelectDue? && e.due != []   // a selection that found a job to attempt
    case InsertsBy(time) => e.Insert? && e.now <= time
    case EnqueueErrors => e.InsertError? || e.RereadError?
    case Failures => e.Abort? || e.Crash?
  }

  function Count(es: seq<Event>, kind: Kind): nat {
    if es == [] then 0 else Count(Init(es), kind) + if Matches(Last(es), kind) then 1 else 0
  }

  // ---------------------------------------------------------------- what every step keeps

  ghost predicate FreshSnapshots(rows: seq<Job>, due: seq<Snapshot>, manual: bool) {
    && (forall k :: 0 <= k < |due| ==> due[k].id < |rows| && rows[due[k].id] == due[k].job)
    && (forall j, k :: 0 <= j < k < |due| ==> due[j].id != due[k].id)
    && (forall k :: 0 <= k < |due| ==> due[k].job.status == Pending || (manual && due[k].job.status == Failed))
    && (manual ==> |due| <= 1)
  }

  /** What the worker believes about the table is still true of it. */
  ghost predicate WorkerFresh(s: State) {
    match s.worker
    case Idle => true
    case Reclaiming(stale) =>
      && Ids(s.rows, stale)
      && (forall k :: 0 <= k < |stale| ==> s.rows[stale[k]].status == Processing)
    case Draining(due, manual) =>
      FreshSnapshots(s.rows, due, manual) && (!manual ==> forall k :: 0 <= k < |due| ==> due[k].job.nextAttemptAt <= s.clock)
    case Attempting(current, rest, manual) =>
      && current.id < |s.rows|
      && s.rows[current.id] == Started(current.job, current.job.attempts + 1, s.rows[current.id].updatedAt)
      && FreshSnapshots(s.rows, rest, manual)
      && (forall k :: 0 <= k < |rest| ==> rest[k].id != current.id)
      && (manual ==> rest == [])
      && (!manual ==> forall k :: 0 <= k < |rest| ==> rest[k].job.nextAttemptAt <= s.clock)
  }

  ghost predicate UniqueKeys(rows: seq<Job>) {
    forall i, j :: 0 <= i < j < |rows| ==> rows[i].key != rows[j].key
  }

  ghost predicate CallerSound(rows: seq<Job>, c: Caller) {
    match c
    case Returned(request, id) => id < |rows| && rows[id].key == request.key
    case Rereading(request) => FindKey(rows, request.key).Some?
    case _ => true
  }

  ghost predicate Inv(s: State) {
    && WorkerFresh(s)
    && UniqueKeys(s.rows)
    && (forall c :: 0 <= c < |s.callers| ==> CallerSound(s.rows, s.callers[c]))
  }

  predicate SameJob(a: Job, b: Job) {
    a.jobType == b.jobType && a.key == b.key && a.payload == b.payload && a.maxAttempts == b.maxAttempts
  }

  /** A step appends at most one row, rewrites at most the row it names, and never the identity of a job. */
  lemma StepRows(config: Config, s: State, e: Event)
    requires Enabled(config, s, e)
    ensures var t := Step(config, s, e);
            && |s.rows| <= |t.rows| <= |s.rows| + 1
            && (|t.rows| > |s.rows| ==> e.Insert? && t.rows == s.rows + [NewJob(s.callers[e.caller].request, e.now)])
            && (forall i :: 0 <= i < |s.rows| ==> SameJob(t.rows[i], s.rows[i]))
            && (forall i :: 0 <= i < |s.rows| && t.rows[i] != s.rows[i]
                  ==> (e.Reclaim? || e.Start? || e.Finish?) && e.id == i)
            && s.clock <= t.clock
  {
  }

  lemma FindKeyStays(rows: seq<Job>, later: seq<Job>, key: string)
    requires |rows| <= |later| && forall i :: 0 <= i < |rows| ==> later[i].key == rows[i].key
    ensures FindKey(rows, key).Some? ==> FindKey(later, key).Some?
  {
  }

  lemma StepKeepsCallers(config: Config, s: State, e: Event)
    requires Inv(s) && Enabled(config, s, e)
    ensures var t := Step(config, s, e);
            && UniqueKeys(t.rows)
            && forall c :: 0 <= c < |t.callers| ==> CallerSound(t.rows, t.callers[c])
  {
    var t := Step(config, s, e);
    StepRows(config, s, e);
    forall c | 0 <= c < |t.callers| ensures CallerSound(t.rows, t.callers[c]) {
      FindKeyStays(s.rows, t.rows, t.callers[c].request.key);
    }
  }

  lemma StartKeepsWorker(config: Config, s: State, e: Event)
    requires WorkerFresh(s) && Enabled(config, s, e) && e.Start?
    ensures WorkerFresh(Step(config, s, e))
  {
    var due, rest := s.worker.due, s.worker.due[1..];
    assert forall k :: 0 <= k < |rest| ==> rest[k] == due[k + 1];
  }

  lemma FinishKeepsWorker(config: Config, s: State, e: Event)
    requires WorkerFresh(s) && Enabled(config, s, e) && e.Finish?
    ensures WorkerFresh(Step(config, s, e))
  {
  }

  lemma ReclaimKeepsWorker(config: Config, s: State, e: Event)
    requires WorkerFresh(s) && Enabled(config, s, e) && e.Reclaim?
    ensures WorkerFresh(Step(config, s, e))
  {
    var stale, rest := s.worker.stale, s.worker.stale[1..];
    assert forall k :: 0 <= k < |rest| ==> rest[k] == stale[k + 1];
  }

  /** New rows at the end, and time, do not make what the worker read stale. */
  lemma GrowthKeepsWorker(s: State, t: State)
    requires WorkerFresh(s) && t.worker == s.worker && s.clock <= t.clock
    requires |s.rows| <= |t.rows| && forall i :: 0 <= i < |s.rows| ==> t.rows[i] == s.rows[i]
    ensures WorkerFresh(t)
  {
  }

  lemma OtherKeepsWorker(config: Config, s: State, e: Event)
    requires WorkerFresh(s) && Enabled(config, s, e) && !e.Start? && !e.Finish? && !e.Reclaim?
    ensures WorkerFresh(Step(config, s, e))
  {
    if !e.BeginPoll? && !e.SelectDue? && !e.BeginManual? && Step(config, s, e).worker == s.worker {
      GrowthKeepsWorker(s, Step(config, s, e));
    }
  }

  lemma StepKeepsWorker(config: Config, s: State, e: Event)
    requires WorkerFresh(s) && Enabled(config, s, e)
    ensures WorkerFresh(Step(config, s, e))
  {
    if e.Start? {
      StartKeepsWorker(config, s, e);
    } else if e.Finish? {
      FinishKeepsWorker(config, s, e);
    } else if e.Reclaim? {
      ReclaimKeepsWorker(config, s, e);
    } else {
      OtherKeepsWorker(config, s, e);
    }
  }

  lemma {:induction false} RunKeepsInv(config: Config, s: State, es: seq<Event>)
    requires Inv(s) && IsRun(config, s, es)
    ensures Inv(After(config, s, es))
    decreases |es|
  {
    if es != [] {
      RunKeepsInv(config, s, Init(es));
      StepKeepsCallers(config, After(config, s, Init(es)), Last(es));
      StepKeepsWorker(config, After(config, s, Init(es)), Last(es));
    }
  }
}
