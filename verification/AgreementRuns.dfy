/** What holds of an agreement over every run of service calls. */
module AgreementRuns {
  import opened Prelude
  import opened Lifecycle
  import opened AgreementRecords
  import Money

  // ---------------------------------------------------------------- the lifecycle, without sync pulls

  /** Statuses and the times that go with them. */
  ghost predicate TimesMatch(row: Agreement) {
    && IsAgreementStatus(row.status)
    && (row.completedAt.Some? <==> row.status == Completed || row.status == Resolved)
    && (row.fundedAt.Some? ==> Rank(row.status) >= 2)
    && (row.status == Funded ==> row.fundedAt.Some?)
  }

  /** Every status change is an edge of the table, and a time is only written when it was not there. */
  lemma CallFollowsTable(r: Record, c: Call)
    requires WellFormed(c) && !Pulls(c) && TimesMatch(r.row)
    ensures var after := Apply(r, c).row;
            && TimesMatch(after)
            && (after.status == r.row.status || CanTransition(r.row.status, after.status))
            && Rank(r.row.status) <= Rank(after.status)
            && (Rank(r.row.status) == 4 ==> after.status == r.row.status)
            && (r.row.fundedAt.Some? ==> after.fundedAt == r.row.fundedAt)
            && (r.row.completedAt.Some? ==> after.completedAt == r.row.completedAt)
  {
    if CanTransition(r.row.status, Apply(r, c).row.status) {
      EdgesClimb(r.row.status, Apply(r, c).row.status);
    }
  }

  /**
   * Over any run without sync pulls the rank never falls, a terminal status is
   * never left, each time is written at most once, and the completion time is set
   * exactly in the two statuses that complete.
   */
  lemma {:induction false} LifecycleOverRuns(r: Record, cs: seq<Call>)
    requires AllWellFormed(cs) && PullFree(cs) && TimesMatch(r.row)
    ensures var after := Run(r, cs).row;
            && TimesMatch(after)
            && Rank(r.row.status) <= Rank(after.status)
            && (IsTerminal(r.row.status) ==> after.status == r.row.status)
            && (r.row.fundedAt.Some? ==> after.fundedAt == r.row.fundedAt)
            && (r.row.completedAt.Some? ==> after.completedAt == r.row.completedAt)
  {
    TerminalIsRank4(r.row.status);
    if cs != [] {
      var front := cs[..|cs| - 1];
      LifecycleOverRuns(r, front);
      CallFollowsTable(Run(r, front), cs[|cs| - 1]);
    }
  }

  lemma TerminalIsRank4(s: Status)
    ensures IsTerminal(s) <==> Rank(s) == 4
  {
  }

  lemma NewRecordTimesMatch(terms: Terms, amount: string, ms: seq<Milestone>, contractId: Option<string>)
    ensures TimesMatch(NewRecord(terms, amount, ms, contractId).row)
  {
  }

  /** How often webhook jobs with this target changed the status in a run. */
  function WebhookChanges(r: Record, cs: seq<Call>, target: Status): nat
    requires AllWellFormed(cs)
  {
    if cs == [] then 0
    else
      var front, c := cs[..|cs| - 1], cs[|cs| - 1];
      var before := Run(r, front);
      WebhookChanges(r, front, target)
      + if c.WebhookStatus? && EventConfig(c.event).target == target && Apply(before, c).row.status != before.row.status
        then 1 else 0
  }

  /** The statuses from which the target can no longer be reached. */
  predicate Passed(s: Status, target: Status) {
    if target == Funded then Rank(s) >= 2 else Rank(s) == 4
  }

  /** Re-running a funded, completed or cancelled webhook job, however often and whenever, changes the status at most once. */
  lemma {:induction false} WebhookJobsAreIdempotent(r: Record, cs: seq<Call>, target: Status)
    requires AllWellFormed(cs) && PullFree(cs) && TimesMatch(r.row)
    requires target in {Funded, Completed, Cancelled}
    ensures WebhookChanges(r, cs, target) <= 1
    ensures WebhookChanges(r, cs, target) == 1 ==> Passed(Run(r, cs).row.status, target)
    ensures Passed(r.row.status, target) ==> WebhookChanges(r, cs, target) == 0 && Passed(Run(r, cs).row.status, target)
  {
    if cs != [] {
      var front, c := cs[..|cs| - 1], cs[|cs| - 1];
      var before := Run(r, front);
      WebhookJobsAreIdempotent(r, front, target);
      LifecycleOverRuns(r, front);
      CallFollowsTable(before, c);
      if CanTransition(before.row.status, target) {
        EdgesClimb(before.row.status, target);
      }
    }
  }

  /**
   * What each status event does, by name: funding a pending agreement, completing
   * one in review, disputing an active one or one in review, cancelling one that is
   * draft, pending, funded or active. In every other case the row is left alone.
   */
  lemma WebhookEffect(r: Record, event: TwEvent, now: int)
    requires WellFormed(WebhookStatus(event, now))
    ensures var row, after := r.row, Apply(r, WebhookStatus(event, now)).row;
            after == if event == EscrowFunded && row.status == Pending then
                       row.(status := Funded, fundedAt := Some(now))
                     else if event in {EscrowReleased, ContractCompleted} && row.status == InReview then
                       row.(status := Completed, completedAt := Some(now))
                     else if event in {EscrowDisputed, EscrowDisputeCreated, DisputeCreated} && row.status in {Active, InReview} then
                       row.(status := Disputed)
                     else if event == ContractCancelled && row.status in {Draft, Pending, Funded, Active} then
                       row.(status := Cancelled)
                     else row
  {
  }

  /** Which events change a status, which a milestone, and which nothing. */
  lemma EventKinds(event: TwEvent)
    ensures EventConfig(event).StatusUpdate?
            <==> event in {EscrowFunded, EscrowReleased, ContractCompleted, ContractCancelled,
                           EscrowDisputed, EscrowDisputeCreated, DisputeCreated}
    ensures EventConfig(event).MilestoneUpdate?
            <==> event in {AgreementMilestoneUpdated, EscrowMilestoneUpdated, MilestoneCompleted, MilestoneApproved,
                           MilestoneRejected, MilestoneCancelled}
  {
  }

  // ---------------------------------------------------------------- dispute webhooks

  /** How often a run takes the agreement from disputed back to active. */
  function Reactivations(r: Record, cs: seq<Call>): nat
    requires AllWellFormed(cs)
  {
    if cs == [] then 0
    else
      var front, c := cs[..|cs| - 1], cs[|cs| - 1];
      var before := Run(r, front);
      Reactivations(r, front)
      + if before.row.status == Disputed && Apply(before, c).row.status == Active then 1 else 0
  }

  /** A dispute webhook job acts once, and once more for each time the dispute is taken back. */
  lemma {:induction false} DisputeJobsAreBounded(r: Record, cs: seq<Call>)
    requires AllWellFormed(cs) && PullFree(cs) && TimesMatch(r.row)
    ensures var after := Run(r, cs).row.status;
            WebhookChanges(r, cs, Disputed)
            <= Reactivations(r, cs) + if after == Disputed || IsTerminal(after) then 1 else 0
  {
    if cs != [] {
      var front, c := cs[..|cs| - 1], cs[|cs| - 1];
      DisputeJobsAreBounded(r, front);
      LifecycleOverRuns(r, front);
      CallFollowsTable(Run(r, front), c);
    }
  }

  lemma {:induction false} RunSplits(r: Record, a: seq<Call>, b: seq<Call>, target: Status)
    requires AllWellFormed(a) && AllWellFormed(b)
    ensures AllWellFormed(a + b) && Run(r, a + b) == Run(Run(r, a), b)
    ensures WebhookChanges(r, a + b, target) == WebhookChanges(r, a, target) + WebhookChanges(Run(r, a), b, target)
  {
    if b == [] {
      assert a + b == a;
    } else {
      var front := b[..|b| - 1];
      RunSplits(r, a, front, target);
      assert (a + b)[..|a + b| - 1] == a + front;
    }
  }

  predicate Acts(r: Record, c: Call, target: Status)
    requires WellFormed(c)
  {
    c.WebhookStatus? && EventConfig(c.event).target == target && Apply(r, c).row.status != r.row.status
  }

  lemma ThenCall(r: Record, cs: seq<Call>, c: Call, target: Status)
    requires AllWellFormed(cs) && WellFormed(c)
    ensures AllWellFormed(cs + [c]) && Run(r, cs + [c]) == Apply(Run(r, cs), c)
    ensures WebhookChanges(r, cs + [c], target) == WebhookChanges(r, cs, target) + if Acts(Run(r, cs), c, target) then 1 else 0
  {
    assert (cs + [c])[..|cs + [c]| - 1] == cs;
  }

  lemma TakesTo(r: Record, cs: seq<Call>, c: Call, target: Status) returns (ds: seq<Call>, t: Record)
    requires AllWellFormed(cs) && WellFormed(c)
    ensures ds == cs + [c] && AllWellFormed(ds) && t == Run(r, ds) == Apply(Run(r, cs), c)
    ensures WebhookChanges(r, ds, target) == WebhookChanges(r, cs, target) + if Acts(Run(r, cs), c, target) then 1 else 0
  {
    ds := cs + [c];
    ThenCall(r, cs, c, target);
    t := Run(r, ds);
  }

  /** User calls that take an agreement still under way to active. */
  function WayToActive(s: Status): seq<Call> {
    match s
    case Draft => [UserStatus(Pending, 0), UserStatus(Active, 0)]
    case Active => []
    case _ => [UserStatus(Active, 0)]
  }

  lemma WayLeadsToActive(r: Record)
    requires IsAgreementStatus(r.row.status) && !IsTerminal(r.row.status)
    ensures Run(r, WayToActive(r.row.status)).row.status == Active
  {
    var way := WayToActive(r.row.status);
    if |way| == 2 {
      assert way[..1] == [UserStatus(Pending, 0)] && way[..1][..0] == [];
      assert Run(r, way[..1]).row.status == Pending;
    } else if |way| == 1 {
      assert way[..0] == [];
    }
  }

  /** From every active agreement: dispute, withdraw, and the same webhook job disputes it again. */
  lemma DisputeWebhookRepeats(r: Record, now: int) returns (cs: seq<Call>)
    requires r.row.status == Active
    ensures |cs| == 3 && cs[0] == cs[2] == WebhookStatus(DisputeCreated, now) && cs[1] == DisputeWithdrawn(now)
    ensures AllWellFormed(cs) && PullFree(cs) && WebhookChanges(r, cs, Disputed) == 2
  {
    var a, b := WebhookStatus(DisputeCreated, now), DisputeWithdrawn(now);
    var one, t := TakesTo(r, [], a, Disputed);
    var two, u := TakesTo(r, one, b, Disputed);
    var three, v := TakesTo(r, two, a, Disputed);
    cs := three;
  }

  ghost predicate DisputedAtMostOnce(r: Record, cs: seq<Call>) {
    AllWellFormed(cs) && PullFree(cs) ==> WebhookChanges(r, cs, Disputed) <= 1
  }

  lemma {:induction false} TerminalIsNotDisputed(r: Record, cs: seq<Call>)
    requires AllWellFormed(cs) && PullFree(cs) && TimesMatch(r.row) && IsTerminal(r.row.status)
    ensures WebhookChanges(r, cs, Disputed) == 0
  {
    if cs != [] {
      TerminalIsNotDisputed(r, cs[..|cs| - 1]);
      LifecycleOverRuns(r, cs[..|cs| - 1]);
    }
  }

  lemma CanBeDisputedTwice(r: Record) returns (cs: seq<Call>)
    requires IsAgreementStatus(r.row.status) && !IsTerminal(r.row.status)
    ensures AllWellFormed(cs) && PullFree(cs) && WebhookChanges(r, cs, Disputed) >= 2
  {
    var way := WayToActive(r.row.status);
    WayLeadsToActive(r);
    var twice := DisputeWebhookRepeats(Run(r, way), 0);
    RunSplits(r, way, twice, Disputed);
    cs := way + twice;
  }

  /** Dispute webhook jobs, unlike the others, act at most once in every run exactly when the agreement is over. */
  lemma DisputeJobsActOnceIff(r: Record)
    requires TimesMatch(r.row)
    ensures (forall cs :: DisputedAtMostOnce(r, cs)) <==> IsTerminal(r.row.status)
  {
    if IsTerminal(r.row.status) {
      forall cs ensures DisputedAtMostOnce(r, cs) {
        if AllWellFormed(cs) && PullFree(cs) {
          TerminalIsNotDisputed(r, cs);
        }
      }
    } else {
      var cs := CanBeDisputedTwice(r);
      assert !DisputedAtMostOnce(r, cs);
    }
  }

  // ---------------------------------------------------------------- webhooks and sync pulls together

  lemma CompletedStays(r: Record, c: Call)
    requires WellFormed(c) && r.row.status == Completed
    ensures Apply(r, c).row.status == Completed
  {
  }

  /** Completed is the one status no call of any kind leaves. */
  lemma {:induction false} CompletedIsFinal(r: Record, cs: seq<Call>, target: Status)
    requires AllWellFormed(cs) && r.row.status == Completed
    ensures Run(r, cs).row.status == Completed && WebhookChanges(r, cs, target) == 0
  {
    if cs != [] {
      CompletedIsFinal(r, cs[..|cs| - 1], target);
      CompletedStays(Run(r, cs[..|cs| - 1]), cs[|cs| - 1]);
    }
  }

  /** A completed-webhook job acts at most once in every run, sync pulls and reconciliations included, from any record. */
  lemma {:induction false} CompletedJobsActOnce(r: Record, cs: seq<Call>)
    requires AllWellFormed(cs)
    ensures WebhookChanges(r, cs, Completed) <= 1
    ensures WebhookChanges(r, cs, Completed) == 1 ==> Run(r, cs).row.status == Completed
  {
    if cs != [] {
      CompletedJobsActOnce(r, cs[..|cs| - 1]);
      if Run(r, cs[..|cs| - 1]).row.status == Completed {
        CompletedStays(Run(r, cs[..|cs| - 1]), cs[|cs| - 1]);
      }
    }
  }

  lemma GoesTo(r: Record, cs: seq<Call>, c: Call) returns (ds: seq<Call>, t: Record)
    requires AllWellFormed(cs) && WellFormed(c)
    ensures AllWellFormed(ds) && t == Run(r, ds) == Apply(Run(r, cs), c)
  {
    ds, t := TakesTo(r, cs, c, Pending);
  }

  /** A linked agreement that is not completed can be brought back to pending: cancelled if need be, then pulled. */
  lemma CanBePendingAgain(r: Record) returns (cs: seq<Call>)
    requires r.row.contractId.Some? && r.row.status != Completed
    ensures AllWellFormed(cs) && Run(r, cs).row.status == Pending && Run(r, cs).row.contractId.Some?
  {
    cs := [];
    var t := r;
    if r.row.status == InReview {
      cs, t := GoesTo(r, cs, UserStatus(Active, 0));
    }
    if t.row.status == Funded || t.row.status == Active {
      cs, t := GoesTo(r, cs, UserStatus(Cancelled, 0));
    }
    if t.row.status != Pending {
      cs, t := GoesTo(r, cs, SyncPass(Some(TwCreated)));
    }
  }

  /** The job acts, the agreement is brought back to pending, and the job acts again. */
  lemma PendingActsTwice(r: Record, event: TwEvent) returns (cs: seq<Call>)
    requires r.row.contractId.Some? && r.row.status == Pending
    requires EventConfig(event).StatusUpdate? && EventConfig(event).target in {Funded, Cancelled}
    ensures AllWellFormed(cs) && WebhookChanges(r, cs, EventConfig(event).target) >= 2
  {
    var job, target := WebhookStatus(event, 0), EventConfig(event).target;
    var once, t := TakesTo(r, [], job, target);
    var way := CanBePendingAgain(t);
    RunSplits(r, once, way, target);
    cs, t := TakesTo(r, once + way, job, target);
  }

  lemma CanActTwice(r: Record, target: Status) returns (cs: seq<Call>)
    requires r.row.contractId.Some? && r.row.status != Completed && target in {Funded, Disputed, Cancelled}
    ensures AllWellFormed(cs) && WebhookChanges(r, cs, target) >= 2
  {
    var way := CanBePendingAgain(r);
    var twice: seq<Call>;
    if target == Cancelled {
      twice := PendingActsTwice(Run(r, way), ContractCancelled);
    } else if target == Funded {
      twice := PendingActsTwice(Run(r, way), EscrowFunded);
    } else {
      twice := CanBeDisputedTwice(Run(r, way));
    }
    RunSplits(r, way, twice, target);
    cs := way + twice;
  }

  ghost predicate ActsAtMostOnce(r: Record, cs: seq<Call>, target: Status) {
    AllWellFormed(cs) ==> WebhookChanges(r, cs, target) <= 1
  }

  /**
   * Once sync pulls may run too, a webhook job of a linked agreement acts at most
   * once in every run exactly when it completes the agreement, or the agreement is
   * completed already.
   */
  lemma WebhookActsOnceIff(r: Record, target: Status)
    requires r.row.contractId.Some? && target in {Funded, Completed, Disputed, Cancelled}
    ensures (forall cs :: ActsAtMostOnce(r, cs, target)) <==> target == Completed || r.row.status == Completed
  {
    if target == Completed || r.row.status == Completed {
      forall cs ensures ActsAtMostOnce(r, cs, target) {
        if AllWellFormed(cs) {
          if target == Completed {
            CompletedJobsActOnce(r, cs);
          } else {
            CompletedIsFinal(r, cs, target);
          }
        }
      }
    } else {
      var cs := CanActTwice(r, target);
      assert !ActsAtMostOnce(r, cs, target);
    }
  }

  // ---------------------------------------------------------------- audit

  predicate Decides(e: Entry) {
    SetsStatus(e.action) && e.to.Some?
  }

  /** The status the log tells, reading only the entries that set one. */
  function Replay(log: seq<Entry>): Status {
    if log == [] then Pending
    else if Decides(log[|log| - 1]) then log[|log| - 1].to.value
    else Replay(log[..|log| - 1])
  }

  /** Each status-setting entry that records where it came from records the status told before it. */
  ghost predicate OriginsMatch(log: seq<Entry>) {
    forall k :: 0 <= k < |log| && Decides(log[k]) && log[k].from.Some? ==> log[k].from.value == Replay(log[..k])
  }

  ghost predicate Audited(r: Record) {
    Replay(r.log) == r.row.status && OriginsMatch(r.log)
  }

  lemma AppendEntry(log: seq<Entry>, e: Entry)
    requires OriginsMatch(log) && (Decides(e) && e.from.Some? ==> e.from.value == Replay(log))
    ensures OriginsMatch(log + [e]) && Replay(log + [e]) == if Decides(e) then e.to.value else Replay(log)
  {
    var t := log + [e];
    assert t[..|t| - 1] == log;
    forall k | 0 <= k < |t| && Decides(t[k]) && t[k].from.Some? ensures t[k].from.value == Replay(t[..k]) {
      if k < |log| {
        assert t[..k] == log[..k];
      }
    }
  }

  lemma NotedIsAudited(r: Record, action: Action, from: Option<Status>, to: Option<Status>)
    requires Audited(r) && !SetsStatus(action)
    ensures Audited(Noted(r, action, from, to))
  {
    AppendEntry(r.log, Entry(action, from, to));
  }

  lemma SyncIsAudited(r: Record, escrow: Option<TwStatus>)
    requires Audited(r)
    ensures Audited(Synced(r, escrow))
  {
    NotedIsAudited(r, SyncFetchFailed, None, None);
    NotedIsAudited(r, SyncAlreadyInSync, None, None);
    if escrow.Some? {
      var tw := MapTwStatus(escrow.value);
      NotedIsAudited(r, SyncPushPending, Some(r.row.status), Some(tw));
      AppendEntry(r.log, Entry(SyncPulled, Some(r.row.status), Some(tw)));
    }
  }

  lemma StatusWritesAreAudited(r: Record, to: Status, now: int)
    requires Audited(r)
    ensures Audited(StatusWrite(r, to, now)) && Audited(WebhookStatusWrite(r, to, now))
  {
    AppendEntry(r.log, Entry(StatusChanged, Some(r.row.status), Some(to)));
    AppendEntry(r.log, Entry(WebhookStatusChanged, None, Some(to)));
  }

  lemma MilestoneWritesAreAudited(r: Record, c: Call)
    requires WellFormed(c) && Audited(r) && (c.UserMilestone? || c.WebhookMilestone?)
    ensures Audited(Apply(r, c))
  {
    var after := Apply(r, c);
    if after != r {
      NotedIsAudited(r.(row := after.row), after.log[|r.log|].action, None, None);
    }
  }

  lemma ReconcileIsAudited(r: Record, escrow: Option<TwStatus>, again: Option<EscrowView>)
    requires Audited(r)
    ensures Audited(ReconciledRecord(r, escrow, again))
  {
    SyncIsAudited(r, escrow);
    var s, after := Synced(r, escrow), ReconciledRecord(r, escrow, again);
    if after != s {
      NotedIsAudited(s.(row := after.row), ReconcileCompleted, None, None);
    }
  }

  lemma StatusCallIsAudited(r: Record, c: Call)
    requires WellFormed(c) && Audited(r) && (c.UserStatus? || c.DisputeStatus? || c.DisputeWithdrawn?)
    ensures Audited(Apply(r, c))
  {
    StatusWritesAreAudited(r, if c.DisputeWithdrawn? then Active else c.to, c.now);
  }

  lemma WebhookCallIsAudited(r: Record, c: Call)
    requires WellFormed(c) && Audited(r) && c.WebhookStatus?
    ensures Audited(Apply(r, c))
  {
    var target := EventConfig(c.event).target;
    StatusWritesAreAudited(r, target, c.now);
    NotedIsAudited(r, WebhookTransitionRejected, Some(r.row.status), Some(target));
  }

  lemma CallIsAudited(r: Record, c: Call)
    requires WellFormed(c) && Audited(r)
    ensures Audited(Apply(r, c))
  {
    match c
    case UserStatus(_, _) => StatusCallIsAudited(r, c);
    case DisputeStatus(_, _) => StatusCallIsAudited(r, c);
    case DisputeWithdrawn(_) => StatusCallIsAudited(r, c);
    case UserMilestone(_, _, _) => MilestoneWritesAreAudited(r, c);
    case WebhookStatus(_, _) => WebhookCallIsAudited(r, c);
    case WebhookMilestone(_, _) => MilestoneWritesAreAudited(r, c);
    case SyncPass(escrow) => SyncIsAudited(r, escrow);
    case Reconcile(escrow, again) => ReconcileIsAudited(r, escrow, again);
    case Note(action, from, to) => NotedIsAudited(r, action, from, to);
  }

  lemma {:induction false} CreatedLogTellsPending(ms: seq<Milestone>, n: nat)
    requires n <= |ms|
    ensures Replay(CreatedLog(ms, n)) == Pending && OriginsMatch(CreatedLog(ms, n))
  {
    if n > 0 {
      CreatedLogTellsPending(ms, n - 1);
      AppendEntry(CreatedLog(ms, n - 1), Entry(MilestoneCreated(n - 1), None, None));
    }
  }

  /**
   * Audit. Whatever users, disputes, webhooks and sync passes do to an agreement,
   * replaying its log from "pending" gives its status, and each entry that names
   * the status it left names the right one.
   */
  lemma {:induction false} LogTellsStatus(terms: Terms, amount: string, ms: seq<Milestone>, contractId: Option<string>, cs: seq<Call>)
    requires AllWellFormed(cs)
    ensures Audited(Run(NewRecord(terms, amount, ms, contractId), cs))
  {
    if cs == [] {
      CreatedLogTellsPending(ms, |ms|);
    } else {
      LogTellsStatus(terms, amount, ms, contractId, cs[..|cs| - 1]);
      CallIsAudited(Run(NewRecord(terms, amount, ms, contractId), cs[..|cs| - 1]), cs[|cs| - 1]);
    }
  }

  // ---------------------------------------------------------------- milestone money

  predicate CanonicalStatuses(ms: seq<Milestone>) {
    forall i :: 0 <= i < |ms| ==> IsMilestoneStatus(ms[i].status)
  }

  ghost predicate SameMoney(a: Agreement, b: Agreement) {
    a.terms == b.terms && a.amount == b.amount && Money.SameAmounts(Items(a.milestones), Items(b.milestones))
  }

  lemma MilestoneCallKeepsMoney(r: Record, c: Call)
    requires WellFormed(c) && CanonicalStatuses(r.row.milestones) && (c.UserMilestone? || c.WebhookMilestone?)
    ensures SameMoney(r.row, Apply(r, c).row) && CanonicalStatuses(Apply(r, c).row.milestones)
  {
  }

  lemma CallKeepsMoney(r: Record, c: Call)
    requires WellFormed(c) && CanonicalStatuses(r.row.milestones)
    ensures SameMoney(r.row, Apply(r, c).row) && CanonicalStatuses(Apply(r, c).row.milestones)
  {
    if c.UserMilestone? || c.WebhookMilestone? {
      MilestoneCallKeepsMoney(r, c);
    }
  }

  /**
   * No call of any kind changes the terms, the amount, the number of milestones or what any
   * of them is worth, nor leaves a status outside the vocabulary; so an agreement
   * accepted at creation stays balanced, and within (n + 1) / 2 cents, for good.
   */
  lemma {:induction false} MoneyOverRuns(r: Record, cs: seq<Call>)
    requires AllWellFormed(cs) && CanonicalStatuses(r.row.milestones)
    ensures var after := Run(r, cs).row;
            && SameMoney(r.row, after)
            && CanonicalStatuses(after.milestones)
            && (Money.Balanced(r.row.amount, Items(r.row.milestones)) ==> Money.Balanced(after.amount, Items(after.milestones)))
  {
    if cs != [] {
      var front := cs[..|cs| - 1];
      MoneyOverRuns(r, front);
      CallKeepsMoney(Run(r, front), cs[|cs| - 1]);
    }
    if Money.Balanced(r.row.amount, Items(r.row.milestones)) {
      Money.SameAmountsSameSum(Items(r.row.milestones), Items(Run(r, cs).row.milestones));
    }
  }

  /** What an accepted update does: the milestone named has the status asked for and the evidence given, and nothing else changes. */
  lemma MilestoneUpdateMeans(r: Record, index: int, status: MilestoneStatus, evidence: EvidencePatch)
    requires MilestoneUpdated(r, index, status, evidence).Some?
    ensures var was, row := r.row, MilestoneUpdated(r, index, status, evidence).value.row;
            && 0 <= index < |was.milestones|
            && row == was.(milestones := row.milestones) && |row.milestones| == |was.milestones|
            && (forall i :: 0 <= i < |was.milestones| && i != index ==> row.milestones[i] == was.milestones[i])
            && var m, before := row.milestones[index], was.milestones[index];
               && m.item == before.item && m.status == status
               && m.evidence.description == (if evidence.description.Some? then evidence.description else before.evidence.description)
               && m.evidence.urls == (if evidence.urls.Some? then evidence.urls else before.evidence.urls)
               && m.evidence.submittedAt == (if evidence.description.None? && evidence.urls.None? then before.evidence.submittedAt
                                             else Some(evidence.now))
  {
  }

  predicate NoBlankMilestone(row: Agreement) {
    forall i :: 0 <= i < |row.milestones| ==> Money.NotBlanked(row.milestones[i].item)
  }

  /**
   * A milestone update on an agreement that was accepted at creation is refused in
   * exactly two cases: the index is out of range, or some earlier webhook left a
   * milestone with a blank description.
   */
  lemma MilestoneUpdateRefusedIff(r: Record, cs: seq<Call>, index: int, status: MilestoneStatus, evidence: EvidencePatch)
    requires AllWellFormed(cs) && CanonicalStatuses(r.row.milestones) && IsMilestoneStatus(status)
    requires Money.Balanced(r.row.amount, Items(r.row.milestones))
    ensures var after := Run(r, cs);
            MilestoneUpdated(after, index, status, evidence).None?
            <==> index < 0 || index >= |r.row.milestones| || !NoBlankMilestone(after.row)
  {
    MoneyOverRuns(r, cs);
    BalancedUpdateRefusedIff(Run(r, cs), index, status, evidence);
  }

  lemma BalancedUpdateRefusedIff(r: Record, index: int, status: MilestoneStatus, evidence: EvidencePatch)
    requires Money.Balanced(r.row.amount, Items(r.row.milestones))
    ensures MilestoneUpdated(r, index, status, evidence).None?
            <==> index < 0 || index >= |r.row.milestones| || !NoBlankMilestone(r.row)
  {
    if 0 <= index < |r.row.milestones| {
      var ms := r.row.milestones;
      assert Items(ms[index := ms[index].(status := status, evidence := Submitted(ms[index].evidence, evidence))]) == Items(ms);
      assert forall i :: 0 <= i < |ms| ==> Items(ms)[i] == ms[i].item;
    }
  }

  /** What a milestone event does: the milestone named takes a status of the four and a description that is not empty; nothing else changes. */
  lemma WebhookMilestoneMeans(r: Record, patch: MilestonePatch)
    ensures var was, row := r.row, WebhookMilestoneWrite(r, patch).row;
            && row == was.(milestones := row.milestones) && |row.milestones| == |was.milestones|
            && (forall i :: 0 <= i < |was.milestones| && patch.index != Some(i) ==> row.milestones[i] == was.milestones[i])
            && (patch.index.Some? && 0 <= patch.index.value < |was.milestones| ==>
                  var m, before := row.milestones[patch.index.value], was.milestones[patch.index.value];
                  && m.evidence == before.evidence && m.item.amount == before.item.amount
                  && m.status == (if patch.status.Some? && patch.status.value in {MPending, Approved, MilestoneStatus.Released, Rejected}
                                  then patch.status.value else before.status)
                  && m.item.description == (if patch.description.Some? && patch.description.value != ""
                                            then patch.description else before.item.description))
  {
  }

  /** Exactly which webhook payloads leave a blank description behind. */
  lemma WebhookBlanksIff(r: Record, patch: MilestonePatch)
    requires NoBlankMilestone(r.row)
    ensures !NoBlankMilestone(WebhookMilestoneWrite(r, patch).row)
            <==> && patch.index.Some? && 0 <= patch.index.value < |r.row.milestones|
                 && patch.description.Some? && patch.description.value != "" && Money.Blank(patch.description.value)
  {
    var after := WebhookMilestoneWrite(r, patch).row;
    if patch.index.Some? && 0 <= patch.index.value < |r.row.milestones| {
      var i := patch.index.value;
      assert after.milestones[i] == Patched(r.row.milestones[i], patch);
      assert forall k :: 0 <= k < |r.row.milestones| && k != i ==> after.milestones[k] == r.row.milestones[k];
    }
  }

  /** One space is such a description: after it no milestone of the agreement can be updated any more. */
  lemma BlankDescriptionBlocks(r: Record, event: TwEvent, at: nat, index: int, status: MilestoneStatus, evidence: EvidencePatch)
    requires Money.Balanced(r.row.amount, Items(r.row.milestones)) && NoBlankMilestone(r.row) && at < |r.row.milestones|
    requires EventConfig(event).MilestoneUpdate? && CanonicalStatuses(r.row.milestones)
    ensures var after := Apply(r, WebhookMilestone(event, MilestonePatch(Some(at), None, Some(" "))));
            MilestoneUpdated(after, index, status, evidence).None?
  {
    var c := WebhookMilestone(event, MilestonePatch(Some(at), None, Some(" ")));
    assert TrimLeft(" ") == "" && Money.Blank(" ");
    WebhookBlanksIff(r, c.patch);
    CallKeepsMoney(r, c);
    Money.SameAmountsSameSum(Items(r.row.milestones), Items(Apply(r, c).row.milestones));
    BalancedUpdateRefusedIff(Apply(r, c), index, status, evidence);
  }
}
