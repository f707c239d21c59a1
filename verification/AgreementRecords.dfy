/**
 * One agreement row and its activity log, and what each service call writes to
 * them. Every call is atomic; the clock is a parameter.
 */
module AgreementRecords {
  import opened Prelude
  import opened Lifecycle
  import Money

  /** What the service provider delivered for a milestone. */
  datatype Evidence = Evidence(description: Option<string>, urls: Option<seq<string>>, submittedAt: Option<int>)

  const NO_EVIDENCE: Evidence := Evidence(None, None, None)

  datatype Milestone = Milestone(item: Money.Milestone, status: MilestoneStatus, evidence: Evidence)

  /** What an agreement is about; written at creation only. */
  datatype Terms = Terms(title: string, description: Option<string>, asset: string, agreementType: string,
                         metadata: string, createdBy: string)

  datatype Agreement = Agreement(
    terms: Terms, status: Status, amount: string, milestones: seq<Milestone>, contractId: Option<string>,
    fundedAt: Option<int>, completedAt: Option<int>)

  datatype Action =
    | Created | MilestoneCreated(index: nat) | ContractLinked
    | StatusChanged | WebhookStatusChanged | WebhookTransitionRejected
    | MilestoneChanged(index: nat) | WebhookMilestoneUpdated(index: nat) | WebhookInfo
    | SyncAlreadyInSync | SyncPulled | SyncPushPending | SyncFetchFailed | ReconcileCompleted
    | DisputeOpened | DisputeResolverAssigned | DisputeResolved | DisputeCancelled

  /** A log entry. Agreement statuses it records are kept; a webhook entry names only the new one. */
  datatype Entry = Entry(action: Action, from: Option<Status>, to: Option<Status>)

  datatype Record = Record(row: Agreement, log: seq<Entry>)

  // ---------------------------------------------------------------- Trustless Work events

  datatype TwEvent =
    | EscrowFunded | EscrowReleased | EscrowDisputed | ContractCompleted | ContractCancelled
    | AgreementCreatedEvent | AgreementUpdatedEvent | AgreementMilestoneUpdated
    | EscrowCreated | EscrowUpdated | EscrowMilestoneUpdated
    | EscrowDisputeCreated | DisputeCreated
    | MilestoneCompleted | MilestoneApproved | MilestoneRejected | MilestoneCancelled

  datatype WebhookAction = StatusUpdate(target: Status) | MilestoneUpdate | Info

  function EventConfig(e: TwEvent): WebhookAction {
    match e
    case EscrowFunded => StatusUpdate(Funded)
    case EscrowReleased => StatusUpdate(Completed)
    case EscrowDisputed => StatusUpdate(Disputed)
    case ContractCompleted => StatusUpdate(Completed)
    case ContractCancelled => StatusUpdate(Cancelled)
    case AgreementMilestoneUpdated => MilestoneUpdate
    case EscrowMilestoneUpdated => MilestoneUpdate
    case EscrowDisputeCreated => StatusUpdate(Disputed)
    case DisputeCreated => StatusUpdate(Disputed)
    case MilestoneCompleted => MilestoneUpdate
    case MilestoneApproved => MilestoneUpdate
    case MilestoneRejected => MilestoneUpdate
    case MilestoneCancelled => MilestoneUpdate
    case _ => Info
  }

  /** The evidence part of a milestone update. */
  datatype EvidencePatch = EvidencePatch(description: Option<string>, urls: Option<seq<string>>, now: int)

  /** The milestone part of a webhook payload. */
  datatype MilestonePatch = MilestonePatch(index: Option<int>, status: Option<MilestoneStatus>, description: Option<string>)

  /** A Trustless Work escrow status, as mapped: only "created" is renamed, any other text passes through. */
  datatype TwStatus = TwCreated | TwOther(status: Status)

  function MapTwStatus(s: TwStatus): Status {
    match s
    case TwCreated => Pending
    case TwOther(status) => status
  }

  datatype EscrowView = EscrowView(milestones: Option<seq<TwMilestone>>, released: bool)

  // ---------------------------------------------------------------- writers

  predicate MilestonesSatisfyCompletion(ms: seq<Milestone>) {
    forall i :: 0 <= i < |ms| ==> ms[i].status in COMPLETED_MILESTONE_STATUSES
  }

  function Items(ms: seq<Milestone>): (r: seq<Money.Milestone>)
    ensures |r| == |ms|
    ensures forall i :: 0 <= i < |ms| ==> r[i] == ms[i].item
  {
    seq(|ms|, i requires 0 <= i < |ms| => ms[i].item)
  }

  function CreatedLog(ms: seq<Milestone>, n: nat): seq<Entry>
    requires n <= |ms|
  {
    if n == 0 then [Entry(Created, None, None)] else CreatedLog(ms, n - 1) + [Entry(MilestoneCreated(n - 1), None, None)]
  }

  /** A fresh agreement is pending, whatever the request says. */
  function NewRecord(terms: Terms, amount: string, ms: seq<Milestone>, contractId: Option<string>): Record {
    Record(Agreement(terms, Pending, amount, ms, contractId, None, None), CreatedLog(ms, |ms|))
  }

  function WithStatus(row: Agreement, to: Status, now: int): Agreement {
    row.(status := to,
         fundedAt := if to == Funded then Some(now) else row.fundedAt,
         completedAt := if to == Completed || to == Resolved then Some(now) else row.completedAt)
  }

  function StatusWrite(r: Record, to: Status, now: int): Record {
    Record(WithStatus(r.row, to, now), r.log + [Entry(StatusChanged, Some(r.row.status), Some(to))])
  }

  /** A status write of the webhook path sets no completion time for "resolved", which no event targets. */
  function WebhookStatusWrite(r: Record, to: Status, now: int): Record {
    var row := r.row.(status := to,
                      fundedAt := if to == Funded then Some(now) else r.row.fundedAt,
                      completedAt := if to == Completed then Some(now) else r.row.completedAt);
    Record(row, r.log + [Entry(WebhookStatusChanged, None, Some(to))])
  }

  function Noted(r: Record, action: Action, from: Option<Status>, to: Option<Status>): Record {
    r.(log := r.log + [Entry(action, from, to)])
  }

  function SetMilestone(r: Record, i: nat, m: Milestone): Record
    requires i < |r.row.milestones|
  {
    r.(row := r.row.(milestones := r.row.milestones[i := m]))
  }

  function Patched(m: Milestone, patch: MilestonePatch): Milestone {
    var status := if patch.status.Some? then NormalizeMilestoneStatus(patch.status.value) else None;
    var m1 := if status.Some? then m.(status := status.value) else m;
    if patch.description.Some? && patch.description.value != "" then m1.(item := m1.item.(description := patch.description))
    else m1
  }

  /** Which side a sync pass takes: the position of a status on the chain, or -1. */
  function ChainIndex(s: Status): int {
    match s
    case Pending => 0
    case Funded => 1
    case Active => 2
    case InReview => 3
    case Completed => 4
    case _ => -1
  }

  datatype Direction = AlreadyInSync | TwToThalos | ThalosToTw

  function SyncDirection(current: Status, tw: Status): Direction {
    if current == tw then AlreadyInSync
    else if ChainIndex(tw) > ChainIndex(current) then TwToThalos
    else if ChainIndex(current) > ChainIndex(tw) then ThalosToTw
    else TwToThalos
  }

  /** One pass of the sync engine; `escrow` is absent when Trustless Work could not be read. */
  function Synced(r: Record, escrow: Option<TwStatus>): Record {
    if r.row.contractId.None? then r
    else if escrow.None? then Noted(r, SyncFetchFailed, None, None)
    else
      var tw := MapTwStatus(escrow.value);
      match SyncDirection(r.row.status, tw)
      case AlreadyInSync => Noted(r, SyncAlreadyInSync, None, None)
      case TwToThalos => Noted(r.(row := r.row.(status := tw)), SyncPulled, Some(r.row.status), Some(tw))
      case ThalosToTw => Noted(r, SyncPushPending, Some(r.row.status), Some(tw))
  }

  function ReconciledMilestones(ms: seq<Milestone>, tw: seq<TwMilestone>, released: bool): (out: seq<Milestone>)
    ensures |out| == |ms|
    ensures forall i :: 0 <= i < |ms| ==> out[i] == if i < |tw| then ms[i].(status := MilestoneStatusFromTrustless(tw[i], released)) else ms[i]
  {
    seq(|ms|, i requires 0 <= i < |ms| => if i < |tw| then ms[i].(status := MilestoneStatusFromTrustless(tw[i], released)) else ms[i])
  }

  /** A sync pass, and unless it failed or found nothing to do, the milestones of a second read. */
  function ReconciledRecord(r: Record, escrow: Option<TwStatus>, again: Option<EscrowView>): Record {
    var s := Synced(r, escrow);
    if r.row.contractId.None? || escrow.None? || SyncDirection(r.row.status, MapTwStatus(escrow.value)) == AlreadyInSync then s
    else
      match again
      case None => s
      case Some(view) =>
        var ms := if view.milestones.Some? then ReconciledMilestones(s.row.milestones, view.milestones.value, view.released)
                  else s.row.milestones;
        Noted(s.(row := s.row.(milestones := ms)), ReconcileCompleted, None, None)
  }

  // ---------------------------------------------------------------- calls

  /** A service call that reaches one agreement. */
  datatype Call =
    | UserStatus(to: Status, now: int)
    | DisputeStatus(to: Status, now: int)      // opening or resolving a dispute: transition enforced
    | DisputeWithdrawn(now: int)               // cancelling a dispute: back to active
    | UserMilestone(index: int, status: MilestoneStatus, evidence: EvidencePatch)
    | WebhookStatus(event: TwEvent, now: int)
    | WebhookMilestone(event: TwEvent, patch: MilestonePatch)
    | SyncPass(escrow: Option<TwStatus>)
    | Reconcile(escrow: Option<TwStatus>, again: Option<EscrowView>)
    | Note(action: Action, previous: Option<Status>, next: Option<Status>)   // an entry that sets no status

  predicate SetsStatus(action: Action) {
    action == StatusChanged || action == WebhookStatusChanged || action == SyncPulled
  }

  /** What the callers of the services guarantee: canonical milestone statuses from users, side entries that set no status. */
  predicate WellFormed(c: Call) {
    match c
    case UserMilestone(_, status, _) => IsMilestoneStatus(status)
    case WebhookStatus(event, _) => EventConfig(event).StatusUpdate?
    case WebhookMilestone(event, _) => EventConfig(event).MilestoneUpdate?
    case Note(action, _, _) => !SetsStatus(action)
    case _ => true
  }

  predicate UserMayMove(row: Agreement, to: Status) {
    CanTransition(row.status, to) && (to == Completed ==> MilestonesSatisfyCompletion(row.milestones))
  }

  /** New evidence replaces what it names and dates the submission. */
  function Submitted(e: Evidence, patch: EvidencePatch): Evidence {
    Evidence(if patch.description.Some? then patch.description else e.description,
             if patch.urls.Some? then patch.urls else e.urls,
             if patch.description.Some? || patch.urls.Some? then Some(patch.now) else e.submittedAt)
  }

  /** The completion gate, status by status: only from review, and only with every milestone approved or released. */
  lemma CompletionGate(row: Agreement)
    ensures UserMayMove(row, Status.Completed)
            <==> row.status == InReview
                 && forall i :: 0 <= i < |row.milestones| ==> row.milestones[i].status in {Approved, MilestoneStatus.Released}
  {
  }

  function MilestoneUpdated(r: Record, index: int, status: MilestoneStatus, evidence: EvidencePatch): Option<Record> {
    if index < 0 || index >= |r.row.milestones| then None
    else
      var m := r.row.milestones[index];
      var next := SetMilestone(r, index, m.(status := status, evidence := Submitted(m.evidence, evidence)));
      if !Money.Consistent(next.row.amount, Items(next.row.milestones)) then None
      else Some(Noted(next, MilestoneChanged(index), None, None))
  }

  function WebhookMilestoneWrite(r: Record, patch: MilestonePatch): Record {
    if patch.index.None? || patch.index.value < 0 || patch.index.value >= |r.row.milestones| then r
    else
      var i := patch.index.value;
      Noted(SetMilestone(r, i, Patched(r.row.milestones[i], patch)), WebhookMilestoneUpdated(i), None, None)
  }

  /** What a call leaves behind; a refused call leaves the row alone. */
  function Apply(r: Record, c: Call): Record
    requires WellFormed(c)
  {
    match c
    case UserStatus(to, now) => if UserMayMove(r.row, to) then StatusWrite(r, to, now) else r
    case DisputeStatus(to, now) => if CanTransition(r.row.status, to) then StatusWrite(r, to, now) else r
    case DisputeWithdrawn(now) => if CanTransition(r.row.status, Active) then StatusWrite(r, Active, now) else r
    case UserMilestone(index, status, evidence) =>
      var next := MilestoneUpdated(r, index, status, evidence);
      if next.Some? then next.value else r
    case WebhookStatus(event, now) =>
      var target := EventConfig(event).target;
      if CanTransition(r.row.status, target) then WebhookStatusWrite(r, target, now)
      else Noted(r, WebhookTransitionRejected, Some(r.row.status), Some(target))
    case WebhookMilestone(event, patch) => WebhookMilestoneWrite(r, patch)
    case SyncPass(escrow) => Synced(r, escrow)
    case Reconcile(escrow, again) => ReconciledRecord(r, escrow, again)
    case Note(action, from, to) => Noted(r, action, from, to)
  }

  predicate AllWellFormed(cs: seq<Call>) {
    forall i :: 0 <= i < |cs| ==> WellFormed(cs[i])
  }

  function Run(r: Record, cs: seq<Call>): Record
    requires AllWellFormed(cs)
  {
    if cs == [] then r else Apply(Run(r, cs[..|cs| - 1]), cs[|cs| - 1])
  }

  predicate Pulls(c: Call) {
    c.SyncPass? || c.Reconcile?
  }

  predicate PullFree(cs: seq<Call>) {
    forall i :: 0 <= i < |cs| ==> !Pulls(cs[i])
  }
}
