/**
 * The services that write agreements, over one database. Access checks and what
 * Trustless Work answers are parameters; each call is atomic.
 */
module AgreementServices {
  import opened Prelude
  import opened Lifecycle
  import opened AgreementRecords
  import opened Participants
  import Money

  datatype DisputeState = Open | UnderReview | Settled | Withdrawn

  datatype Dispute = Dispute(agreement: nat, openedBy: string, status: DisputeState, resolver: Option<string>)

  datatype Resolution = Resolution(dispute: nat, resolvedBy: string, payer: real, payee: real)

  class Database {
    var records: map<nat, Record>
    var participants: map<nat, seq<Participant>>
    var disputes: seq<Dispute>
    var resolutions: seq<Resolution>

    constructor ()
      ensures records == map[] && participants == map[] && disputes == [] && resolutions == []
    {
      records, participants, disputes, resolutions := map[], map[], [], [];
    }
  }

  datatype ServiceError =
    | Invalid(faults: seq<Money.Fault>)
    | InsertFailed
    | WriteFailed
    | ParticipantsFailed
    | Forbidden
    | NotFound
    | TransitionRefused(verdict: Verdict)
    | MilestonesOpen
    | BadMilestoneIndex
    | Inconsistent(faults: seq<Money.Fault>)

  function WithStatuses(items: seq<Money.Milestone>, statuses: seq<MilestoneStatus>): (r: seq<Milestone>)
    requires |items| == |statuses|
    ensures |r| == |items| && Items(r) == items
    ensures forall i :: 0 <= i < |r| ==> r[i] == Milestone(items[i], statuses[i], Evidence(None, None, None))
  {
    var r := seq(|items|, i requires 0 <= i < |items| => Milestone(items[i], statuses[i], NO_EVIDENCE));
    assert Items(r) == items;
    r
  }

  /** What a request leaves open is filled in: USDC, a single payment. */
  function TermsOf(input: Money.AgreementInput, metadata: string, createdBy: string): Terms {
    Terms(input.title, input.description,
          if input.asset.Some? then input.asset.value else "USDC",
          if input.agreementType.Some? then input.agreementType.value else "single",
          metadata, createdBy)
  }

  /** An accepted request is in USDC; with milestones, it is of type "multi" exactly when it has several. */
  lemma AcceptedTerms(input: Money.AgreementInput, metadata: string, createdBy: string)
    requires Money.Accepts(input)
    ensures var terms := TermsOf(input, metadata, createdBy);
            && terms.title == input.title && terms.description == input.description
            && terms.metadata == metadata && terms.createdBy == createdBy
            && terms.asset == "USDC"
            && (input.agreementType.Some? ==> terms.agreementType == input.agreementType.value)
            && (input.agreementType.None? ==> terms.agreementType == "single")
            && (|input.milestones| > 1 ==> terms.agreementType == "multi")
            && (|input.milestones| == 1 ==> terms.agreementType != "multi")
  {
  }

  function WithRoles(wallets: seq<string>, roles: seq<string>): (r: seq<Participant>)
    requires |wallets| == |roles|
    ensures |r| == |wallets| && forall i :: 0 <= i < |r| ==> r[i] == Participant(wallets[i], roles[i])
  {
    seq(|wallets|, i requires 0 <= i < |wallets| => Participant(wallets[i], roles[i]))
  }

  /** Creates a pending agreement with its participants, or nothing: a failing participant insert takes the row out again. */
  method Create(db: Database, id: nat, input: Money.AgreementInput, statuses: seq<MilestoneStatus>, roles: seq<string>,
                metadata: string, createdBy: string, contractId: Option<string>,
                allowed: bool, insertFails: bool, participantsFail: bool)
      returns (r: Result<nat, ServiceError>)
    requires id !in db.records && |statuses| == |input.milestones| && |roles| == |input.participants|
    modifies db`records, db`participants
    ensures r.Ok? <==> Money.Accepts(input) && allowed && !insertFails && !participantsFail
    ensures r.Err? ==> db.records == old(db.records) && db.participants == old(db.participants)
    ensures r.Err? ==> (r.error.Invalid? <==> !Money.Accepts(input))
    ensures r.Ok? ==>
              var ms := WithStatuses(input.milestones, statuses);
              && db.records == old(db.records)[id := NewRecord(TermsOf(input, metadata, createdBy), input.amount, ms, contractId)]
              && db.participants == old(db.participants)[id := WithRoles(input.participants, roles)]
              && Money.Balanced(input.amount, Items(ms))
  {
    var faults := Money.ValidateAgreement(input);
    if faults != [] {
      return Err(Invalid(faults));
    }
    if !allowed {
      return Err(Forbidden);
    }
    if insertFails {
      return Err(InsertFailed);
    }
    var terms, ms := TermsOf(input, metadata, createdBy), WithStatuses(input.milestones, statuses);
    var stored := Store(db, id, Agreement(terms, Pending, input.amount, ms, contractId, None, None),
                        WithRoles(input.participants, roles), participantsFail);
    return if stored then Ok(id) else Err(ParticipantsFailed);
  }

  /** The inserts of a creation, the second of which may fail, and its log. */
  method Store(db: Database, id: nat, row: Agreement, participants: seq<Participant>, participantsFail: bool)
      returns (stored: bool)
    requires id !in db.records
    modifies db`records, db`participants
    ensures stored <==> !participantsFail
    ensures stored ==>
              && db.records == old(db.records)[id := Record(row, CreatedLog(row.milestones, |row.milestones|))]
              && db.participants == old(db.participants)[id := participants]
    ensures !stored ==> db.records == old(db.records) && db.participants == old(db.participants)
  {
    db.records := db.records[id := Record(row, [])];
    if participantsFail {
      db.records := db.records - {id};
      return false;
    }
    db.participants := db.participants[id := participants];
    LogCreation(db, id);
    return true;
  }

  method LogCreation(db: Database, id: nat)
    requires id in db.records && db.records[id].log == []
    modifies db`records
    ensures db.records == old(db.records)[id := Record(old(db.records)[id].row,
                                                       CreatedLog(old(db.records)[id].row.milestones, |old(db.records)[id].row.milestones|))]
  {
    ghost var row := db.records[id].row;
    db.records := db.records[id := Noted(db.records[id], Created, None, None)];
    assert db.records[id] == Record(row, CreatedLog(row.milestones, 0));
    for i := 0 to |db.records[id].row.milestones|
      invariant id in db.records
      invariant i <= |row.milestones| && db.records == old(db.records)[id := Record(row, CreatedLog(row.milestones, i))]
    {
      db.records := db.records[id := Noted(db.records[id], MilestoneCreated(i), None, None)];
    }
  }

  /** A user's status change: the table, and for completion every milestone approved or released. */
  method UpdateStatus(db: Database, allowed: bool, id: nat, to: Status, writeFails: bool, now: int)
      returns (r: Result<(), ServiceError>)
    modifies db`records
    ensures r.Ok? <==> allowed && id in old(db.records) && UserMayMove(old(db.records)[id].row, to) && !writeFails
    ensures to == Completed && r.Ok? ==>
              var row := old(db.records)[id].row;
              && row.status == InReview
              && (forall i :: 0 <= i < |row.milestones| ==> row.milestones[i].status in {Approved, MilestoneStatus.Released})
              && id in db.records && db.records[id].row == row.(status := Completed, completedAt := Some(now))
    ensures to == Completed && r.Err? && allowed && id in old(db.records) && !writeFails ==>
              var row := old(db.records)[id].row;
              row.status != InReview
              || exists i :: 0 <= i < |row.milestones| && row.milestones[i].status !in {Approved, MilestoneStatus.Released}
    ensures db.records == if r.Ok?
                          then old(db.records)[id := Apply(old(db.records)[id], UserStatus(to, now))]
                          else old(db.records)
  {
    if id !in db.records {
      return Err(NotFound);
    }
    if !allowed {
      return Err(Forbidden);
    }
    var current := db.records[id];
    var from := current.row.status;
    var verdict := ServiceVerdict(from, to);
    GuardsAgree(from, to);
    if verdict != Valid {
      return Err(TransitionRefused(verdict));
    }
    if to == Completed && !MilestonesSatisfyCompletion(current.row.milestones) {
      return Err(MilestonesOpen);
    }
    if writeFails {
      return Err(WriteFailed);
    }
    var row := current.row.(status := to);
    if to == Funded {
      row := row.(fundedAt := Some(now));
    } else if to == Completed || to == Resolved {
      row := row.(completedAt := Some(now));
    }
    db.records := db.records[id := Record(row, current.log + [Entry(StatusChanged, Some(from), Some(to))])];
    return Ok(());
  }

  /** The status a change is taken to start from: what the caller claims, else what the row says. */
  function StartOf(r: Record, claimed: Option<Status>): Status {
    if claimed.Some? then claimed.value else r.row.status
  }

  /** The status change disputes go through; returns the status left behind, or nothing when refused or not written. */
  method ApplyStatusChange(db: Database, id: nat, to: Status, claimed: Option<Status>, enforce: bool, writeFails: bool, now: int)
      returns (from: Option<Status>)
    modifies db`records
    ensures from.Some? <==> && id in old(db.records) && !writeFails
                            && (enforce ==> CanTransition(StartOf(old(db.records)[id], claimed), to))
    ensures from.Some? ==>
              && from.value == (if claimed.Some? then claimed.value else old(db.records)[id].row.status)
              && db.records == old(db.records)[id :=
                   Record(WithStatus(old(db.records)[id].row, to, now),
                          old(db.records)[id].log + [Entry(StatusChanged, from, Some(to))])]
    ensures from.Some? && claimed.None? ==> db.records == old(db.records)[id := StatusWrite(old(db.records)[id], to, now)]
    ensures from.None? ==> db.records == old(db.records)
  {
    if id !in db.records {
      return None;
    }
    var current := db.records[id];
    from := Some(StartOf(current, claimed));
    if enforce {
      GuardsAgree(from.value, to);
      if ServiceVerdict(from.value, to) != Valid {
        return None;
      }
    }
    if writeFails {
      return None;
    }
    var row := current.row.(status := to);
    if to == Funded {
      row := row.(fundedAt := Some(now));
    } else if to == Completed || to == Resolved {
      row := row.(completedAt := Some(now));
    }
    db.records := db.records[id := Record(row, current.log + [Entry(StatusChanged, from, Some(to))])];
  }

  method SubmitEvidence(before: Evidence, patch: EvidencePatch) returns (e: Evidence)
    ensures e == Submitted(before, patch)
  {
    e := before;
    if patch.description.Some? {
      e := e.(description := patch.description);
    }
    if patch.urls.Some? {
      e := e.(urls := patch.urls);
    }
    if patch.description.Some? || patch.urls.Some? {
      e := e.(submittedAt := Some(patch.now));
    }
  }

  method UpdateMilestone(db: Database, allowed: bool, id: nat, index: int, status: MilestoneStatus, evidence: EvidencePatch,
                         writeFails: bool)
      returns (r: Result<(), ServiceError>)
    requires IsMilestoneStatus(status)
    modifies db`records
    ensures r.Ok? <==> && allowed && id in old(db.records) && !writeFails
                       && MilestoneUpdated(old(db.records)[id], index, status, evidence).Some?
    ensures db.records == if r.Ok?
                          then old(db.records)[id := Apply(old(db.records)[id], UserMilestone(index, status, evidence))]
                          else old(db.records)
  {
    if id !in db.records {
      return Err(NotFound);
    }
    if !allowed {
      return Err(Forbidden);
    }
    var updated := ChangeMilestone(db.records[id], index, status, evidence);
    if updated.Err? {
      return Err(updated.error);
    }
    if writeFails {
      return Err(WriteFailed);
    }
    db.records := db.records[id := updated.value];
    return Ok(());
  }

  /** The record with one milestone changed, unless the index is bad or the result inconsistent. */
  method ChangeMilestone(current: Record, index: int, status: MilestoneStatus, evidence: EvidencePatch)
      returns (r: Result<Record, ServiceError>)
    ensures r.Ok? <==> MilestoneUpdated(current, index, status, evidence).Some?
    ensures r.Ok? ==> r.value == MilestoneUpdated(current, index, status, evidence).value
    ensures r.Err? ==> (r.error == BadMilestoneIndex <==> index < 0 || index >= |current.row.milestones|)
  {
    var ms := current.row.milestones;
    if index < 0 || index >= |ms| {
      return Err(BadMilestoneIndex);
    }
    var submitted := SubmitEvidence(ms[index].evidence, evidence);
    ms := ms[index := ms[index].(status := status, evidence := submitted)];
    var faults := Money.ValidateAgreementConsistency(current.row.amount, Items(ms));
    if faults != [] {
      return Err(Inconsistent(faults));
    }
    return Ok(Record(current.row.(milestones := ms), current.log + [Entry(MilestoneChanged(index), None, None)]));
  }

  // ---------------------------------------------------------------- webhooks

  /** A contract is linked to at most one agreement. */
  ghost predicate UniqueContracts(records: map<nat, Record>) {
    forall i, j :: i in records && j in records && i != j && records[i].row.contractId.Some?
                   ==> records[i].row.contractId != records[j].row.contractId
  }

  predicate Linked(records: map<nat, Record>, id: nat, contractId: string) {
    id in records && records[id].row.contractId == Some(contractId)
  }

  method FindByContract(db: Database, contractId: string) returns (found: Option<nat>)
    ensures found.Some? ==> Linked(db.records, found.value, contractId)
    ensures found.None? ==> forall id :: !Linked(db.records, id, contractId)
  {
    var ids := set id | id in db.records && Linked(db.records, id, contractId);
    if ids == {} {
      assert forall id :: Linked(db.records, id, contractId) ==> id in ids;
      return None;
    }
    var id :| id in ids;
    return Some(id);
  }

  datatype WebhookError = ReadFailed | WriteNotMade | NoAgreement

  /**
   * A status event. A refused transition is logged and dropped. An error, so that
   * the job is retried, is a failed read, a failed write or an unknown contract.
   */
  method ApplyStatusUpdate(db: Database, contractId: string, event: TwEvent, readFails: bool, writeFails: bool, now: int)
      returns (r: Result<(), WebhookError>)
    requires EventConfig(event).StatusUpdate? && UniqueContracts(db.records)
    modifies db`records
    ensures r.Err? ==> db.records == old(db.records)
    ensures r == Err(ReadFailed) <==> readFails
    ensures (forall id :: !Linked(old(db.records), id, contractId)) ==> r.Err?
    ensures forall id :: Linked(old(db.records), id, contractId) && !readFails ==>
                           && (r.Err? <==> writeFails && CanTransition(old(db.records)[id].row.status, EventConfig(event).target))
                           && (r.Ok? ==> db.records == old(db.records)[id := Apply(old(db.records)[id], WebhookStatus(event, now))])
  {
    var target := EventConfig(event).target;
    if readFails {
      return Err(ReadFailed);
    }
    var id := FindByContract(db, contractId);
    if id.None? {
      return Err(if writeFails then WriteNotMade else NoAgreement);
    }
    var current := db.records[id.value];
    var errors := ValidateTransition(current.row.status, target);
    if errors != [] {
      db.records := db.records[id.value := Noted(current, WebhookTransitionRejected, Some(current.row.status), Some(target))];
      return Ok(());
    }
    if writeFails {
      return Err(WriteNotMade);
    }
    GuardsAgree(current.row.status, target);
    var row := current.row.(status := target);
    if target == Funded {
      row := row.(fundedAt := Some(now));
    }
    if target == Completed {
      row := row.(completedAt := Some(now));
    }
    db.records := db.records[id.value := Record(row, current.log + [Entry(WebhookStatusChanged, None, Some(target))])];
    return Ok(());
  }

  /** A milestone event. Only a failed write makes the job retry: a failed read, like an unknown contract, drops the event. */
  method ApplyMilestoneUpdate(db: Database, contractId: string, event: TwEvent, patch: MilestonePatch,
                              readFails: bool, writeFails: bool)
      returns (ok: bool)
    requires EventConfig(event).MilestoneUpdate? && UniqueContracts(db.records)
    modifies db`records
    ensures readFails || (forall id :: !Linked(old(db.records), id, contractId)) ==> ok && db.records == old(db.records)
    ensures !ok ==> db.records == old(db.records)
    ensures forall id :: Linked(old(db.records), id, contractId) && !readFails ==>
                           && (ok <==> !(writeFails && patch.index.Some?
                                         && 0 <= patch.index.value < |old(db.records)[id].row.milestones|))
                           && (ok ==> db.records == old(db.records)[id := Apply(old(db.records)[id], WebhookMilestone(event, patch))])
  {
    if readFails {
      return true;
    }
    var id := FindByContract(db, contractId);
    if id.None? {
      return true;
    }
    var current := db.records[id.value];
    var ms := current.row.milestones;
    if patch.index.None? || patch.index.value < 0 || patch.index.value >= |ms| {
      assert db.records == db.records[id.value := current];
      return true;
    }
    var i := patch.index.value;
    if patch.status.Some? {
      var normalized := NormalizeMilestoneStatus(patch.status.value);
      if normalized.Some? {
        ms := ms[i := ms[i].(status := normalized.value)];
      }
    }
    if patch.description.Some? && patch.description.value != "" {
      ms := ms[i := ms[i].(item := ms[i].item.(description := patch.description))];
    }
    assert ms == current.row.milestones[i := Patched(current.row.milestones[i], patch)];
    if writeFails {
      return false;
    }
    db.records := db.records[id.value := Record(current.row.(milestones := ms),
                                                current.log + [Entry(WebhookMilestoneUpdated(i), None, None)])];
    return true;
  }

  // ---------------------------------------------------------------- sync

  datatype SyncResult = SyncResult(synced: bool, direction: Option<Direction>)

  predicate Readable(r: Record, escrow: Option<TwStatus>) {
    r.row.contractId.Some? && escrow.Some?
  }

  /** The pass wants to pull and the write of the status fails. */
  predicate PullFails(r: Record, escrow: Option<TwStatus>, writeFails: bool) {
    Readable(r, escrow) && writeFails && SyncDirection(r.row.status, MapTwStatus(escrow.value)) == TwToThalos
  }

  /** The pass pulls, and the escrow names parties to copy. */
  predicate CopiesParties(r: Record, escrow: Option<TwStatus>, parties: Parties, writeFails: bool) {
    && Readable(r, escrow) && !writeFails && SyncDirection(r.row.status, MapTwStatus(escrow.value)) == TwToThalos
    && (parties.sender != "" || parties.receiver != "")
  }

  function ParticipantsOf(participants: map<nat, seq<Participant>>, id: nat): seq<Participant> {
    if id in participants then participants[id] else []
  }

  method DoSync(db: Database, id: nat, escrow: Option<TwStatus>, parties: Parties, writeFails: bool) returns (r: SyncResult)
    modifies db`records, db`participants
    ensures db.participants == if id in old(db.records) && CopiesParties(old(db.records)[id], escrow, parties, writeFails)
                               then old(db.participants)[id := Joined(ParticipantsOf(old(db.participants), id), parties)]
                               else old(db.participants)
    ensures forall i :: i in old(db.participants) ==> i in db.participants && old(db.participants)[i] <= db.participants[i]
    ensures db.records == if id in old(db.records) && !PullFails(old(db.records)[id], escrow, writeFails)
                          then old(db.records)[id := Apply(old(db.records)[id], SyncPass(escrow))]
                          else old(db.records)
    ensures r.synced <==> && id in old(db.records)
                          && (old(db.records)[id].row.contractId.Some? ==> escrow.Some?)
                          && !PullFails(old(db.records)[id], escrow, writeFails)
    ensures r.direction == if id in old(db.records) && Readable(old(db.records)[id], escrow)
                           then Some(SyncDirection(old(db.records)[id].row.status, MapTwStatus(escrow.value))) else None
  {
    if id !in db.records {
      return SyncResult(false, None);
    }
    var current := db.records[id];
    if current.row.contractId.None? {
      assert db.records == db.records[id := current];
      return SyncResult(true, None);
    }
    if escrow.None? {
      db.records := db.records[id := Noted(current, SyncFetchFailed, None, None)];
      return SyncResult(false, None);
    }
    var tw, status := MapTwStatus(escrow.value), current.row.status;
    if status == tw {
      db.records := db.records[id := Noted(current, SyncAlreadyInSync, None, None)];
      return SyncResult(true, Some(AlreadyInSync));
    }
    if ChainIndex(status) > ChainIndex(tw) {
      db.records := db.records[id := Noted(current, SyncPushPending, Some(status), Some(tw))];
      return SyncResult(true, Some(ThalosToTw));
    }
    if writeFails {
      return SyncResult(false, Some(TwToThalos));
    }
    if parties.sender != "" || parties.receiver != "" {
      var joined := SyncParticipants(ParticipantsOf(db.participants, id), parties);
      db.participants := db.participants[id := joined];
    }
    db.records := db.records[id := Noted(current.(row := current.row.(status := tw)), SyncPulled, Some(status), Some(tw))];
    return SyncResult(true, Some(TwToThalos));
  }

  /** The milestone loop: statuses follow the escrow as far as both lists reach. */
  method ReconcileMilestones(milestones: seq<Milestone>, tw: seq<TwMilestone>, released: bool)
      returns (ms: seq<Milestone>, changed: nat)
    ensures ms == ReconciledMilestones(milestones, tw, released)
    ensures changed == 0 <==> ms == milestones
  {
    ms, changed := milestones, 0;
    var n := if |ms| <= |tw| then |ms| else |tw|;
    for i := 0 to n
      invariant |ms| == |milestones|
      invariant forall k :: 0 <= k < i ==> ms[k] == milestones[k].(status := MilestoneStatusFromTrustless(tw[k], released))
      invariant forall k :: i <= k < |ms| ==> ms[k] == milestones[k]
      invariant changed == 0 <==> ms == milestones
    {
      var status := MilestoneStatusFromTrustless(tw[i], released);
      if ms[i].status != status {
        ms := ms[i := ms[i].(status := status)];
        changed := changed + 1;
        assert ms[i] != milestones[i];
      }
    }
  }

  /** Reconciled unless the agreement is unknown, its escrow could not be read, or the pull could not be written. */
  method DoReconcile(db: Database, id: nat, escrow: Option<TwStatus>, parties: Parties, again: Option<EscrowView>,
                     writeFails: bool)
      returns (reconciled: bool)
    modifies db`records, db`participants
    ensures db.participants == if id in old(db.records) && CopiesParties(old(db.records)[id], escrow, parties, writeFails)
                               then old(db.participants)[id := Joined(ParticipantsOf(old(db.participants), id), parties)]
                               else old(db.participants)
    ensures reconciled <==> && id in old(db.records)
                            && (old(db.records)[id].row.contractId.Some? ==> escrow.Some?)
                            && !PullFails(old(db.records)[id], escrow, writeFails)
    ensures db.records == if id in old(db.records) && !PullFails(old(db.records)[id], escrow, writeFails)
                          then old(db.records)[id := Apply(old(db.records)[id], Reconcile(escrow, again))]
                          else old(db.records)
  {
    var sync := DoSync(db, id, escrow, parties, writeFails);
    if sync.direction == Some(AlreadyInSync) {
      return true;
    }
    if !sync.synced {
      return false;
    }
    var current := db.records[id];
    if current.row.contractId.Some? && again.Some? {
      var ms := current.row.milestones;
      if again.value.milestones.Some? {
        var changed: nat;
        ms, changed := ReconcileMilestones(ms, again.value.milestones.value, again.value.released);
      }
      db.records := db.records[id := Noted(current.(row := current.row.(milestones := ms)), ReconcileCompleted, None, None)];
    }
    return true;
  }
}
