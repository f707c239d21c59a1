/** Disputes and their resolutions, and the agreement statuses they drive. */
module Disputes {
  import opened Prelude
  import opened Lifecycle
  import opened AgreementRecords
  import opened AgreementServices

  /** The two dispute tables; a dispute's id is its position. */
  datatype Docket = Docket(disputes: seq<Dispute>, resolutions: seq<Resolution>)

  predicate Live(d: Dispute) {
    d.status == Open || d.status == UnderReview
  }

  predicate HasLive(disputes: seq<Dispute>, agreement: nat) {
    exists i :: 0 <= i < |disputes| && disputes[i].agreement == agreement && Live(disputes[i])
  }

  datatype DisputeCall =
    | OpenCall(agreement: nat, party: string)
    | AssignCall(id: nat, resolver: string)
    | ResolveCall(id: nat, party: string, payer: real, payee: real)
    | CancelCall(id: nat, party: string)

  predicate MayResolve(d: Docket, id: nat, party: string, payer: real, payee: real) {
    && 0.0 <= payer <= 100.0 && 0.0 <= payee <= 100.0 && payer + payee == 100.0
    && id < |d.disputes| && d.disputes[id].status != Settled && d.disputes[id].resolver == Some(party)
  }

  predicate MayCancel(d: Docket, id: nat, party: string) {
    id < |d.disputes| && d.disputes[id].openedBy == party && d.disputes[id].status != Settled
  }

  /** What a call leaves in the dispute tables, whatever becomes of the agreement. */
  function Filed(d: Docket, c: DisputeCall): Docket {
    match c
    case OpenCall(agreement, party) =>
      if HasLive(d.disputes, agreement) then d else d.(disputes := d.disputes + [Dispute(agreement, party, Open, None)])
    case AssignCall(id, resolver) =>
      if id < |d.disputes| && d.disputes[id].status == Open then
        d.(disputes := d.disputes[id := d.disputes[id].(resolver := Some(resolver), status := UnderReview)])
      else d
    case ResolveCall(id, party, payer, payee) =>
      if MayResolve(d, id, party, payer, payee) then
        Docket(d.disputes[id := d.disputes[id].(status := Settled)], d.resolutions + [Resolution(id, party, payer, payee)])
      else d
    case CancelCall(id, party) =>
      if MayCancel(d, id, party) then d.(disputes := d.disputes[id := d.disputes[id].(status := Withdrawn)]) else d
  }

  // ---------------------------------------------------------------- invariant over runs

  ghost predicate OneLive(d: Docket) {
    forall i, j :: 0 <= i < j < |d.disputes| && Live(d.disputes[i]) && Live(d.disputes[j])
                   ==> d.disputes[i].agreement != d.disputes[j].agreement
  }

  ghost predicate HasResolution(d: Docket, id: nat) {
    exists k :: 0 <= k < |d.resolutions| && d.resolutions[k].dispute == id
  }

  /** Resolved disputes and resolution rows match one to one, and each row is sound. */
  ghost predicate ResolutionsMatch(d: Docket) {
    && (forall i: nat :: i < |d.disputes| ==> (d.disputes[i].status == Settled <==> HasResolution(d, i)))
    && (forall k, l :: 0 <= k < l < |d.resolutions| ==> d.resolutions[k].dispute != d.resolutions[l].dispute)
    && (forall k :: 0 <= k < |d.resolutions| ==>
          var r := d.resolutions[k];
          && r.dispute < |d.disputes|
          && r.payer >= 0.0 && r.payee >= 0.0 && r.payer + r.payee == 100.0
          && d.disputes[r.dispute].resolver == Some(r.resolvedBy))
  }

  lemma FilingKeepsOneLive(d: Docket, c: DisputeCall)
    requires OneLive(d)
    ensures OneLive(Filed(d, c))
  {
  }

  lemma FilingKeepsResolutions(d: Docket, c: DisputeCall)
    requires ResolutionsMatch(d)
    ensures ResolutionsMatch(Filed(d, c))
  {
    if c.ResolveCall? && MayResolve(d, c.id, c.party, c.payer, c.payee) {
      ResolvingKeepsResolutions(d, c);
    } else {
      var e := Filed(d, c);
      assert e.resolutions == d.resolutions;
      forall i: nat | i < |e.disputes| ensures e.disputes[i].status == Settled <==> HasResolution(e, i) {
        assert HasResolution(e, i) <==> HasResolution(d, i);
      }
    }
  }

  lemma ResolvingKeepsResolutions(d: Docket, c: DisputeCall)
    requires ResolutionsMatch(d) && c.ResolveCall? && MayResolve(d, c.id, c.party, c.payer, c.payee)
    ensures ResolutionsMatch(Filed(d, c))
  {
    var e, n := Filed(d, c), |d.resolutions|;
    assert e.resolutions[n].dispute == c.id;
    assert !HasResolution(d, c.id);
    forall i: nat | i < |e.disputes| ensures e.disputes[i].status == Settled <==> HasResolution(e, i) {
      if HasResolution(d, i) {
        var k :| 0 <= k < n && d.resolutions[k].dispute == i;
        assert e.resolutions[k].dispute == i;
      }
    }
  }

  function FiledAll(d: Docket, cs: seq<DisputeCall>): Docket {
    if cs == [] then d else Filed(FiledAll(d, cs[..|cs| - 1]), cs[|cs| - 1])
  }

  /**
   * In every serial run an agreement has at most one live dispute, a dispute is
   * resolved exactly when it has a resolution, which is then its only one, splits
   * 100 percent and was made by the assigned resolver.
   */
  lemma {:induction false} DocketOverRuns(cs: seq<DisputeCall>)
    ensures var d := FiledAll(Docket([], []), cs); OneLive(d) && ResolutionsMatch(d)
    ensures var ds := FiledAll(Docket([], []), cs).disputes;
            forall i, j :: 0 <= i < j < |ds| && ds[i].agreement == ds[j].agreement
                           ==> ds[i].status in {Settled, Withdrawn} || ds[j].status in {Settled, Withdrawn}
  {
    if cs != [] {
      var front := cs[..|cs| - 1];
      DocketOverRuns(front);
      FilingKeepsOneLive(FiledAll(Docket([], []), front), cs[|cs| - 1]);
      FilingKeepsResolutions(FiledAll(Docket([], []), front), cs[|cs| - 1]);
    }
  }

  /** A resolved dispute stays as it is, with the resolution it has. */
  lemma {:induction false} ResolvedIsFinal(d: Docket, cs: seq<DisputeCall>, id: nat)
    requires id < |d.disputes| && d.disputes[id].status == Settled
    ensures var e := FiledAll(d, cs);
            id < |e.disputes| && e.disputes[id] == d.disputes[id] && d.resolutions <= e.resolutions
  {
    if cs != [] {
      ResolvedIsFinal(d, cs[..|cs| - 1], id);
    }
  }

  /** A withdrawn dispute, though, can still be resolved by the resolver it was assigned. */
  lemma WithdrawnCanBeResolved(opener: string, resolver: string)
    ensures var cs := [OpenCall(0, opener), AssignCall(0, resolver), CancelCall(0, opener), ResolveCall(0, resolver, 60.0, 40.0)];
            && FiledAll(Docket([], []), cs[..3]).disputes == [Dispute(0, opener, Withdrawn, Some(resolver))]
            && FiledAll(Docket([], []), cs).disputes == [Dispute(0, opener, Settled, Some(resolver))]
  {
    var a, b, c, e := OpenCall(0, opener), AssignCall(0, resolver), CancelCall(0, opener), ResolveCall(0, resolver, 60.0, 40.0);
    var d0 := Docket([], []);
    assert [a, b, c, e][..3] == [a, b, c] && [a, b, c][..2] == [a, b] && [a, b][..1] == [a] && [a][..0] == [];
    assert FiledAll(d0, [a]) == Docket([Dispute(0, opener, Open, None)], []);
    assert FiledAll(d0, [a, b]) == Docket([Dispute(0, opener, UnderReview, Some(resolver))], []);
    assert FiledAll(d0, [a, b, c]) == Docket([Dispute(0, opener, Withdrawn, Some(resolver))], []);
  }

  ghost predicate Untouched(d: Docket, cs: seq<DisputeCall>, id: nat)
    requires id < |d.disputes|
  {
    id < |FiledAll(d, cs).disputes| && FiledAll(d, cs).disputes[id] == d.disputes[id]
  }

  lemma {:induction false} UnassignedStaysWithdrawn(d: Docket, cs: seq<DisputeCall>, id: nat)
    requires id < |d.disputes| && d.disputes[id].status == Withdrawn && d.disputes[id].resolver == None
    ensures id < |FiledAll(d, cs).disputes|
    ensures var e := FiledAll(d, cs).disputes[id]; e.status == Withdrawn && e.resolver == None && e == d.disputes[id]
  {
    if cs != [] {
      UnassignedStaysWithdrawn(d, cs[..|cs| - 1], id);
    }
  }

  /** A withdrawn dispute is final, whatever is called, exactly when no resolver had been assigned. */
  lemma WithdrawnIsFinalIff(d: Docket, id: nat)
    requires id < |d.disputes| && d.disputes[id].status == Withdrawn
    ensures (forall cs :: Untouched(d, cs, id)) <==> d.disputes[id].resolver == None
  {
    if d.disputes[id].resolver == None {
      forall cs ensures Untouched(d, cs, id) {
        UnassignedStaysWithdrawn(d, cs, id);
      }
    } else {
      var resolving := ResolveCall(id, d.disputes[id].resolver.value, 60.0, 40.0);
      assert [resolving][..0] == [];
      assert FiledAll(d, [resolving]) == Filed(d, resolving);
      assert !Untouched(d, [resolving], id);
    }
  }

  /** The log entry a dispute call adds after the status change it caused. */
  function DisputeNoted(r: Record, to: Status, now: int, action: Action): Record {
    Noted(StatusWrite(r, to, now), action, Some(r.row.status), Some(to))
  }

  /** What opening a dispute does to the agreement: nothing while one is live, else what the table and the write allow. */
  function Opened(d: Docket, r: Record, agreement: nat, writeFails: bool, now: int): Record {
    if HasLive(d.disputes, agreement) || writeFails || !CanTransition(r.row.status, Disputed) then r
    else DisputeNoted(r, Disputed, now, Action.DisputeOpened)
  }

  /**
   * After opening there is a live dispute in any case. The agreement is disputed
   * exactly when it was already, or no dispute was live and it was active or in review.
   */
  lemma AgreementFollowsIff(d: Docket, r: Record, agreement: nat, party: string, writeFails: bool, now: int)
    ensures HasLive(Filed(d, OpenCall(agreement, party)).disputes, agreement)
    ensures Opened(d, r, agreement, writeFails, now).row.status == Disputed
            <==> || r.row.status == Disputed
                 || (!HasLive(d.disputes, agreement) && !writeFails && r.row.status in {Active, InReview})
  {
    var e := Filed(d, OpenCall(agreement, party));
    if !HasLive(d.disputes, agreement) {
      assert e.disputes[|d.disputes|].agreement == agreement && Live(e.disputes[|d.disputes|]);
    }
  }

  /** So a fresh agreement can have a live dispute and stay pending. */
  lemma PendingCanHaveDispute(terms: Terms, amount: string, ms: seq<Milestone>, contractId: Option<string>, party: string, now: int)
    ensures var d, r := Docket([], []), NewRecord(terms, amount, ms, contractId);
            && HasLive(Filed(d, OpenCall(0, party)).disputes, 0)
            && Opened(d, r, 0, false, now).row.status == Status.Pending
  {
    AgreementFollowsIff(Docket([], []), NewRecord(terms, amount, ms, contractId), 0, party, false, now);
  }

  /** And that stray dispute keeps the agreement from being disputed later, when it is active. */
  lemma StrayDisputeBlocks(terms: Terms, amount: string, ms: seq<Milestone>, contractId: Option<string>, party: string, now: int)
    ensures var d0, r0 := Docket([], []), NewRecord(terms, amount, ms, contractId);
            var d1, r1 := Filed(d0, OpenCall(0, party)), Opened(d0, r0, 0, false, now);
            var r2 := Apply(r1, UserStatus(Active, now));
            var d3, r3 := Filed(d1, OpenCall(0, party)), Opened(d1, r2, 0, false, now);
            && r2.row.status == Active && HasLive(d1.disputes, 0)
            && d3 == d1 && r3 == r2
  {
    AgreementFollowsIff(Docket([], []), NewRecord(terms, amount, ms, contractId), 0, party, false, now);
  }

  // ---------------------------------------------------------------- the service

  datatype DisputeError =
    | NotPermitted
    | NoSuchDispute
    | AlreadyOpen
    | InvalidStatusChange
    | NotOpen
    | NotAPercentage
    | NotHundred
    | AlreadyResolved
    | NotTheResolver
    | NotTheOpener

  ghost function DocketOf(db: Database): Docket
    reads db
  {
    Docket(db.disputes, db.resolutions)
  }

  /**
   * Opening inserts the dispute first and asks the table afterwards: when the
   * agreement may not move to disputed, the call fails and the open dispute stays.
   */
  method OpenDispute(db: Database, allowed: bool, agreement: nat, party: string, writeFails: bool, now: int)
      returns (r: Result<nat, DisputeError>)
    modifies db
    ensures DocketOf(db) == if allowed && agreement in old(db.records) then Filed(old(DocketOf(db)), OpenCall(agreement, party))
                            else old(DocketOf(db))
    ensures r.Ok? <==> && allowed && agreement in old(db.records) && !HasLive(old(db.disputes), agreement) && !writeFails
                       && CanTransition(old(db.records)[agreement].row.status, Disputed)
    ensures db.disputes ==
              if allowed && agreement in old(db.records)
                 && (forall i :: 0 <= i < |old(db.disputes)| && old(db.disputes)[i].agreement == agreement
                                 ==> old(db.disputes)[i].status !in {Open, UnderReview})
              then old(db.disputes) + [Dispute(agreement, party, Open, None)] else old(db.disputes)
    ensures db.records == if allowed && agreement in old(db.records)
                          then old(db.records)[agreement := Opened(old(DocketOf(db)), old(db.records)[agreement], agreement, writeFails, now)]
                          else old(db.records)
    ensures allowed && agreement in old(db.records) ==>
              && HasLive(db.disputes, agreement) && agreement in db.records
              && (db.records[agreement].row.status == Disputed <==>
                    || old(db.records)[agreement].row.status == Disputed
                    || (!HasLive(old(db.disputes), agreement) && !writeFails
                        && old(db.records)[agreement].row.status in {Active, InReview}))
    ensures r == Err(InvalidStatusChange) <==> && allowed && agreement in old(db.records) && !HasLive(old(db.disputes), agreement)
                                               && (writeFails || old(db.records)[agreement].row.status !in {Active, InReview})
  {
    if !allowed || agreement !in db.records {
      return Err(NotPermitted);
    }
    if HasLive(db.disputes, agreement) {
      return Err(AlreadyOpen);
    }
    var id := |db.disputes|;
    db.disputes := db.disputes + [Dispute(agreement, party, Open, None)];
    assert db.disputes[id].agreement == agreement && Live(db.disputes[id]);
    var from := ApplyStatusChange(db, agreement, Disputed, None, true, writeFails, now);
    if from.None? {
      return Err(InvalidStatusChange);
    }
    db.records := db.records[agreement := Noted(db.records[agreement], Action.DisputeOpened, from, Some(Disputed))];
    return Ok(id);
  }

  method AssignResolver(db: Database, allowed: bool, id: nat, resolver: string) returns (r: Result<(), DisputeError>)
    modifies db
    ensures DocketOf(db) == if allowed then Filed(old(DocketOf(db)), AssignCall(id, resolver)) else old(DocketOf(db))
    ensures r.Ok? <==> allowed && id < |old(db.disputes)| && old(db.disputes)[id].status == Open
    ensures db.disputes == if r.Ok? then old(db.disputes)[id := old(db.disputes)[id].(resolver := Some(resolver), status := UnderReview)]
                           else old(db.disputes)
    ensures db.records == if r.Ok? && old(db.disputes)[id].agreement in old(db.records)
                          then old(db.records)[old(db.disputes)[id].agreement :=
                                 Noted(old(db.records)[old(db.disputes)[id].agreement], DisputeResolverAssigned, None, None)]
                          else old(db.records)
  {
    if id >= |db.disputes| {
      return Err(NoSuchDispute);
    }
    if !allowed {
      return Err(NotPermitted);
    }
    var dispute := db.disputes[id];
    if dispute.status != Open {
      return Err(NotOpen);
    }
    db.disputes := db.disputes[id := dispute.(resolver := Some(resolver), status := UnderReview)];
    if dispute.agreement in db.records {
      db.records := db.records[dispute.agreement := Noted(db.records[dispute.agreement], DisputeResolverAssigned, None, None)];
    }
    return Ok(());
  }

  /** The resolution is recorded even when the agreement may not move to resolved. */
  method ResolveDispute(db: Database, allowed: bool, id: nat, party: string, payer: real, payee: real,
                        writeFails: bool, now: int)
      returns (r: Result<Resolution, DisputeError>)
    modifies db
    ensures DocketOf(db) == if allowed then Filed(old(DocketOf(db)), ResolveCall(id, party, payer, payee)) else old(DocketOf(db))
    ensures var may := && allowed && 0.0 <= payer && 0.0 <= payee && payer + payee == 100.0 && id < |old(db.disputes)|
                       && old(db.disputes)[id].status != Settled && old(db.disputes)[id].resolver == Some(party);
            && db.disputes == (if may then old(db.disputes)[id := old(db.disputes)[id].(status := Settled)] else old(db.disputes))
            && db.resolutions == (if may then old(db.resolutions) + [Resolution(id, party, payer, payee)] else old(db.resolutions))
    ensures r.Ok? <==> && allowed && MayResolve(old(DocketOf(db)), id, party, payer, payee) && !writeFails
                       && var a := old(db.disputes)[id].agreement;
                          a in old(db.records) && CanTransition(old(db.records)[a].row.status, Status.Resolved)
    ensures r.Ok? ==> var a := old(db.disputes)[id].agreement;
                      db.records == old(db.records)[a := DisputeNoted(old(db.records)[a], Status.Resolved, now, Action.DisputeResolved)]
    ensures r.Err? ==> db.records == old(db.records)
  {
    if !allowed {
      return Err(NotPermitted);
    }
    if payer < 0.0 || payer > 100.0 || payee < 0.0 || payee > 100.0 {
      return Err(NotAPercentage);
    }
    if payer + payee != 100.0 {
      return Err(NotHundred);
    }
    if id >= |db.disputes| {
      return Err(NoSuchDispute);
    }
    var dispute := db.disputes[id];
    if dispute.status == Settled {
      return Err(AlreadyResolved);
    }
    if dispute.resolver != Some(party) {
      return Err(NotTheResolver);
    }
    var resolution := Resolution(id, party, payer, payee);
    db.resolutions := db.resolutions + [resolution];
    db.disputes := db.disputes[id := dispute.(status := Settled)];
    var from := ApplyStatusChange(db, dispute.agreement, Status.Resolved, None, true, writeFails, now);
    if from.None? {
      return Err(InvalidStatusChange);
    }
    db.records := db.records[dispute.agreement := Noted(db.records[dispute.agreement], Action.DisputeResolved, from, Some(Status.Resolved))];
    return Ok(resolution);
  }

  method CancelDispute(db: Database, allowed: bool, id: nat, party: string, writeFails: bool, now: int)
      returns (r: Result<(), DisputeError>)
    modifies db
    ensures DocketOf(db) == if allowed then Filed(old(DocketOf(db)), CancelCall(id, party)) else old(DocketOf(db))
    ensures db.resolutions == old(db.resolutions)
    ensures db.disputes == if allowed && id < |old(db.disputes)| && old(db.disputes)[id].openedBy == party
                              && old(db.disputes)[id].status != Settled
                           then old(db.disputes)[id := old(db.disputes)[id].(status := Withdrawn)] else old(db.disputes)
    ensures r.Ok? <==> && allowed && MayCancel(old(DocketOf(db)), id, party) && !writeFails
                       && var a := old(db.disputes)[id].agreement;
                          a in old(db.records) && CanTransition(old(db.records)[a].row.status, Active)
    ensures r.Ok? ==> var a := old(db.disputes)[id].agreement;
                      db.records == old(db.records)[a := DisputeNoted(old(db.records)[a], Active, now, Action.DisputeCancelled)]
    ensures r.Err? ==> db.records == old(db.records)
  {
    if !allowed {
      return Err(NotPermitted);
    }
    if id >= |db.disputes| {
      return Err(NoSuchDispute);
    }
    var dispute := db.disputes[id];
    if dispute.openedBy != party {
      return Err(NotTheOpener);
    }
    if dispute.status == Settled {
      return Err(AlreadyResolved);
    }
    db.disputes := db.disputes[id := dispute.(status := Withdrawn)];
    if dispute.agreement !in db.records {
      return Err(InvalidStatusChange);
    }
    var errors := ValidateTransition(db.records[dispute.agreement].row.status, Active);
    if errors != [] {
      return Err(InvalidStatusChange);
    }
    var from := ApplyStatusChange(db, dispute.agreement, Active, None, false, writeFails, now);
    if from.None? {
      return Err(InvalidStatusChange);
    }
    db.records := db.records[dispute.agreement := Noted(db.records[dispute.agreement], Action.DisputeCancelled, from, Some(Active))];
    return Ok(());
  }

  /** What the dispute calls write to an agreement is a run of its record's own calls. */
  lemma DisputeWritesAreCalls(r: Record, to: Status, now: int, action: Action)
    requires CanTransition(r.row.status, to) && !SetsStatus(action)
    ensures Run(r, [DisputeStatus(to, now), Note(action, Some(r.row.status), Some(to))]) == DisputeNoted(r, to, now, action)
    ensures to == Active ==>
              Run(r, [DisputeWithdrawn(now), Note(action, Some(r.row.status), Some(to))]) == DisputeNoted(r, to, now, action)
  {
    var n := Note(action, Some(r.row.status), Some(to));
    assert [DisputeStatus(to, now), n][..1] == [DisputeStatus(to, now)] && [DisputeStatus(to, now)][..0] == [];
    assert [DisputeWithdrawn(now), n][..1] == [DisputeWithdrawn(now)] && [DisputeWithdrawn(now)][..0] == [];
    assert Run(r, [DisputeStatus(to, now)]) == StatusWrite(r, to, now);
    if to == Active {
      assert Run(r, [DisputeWithdrawn(now)]) == StatusWrite(r, Active, now);
    }
  }
}
