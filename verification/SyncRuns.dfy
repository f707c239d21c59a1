/** The sync engine's own law. It never consults the transition table: on the chain it is a join. */
module SyncRuns {
  import opened Prelude
  import opened Lifecycle
  import opened AgreementRecords

  predicate OnChain(s: Status) {
    ChainIndex(s) >= 0
  }

  /** Sync passes and reconciliations, which begin with one. */
  predicate OnlyPulls(cs: seq<Call>) {
    forall i :: 0 <= i < |cs| ==> Pulls(cs[i])
  }

  predicate OnlyPasses(cs: seq<Call>) {
    forall i :: 0 <= i < |cs| ==> cs[i].SyncPass?
  }

  /** The statuses a run of sync passes was shown. */
  ghost function Observed(cs: seq<Call>): set<Status>
    requires OnlyPulls(cs)
  {
    set i | 0 <= i < |cs| && cs[i].escrow.Some? :: MapTwStatus(cs[i].escrow.value)
  }

  /** `s` is the furthest of the chain statuses in `seen`. */
  ghost predicate IsFurthest(s: Status, seen: set<Status>) {
    OnChain(s) && s in seen && forall t :: t in seen ==> ChainIndex(t) <= ChainIndex(s)
  }

  ghost predicate AnyOnChain(seen: set<Status>) {
    exists t :: t in seen && OnChain(t)
  }

  lemma FurthestIsUnique(s: Status, t: Status, seen: set<Status>)
    requires IsFurthest(s, seen) && IsFurthest(t, seen)
    ensures s == t
  {
    assert ChainIndex(s) == ChainIndex(t);
  }

  /** The last status reported, or where the agreement started when nothing could be read. */
  function LastReport(start: Status, cs: seq<Call>): Status
    requires OnlyPulls(cs)
  {
    if cs == [] then start
    else if cs[|cs| - 1].escrow.Some? then MapTwStatus(cs[|cs| - 1].escrow.value)
    else LastReport(start, cs[..|cs| - 1])
  }

  lemma ObservedOneMore(cs: seq<Call>)
    requires cs != [] && OnlyPulls(cs)
    ensures var last := cs[|cs| - 1];
            Observed(cs) == Observed(cs[..|cs| - 1]) + if last.escrow.Some? then {MapTwStatus(last.escrow.value)} else {}
  {
    var front := cs[..|cs| - 1];
    assert forall i :: 0 <= i < |front| ==> front[i] == cs[i];
  }

  /** What a run of passes from `start` has to end in. */
  ghost predicate SyncLaw(s: Status, start: Status, cs: seq<Call>)
    requires OnlyPulls(cs)
  {
    var seen := {start} + Observed(cs);
    s in seen && if AnyOnChain(seen) then IsFurthest(s, seen) else s == LastReport(start, cs)
  }

  lemma PullSetsStatus(r: Record, c: Call)
    requires Pulls(c)
    ensures Apply(r, c).row.status == Synced(r, c.escrow).row.status
  {
  }

  lemma OnePassKeepsLaw(r: Record, start: Status, cs: seq<Call>)
    requires cs != [] && OnlyPulls(cs) && r.row.contractId.Some?
    requires SyncLaw(r.row.status, start, cs[..|cs| - 1])
    ensures SyncLaw(Apply(r, cs[|cs| - 1]).row.status, start, cs)
  {
    var last, before := cs[|cs| - 1], {start} + Observed(cs[..|cs| - 1]);
    ObservedOneMore(cs);
    PullSetsStatus(r, last);
    if last.escrow.Some? {
      var tw := MapTwStatus(last.escrow.value);
      assert {start} + Observed(cs) == before + {tw};
      assert AnyOnChain(before + {tw}) <==> AnyOnChain(before) || OnChain(tw);
      assert tw in before + {tw};
    } else {
      assert {start} + Observed(cs) == before;
    }
  }

  /**
   * From any status, a run of sync passes and reconciliations ends at the furthest
   * chain status among the start and the statuses observed, whatever else was
   * reported; only while none of them is on the chain does the last report stand.
   * They write nothing but the status, and reconciliations the milestones.
   */
  lemma {:induction false} SyncsJoin(r: Record, cs: seq<Call>)
    requires OnlyPulls(cs) && r.row.contractId.Some?
    ensures SyncLaw(Run(r, cs).row.status, r.row.status, cs)
    ensures Run(r, cs).row == r.row.(status := Run(r, cs).row.status, milestones := Run(r, cs).row.milestones)
    ensures OnlyPasses(cs) ==> Run(r, cs).row.milestones == r.row.milestones
  {
    if cs == [] {
      assert {r.row.status} + Observed(cs) == {r.row.status};
    } else {
      var front := cs[..|cs| - 1];
      SyncsJoin(r, front);
      OnePassKeepsLaw(Run(r, front), r.row.status, cs);
    }
  }

  /** Order and repetition do not matter once a chain status is involved: runs shown the same statuses end the same. */
  lemma SyncOrderIrrelevant(r: Record, cs: seq<Call>, ds: seq<Call>)
    requires OnlyPulls(cs) && OnlyPulls(ds) && Observed(cs) == Observed(ds)
    requires r.row.contractId.Some? && AnyOnChain({r.row.status} + Observed(cs))
    ensures Run(r, cs).row.status == Run(r, ds).row.status
    ensures OnlyPasses(cs) && OnlyPasses(ds) ==> Run(r, cs).row == Run(r, ds).row
  {
    SyncsJoin(r, cs);
    SyncsJoin(r, ds);
    FurthestIsUnique(Run(r, cs).row.status, Run(r, ds).row.status, {r.row.status} + Observed(cs));
  }

  /** A second pass over the same escrow leaves the row alone, wherever it started. */
  lemma SecondPassIsIdle(r: Record, escrow: Option<TwStatus>)
    ensures Synced(Synced(r, escrow), escrow).row == Synced(r, escrow).row
  {
  }

  /**
   * The engine does not protect terminal statuses: a linked agreement keeps its
   * status through every possible pass only when it is completed. A cancelled or
   * resolved one is reopened by an escrow still reported as created.
   */
  lemma OnlyCompletedSurvivesSync(r: Record)
    requires r.row.contractId.Some?
    ensures (forall tw :: Synced(r, Some(tw)).row.status == r.row.status) <==> r.row.status == Completed
    ensures r.row.status in {Cancelled, Resolved} ==> Synced(r, Some(TwCreated)).row.status == Pending
  {
    if r.row.status != Completed {
      var up := TwOther(Completed);
      assert Synced(r, Some(up)).row.status == Completed;
    }
  }

  /**
   * One pass, status by status. A report on the chain pending, funded, active, in
   * review, completed replaces whatever is not further along; any other report
   * replaces only what is off the chain itself.
   */
  lemma PassByName(r: Record, tw: TwStatus)
    requires r.row.contractId.Some?
    ensures var s := r.row.status;
            Synced(r, Some(tw)).row.status
            == match tw
               case TwCreated => if s in {Funded, Active, InReview, Completed} then s else Pending
               case TwOther(Pending) => if s in {Funded, Active, InReview, Completed} then s else Pending
               case TwOther(Funded) => if s in {Active, InReview, Completed} then s else Funded
               case TwOther(Active) => if s in {InReview, Completed} then s else Active
               case TwOther(InReview) => if s == Completed then s else InReview
               case TwOther(Completed) => Completed
               case TwOther(other) => if s in {Pending, Funded, Active, InReview, Completed} then s else other
  {
  }

  /** Exactly when one pass keeps the status: it is already the one reported, or strictly further along the chain. */
  lemma KeptIff(r: Record, tw: TwStatus)
    requires r.row.contractId.Some?
    ensures Synced(r, Some(tw)).row.status == r.row.status
            <==> MapTwStatus(tw) == r.row.status || ChainIndex(MapTwStatus(tw)) < ChainIndex(r.row.status)
  {
  }

  // ---------------------------------------------------------------- reconciliation

  /** Reconciling keeps what the milestones are worth, gives canonical statuses as far as both lists reach, and settles. */
  lemma ReconcilingSettles(ms: seq<Milestone>, tw: seq<TwMilestone>, released: bool)
    ensures var out := ReconciledMilestones(ms, tw, released);
            && Items(out) == Items(ms)
            && (forall i :: 0 <= i < |ms| && i < |tw| ==> IsMilestoneStatus(out[i].status))
            && (forall i :: |tw| <= i < |ms| ==> out[i] == ms[i])
            && ReconciledMilestones(out, tw, released) == out
  {
    var out := ReconciledMilestones(ms, tw, released);
    assert Items(out) == Items(ms);
    assert ReconciledMilestones(out, tw, released) == out;
  }

  /** Reconciling a second time against the same escrow leaves the row alone, wherever it started. */
  lemma SecondReconcileIsIdle(r: Record, escrow: Option<TwStatus>, again: Option<EscrowView>)
    ensures var once := ReconciledRecord(r, escrow, again); ReconciledRecord(once, escrow, again).row == once.row
  {
    var once := ReconciledRecord(r, escrow, again);
    SecondPassIsIdle(r, escrow);
    if again.Some? && again.value.milestones.Some? {
      ReconcilingSettles(r.row.milestones, again.value.milestones.value, again.value.released);
    }
  }
}
