/** The agreement lifecycle: one transition table, and the three guards built on copies of it. */
module Lifecycle {
  import opened Prelude

  /** A persisted status. The column is text, so it can hold a string outside the vocabulary. */
  datatype Status =
    | Draft | Pending | Funded | Active | InReview
    | Completed | Disputed | Resolved | Cancelled
    | Unknown(raw: string)

  predicate IsAgreementStatus(s: Status) {
    !s.Unknown?
  }

  function Transitions(from: Status): seq<Status> {
    match from
    case Draft => [Pending, Cancelled]
    case Pending => [Funded, Active, Cancelled]
    case Funded => [Active, Cancelled]
    case Active => [InReview, Disputed, Cancelled]
    case InReview => [Completed, Active, Disputed]
    case Disputed => [Resolved, Active]
    case Completed => []
    case Resolved => []
    case Cancelled => []
    case Unknown(_) => []
  }

  predicate CanTransition(from: Status, to: Status) {
    IsAgreementStatus(from) && IsAgreementStatus(to) && to in Transitions(from)
  }

  predicate IsTerminal(s: Status) {
    IsAgreementStatus(s) && Transitions(s) == []
  }

  datatype TransitionFault = InvalidStatus(status: Status) | InvalidTransition

  /** The guard used by webhooks and dispute cancellation. */
  method ValidateTransition(from: Status, to: Status) returns (errors: seq<TransitionFault>)
    ensures errors == [] <==> CanTransition(from, to)
    ensures InvalidTransition in errors <==> IsAgreementStatus(from) && IsAgreementStatus(to) && to !in Transitions(from)
  {
    errors := [];
    if !IsAgreementStatus(from) {
      errors := errors + [InvalidStatus(from)];
    }
    if !IsAgreementStatus(to) {
      errors := errors + [InvalidStatus(to)];
    }
    if errors != [] {
      return;
    }
    if to !in Transitions(from) {
      errors := errors + [InvalidTransition];
    }
  }

  /** The validation service's own copy of the table. */
  const VALID_TRANSITIONS: map<Status, set<Status>> := map[
    Draft := {Pending, Cancelled},
    Pending := {Funded, Active, Cancelled},
    Funded := {Active, Cancelled},
    Active := {InReview, Disputed, Cancelled},
    InReview := {Completed, Active, Disputed},
    Disputed := {Resolved, Active},
    Completed := {},
    Cancelled := {},
    Resolved := {}
  ]

  datatype Verdict = Valid | UnknownSource | UnknownTarget | SameStatus | NotAllowed

  /** The guard used by user and dispute status changes. */
  function ServiceVerdict(from: Status, to: Status): Verdict {
    if from !in VALID_TRANSITIONS then UnknownSource
    else if to !in VALID_TRANSITIONS then UnknownTarget
    else if from == to then SameStatus
    else if to !in VALID_TRANSITIONS[from] then NotAllowed
    else Valid
  }

  /** The two copies of the table are the same relation, and its extra same-status check refuses nothing more. */
  lemma GuardsAgree(from: Status, to: Status)
    ensures ServiceVerdict(from, to) == Valid <==> CanTransition(from, to)
    ensures CanTransition(from, to) ==> from != to
  {
  }

  /** How far an agreement has come; active, in review and disputed may alternate. */
  function Rank(s: Status): nat {
    match s
    case Draft => 0
    case Pending => 1
    case Funded => 2
    case Active => 3
    case InReview => 3
    case Disputed => 3
    case Completed => 4
    case Resolved => 4
    case Cancelled => 4
    case Unknown(_) => 5
  }

  /** Every edge climbs, or stays among active, in review and disputed; only terminal statuses have none. */
  lemma EdgesClimb(from: Status, to: Status)
    requires CanTransition(from, to)
    ensures Rank(from) < Rank(to) <= 4 || Rank(from) == Rank(to) == 3
    ensures Rank(from) < 4
    ensures to == Funded ==> from == Pending
    ensures IsTerminal(to) <==> Rank(to) == 4
  {
  }

  const COMPLETED_MILESTONE_STATUSES: set<MilestoneStatus> := {Approved, Released}

  // ---------------------------------------------------------------- milestone statuses

  datatype MilestoneStatus = MPending | Approved | Released | Rejected | Other(raw: string)

  predicate IsMilestoneStatus(s: MilestoneStatus) {
    !s.Other?
  }

  /** Trustless Work's own text, such as "completed", is not a status and is dropped. */
  function NormalizeMilestoneStatus(raw: MilestoneStatus): Option<MilestoneStatus> {
    if IsMilestoneStatus(raw) then Some(raw) else None
  }

  /** The parts of a Trustless Work milestone that decide its status here. */
  datatype TwMilestone = TwMilestone(saysRejected: bool, approved: bool, flagApproved: bool, flagReleased: bool)

  function MilestoneStatusFromTrustless(m: TwMilestone, escrowReleased: bool): (s: MilestoneStatus)
    ensures IsMilestoneStatus(s)
  {
    if escrowReleased || m.flagReleased then Released
    else if m.approved || m.flagApproved then Approved
    else if m.saysRejected then Rejected
    else MPending
  }

  /**
   * The flags decide: what the provider wrote can never make a milestone look
   * approved or released, and matters only while no flag is set, where it can
   * only say "rejected".
   */
  lemma FlagsDecideStatus(m: TwMilestone, escrowReleased: bool)
    ensures var s := MilestoneStatusFromTrustless(m, escrowReleased);
            var released, approved := escrowReleased || m.flagReleased, m.approved || m.flagApproved;
            && (s == Released <==> released)
            && (s == Approved <==> approved && !released)
            && (s == Rejected <==> m.saysRejected && !approved && !released)
            && (s == MPending <==> !m.saysRejected && !approved && !released)
    ensures forall text :: MilestoneStatusFromTrustless(m.(saysRejected := text), escrowReleased)
                           == MilestoneStatusFromTrustless(m, escrowReleased)
                           || (text != m.saysRejected && MilestoneStatusFromTrustless(m, escrowReleased) in {Rejected, MPending})
  {
  }

  /** The four statuses there are; anything else is dropped. */
  lemma CanonicalByName(raw: MilestoneStatus)
    ensures IsMilestoneStatus(raw) <==> raw in {MPending, Approved, Released, Rejected}
    ensures NormalizeMilestoneStatus(raw) == if raw in {MPending, Approved, Released, Rejected} then Some(raw) else None
  {
  }
}
