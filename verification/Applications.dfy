/** Opportunities, the applications to them, and who may win. */
module Applications {
  import opened Prelude

  datatype OpportunityStatus = Open | Closed | Filled

  datatype ApplicationStatus = Pending | Accepted | Rejected

  datatype Opportunity = Opportunity(project: string, status: OpportunityStatus)

  datatype Application = Application(opportunity: nat, builder: string, status: ApplicationStatus)

  /** The two tables. Deleting an opportunity deletes its applications. */
  datatype State = State(opportunities: map<nat, Opportunity>, applications: map<nat, Application>)

  const EMPTY: State := State(map[], map[])

  predicate IsAllowedStatusTransition(from: OpportunityStatus, to: OpportunityStatus) {
    from == Open && (to == Closed || to == Filled)
  }

  datatype Action =
    | Post(id: nat, project: string)
    | Apply(id: nat, opportunity: nat, profile: string, user: string)
    | Decide(id: nat, caller: string, accept: bool)
    | Edit(id: nat, caller: string, status: Option<OpportunityStatus>, editsFields: bool)
    | Remove(id: nat, caller: string)

  predicate HasApplied(s: State, opportunity: nat, user: string) {
    exists a :: a in s.applications && s.applications[a].opportunity == opportunity && s.applications[a].builder == user
  }

  predicate Owns(s: State, caller: string, opportunity: nat) {
    opportunity in s.opportunities && s.opportunities[opportunity].project == caller
  }

  /** When a call goes through; otherwise it is refused and changes nothing. */
  predicate Permitted(s: State, a: Action) {
    match a
    case Post(id, _) => id !in s.opportunities
    case Apply(id, opportunity, profile, user) =>
      && id !in s.applications && opportunity in s.opportunities
      && s.opportunities[opportunity].project != profile
      && s.opportunities[opportunity].status == Open
      && !HasApplied(s, opportunity, user)
    case Decide(id, caller, _) =>
      id in s.applications && Owns(s, caller, s.applications[id].opportunity) && s.applications[id].status == Pending
    case Edit(id, caller, status, editsFields) =>
      && Owns(s, caller, id)
      && (status.Some? ==> IsAllowedStatusTransition(s.opportunities[id].status, status.value))
      && (editsFields ==> s.opportunities[id].status == Open)
    case Remove(id, caller) => Owns(s, caller, id)
  }

  function OthersRejected(apps: map<nat, Application>, winner: nat, opportunity: nat): (r: map<nat, Application>)
    ensures r.Keys == apps.Keys
    ensures forall a :: a in apps ==>
              r[a] == if apps[a].opportunity == opportunity && apps[a].status == Pending && a != winner
                      then apps[a].(status := Rejected) else apps[a]
  {
    map a | a in apps :: if apps[a].opportunity == opportunity && apps[a].status == Pending && a != winner
                         then apps[a].(status := Rejected) else apps[a]
  }

  function Step(s: State, a: Action): State {
    if !Permitted(s, a) then s
    else
      match a
      case Post(id, project) => s.(opportunities := s.opportunities[id := Opportunity(project, Open)])
      case Apply(id, opportunity, _, user) =>
        s.(applications := s.applications[id := Application(opportunity, user, Pending)])
      case Decide(id, _, accept) =>
        var opportunity := s.applications[id].opportunity;
        if accept then
          State(s.opportunities[opportunity := s.opportunities[opportunity].(status := Filled)],
                OthersRejected(s.applications[id := s.applications[id].(status := Accepted)], id, opportunity))
        else s.(applications := s.applications[id := s.applications[id].(status := Rejected)])
      case Edit(id, _, status, _) =>
        if status.Some? then s.(opportunities := s.opportunities[id := s.opportunities[id].(status := status.value)]) else s
      case Remove(id, _) =>
        State(s.opportunities - {id}, map x | x in s.applications && s.applications[x].opportunity != id :: s.applications[x])
  }

  function Run(s: State, acts: seq<Action>): State {
    if acts == [] then s else Step(Run(s, acts[..|acts| - 1]), acts[|acts| - 1])
  }

  predicate Accepts(s: State, id: nat) {
    id in s.applications && s.applications[id].status == Accepted
  }

  /** An opportunity with a winner is filled, has no other winner, and nothing pending. */
  ghost predicate Inv(s: State) {
    && (forall a :: a in s.applications ==> s.applications[a].opportunity in s.opportunities)
    && (forall w :: Accepts(s, w) ==> s.opportunities[s.applications[w].opportunity].status == Filled)
    && (forall w, a ::
          (Accepts(s, w) && a in s.applications && a != w && s.applications[a].opportunity == s.applications[w].opportunity)
          ==> s.applications[a].status == Rejected)
  }

  lemma AcceptingKeepsInv(s: State, a: Action)
    requires Inv(s) && Permitted(s, a) && a.Decide? && a.accept
    ensures Inv(Step(s, a))
  {
  }

  lemma RemovingKeepsInv(s: State, a: Action)
    requires Inv(s) && Permitted(s, a) && a.Remove?
    ensures Inv(Step(s, a))
  {
  }

  lemma StepKeepsInv(s: State, a: Action)
    requires Inv(s)
    ensures Inv(Step(s, a))
  {
    if Permitted(s, a) {
      if a.Decide? && a.accept {
        AcceptingKeepsInv(s, a);
      } else if a.Remove? {
        RemovingKeepsInv(s, a);
      }
    }
  }

  /** At most one application is ever accepted per opportunity: in every run, over every edit. */
  lemma {:induction false} AtMostOneWinner(acts: seq<Action>)
    ensures Inv(Run(EMPTY, acts))
  {
    if acts != [] {
      AtMostOneWinner(acts[..|acts| - 1]);
      StepKeepsInv(Run(EMPTY, acts[..|acts| - 1]), acts[|acts| - 1]);
    }
  }

  /** And the winner is final: while the opportunity exists the application stays accepted, and no other becomes so. */
  lemma {:induction false} WinnerIsFinal(s: State, acts: seq<Action>, winner: nat, other: nat)
    requires Inv(s) && Accepts(s, winner) && other != winner
    requires var o := s.applications[winner].opportunity;
             forall k :: 0 <= k < |acts| ==> !(acts[k].Remove? && acts[k].id == o)
    ensures var t, o := Run(s, acts), s.applications[winner].opportunity;
            && Inv(t) && winner in t.applications && t.applications[winner] == s.applications[winner]
            && (Accepts(t, other) ==> t.applications[other].opportunity != o)
  {
    if acts != [] {
      var front := acts[..|acts| - 1];
      WinnerIsFinal(s, front, winner, other);
      StepKeepsInv(Run(s, front), acts[|acts| - 1]);
    }
  }

  // ---------------------------------------------------------------- the services

  class ConnectService {
    var opportunities: map<nat, Opportunity>
    var applications: map<nat, Application>

    constructor ()
      ensures View() == EMPTY
    {
      opportunities, applications := map[], map[];
    }

    ghost function View(): State
      reads this
    {
      State(opportunities, applications)
    }

    method ApplyTo(id: nat, opportunity: nat, profile: string, user: string) returns (ok: bool)
      requires id !in applications
      modifies this`applications
      ensures ok <==> Permitted(old(View()), Apply(id, opportunity, profile, user))
      ensures View() == Step(old(View()), Apply(id, opportunity, profile, user))
    {
      if opportunity !in opportunities || opportunities[opportunity].project == profile
         || opportunities[opportunity].status != Open {
        return false;
      }
      // The unique index on (opportunity, builder) refuses a second application.
      if exists a :: a in applications && applications[a].opportunity == opportunity && applications[a].builder == user {
        return false;
      }
      applications := applications[id := Application(opportunity, user, Pending)];
      return true;
    }

    /** Accepting writes the application, then the opportunity, then the other applications. */
    method UpdateStatus(id: nat, caller: string, accept: bool) returns (ok: bool)
      modifies this
      ensures ok <==> Permitted(old(View()), Decide(id, caller, accept))
      ensures View() == Step(old(View()), Decide(id, caller, accept))
    {
      if id !in applications {
        return false;
      }
      var existing := applications[id];
      if existing.opportunity !in opportunities || opportunities[existing.opportunity].project != caller {
        return false;
      }
      if existing.status != Pending {
        return false;
      }
      applications := applications[id := existing.(status := if accept then Accepted else Rejected)];
      if accept {
        opportunities := opportunities[existing.opportunity := opportunities[existing.opportunity].(status := Filled)];
        applications := OthersRejected(applications, id, existing.opportunity);
      }
      return true;
    }

    method UpdateOpportunity(id: nat, caller: string, status: Option<OpportunityStatus>, editsFields: bool) returns (ok: bool)
      modifies this`opportunities
      ensures ok <==> Permitted(old(View()), Edit(id, caller, status, editsFields))
      ensures ok <==> && id in old(opportunities) && old(opportunities)[id].project == caller
                      && (status.Some? || editsFields ==> old(opportunities)[id].status == Open)
                      && (status.Some? ==> status.value in {Closed, Filled})
      ensures View() == Step(old(View()), Edit(id, caller, status, editsFields))
    {
      if id !in opportunities || opportunities[id].project != caller {
        return false;
      }
      if status.Some? && !IsAllowedStatusTransition(opportunities[id].status, status.value) {
        return false;
      }
      if editsFields && opportunities[id].status != Open {
        return false;
      }
      if status.Some? {
        opportunities := opportunities[id := opportunities[id].(status := status.value)];
      }
      return true;
    }

    method RemoveOpportunity(id: nat, caller: string) returns (ok: bool)
      modifies this
      ensures ok <==> Permitted(old(View()), Remove(id, caller))
      ensures View() == Step(old(View()), Remove(id, caller))
    {
      if id !in opportunities || opportunities[id].project != caller {
        return false;
      }
      opportunities := opportunities - {id};
      applications := map x | x in applications && applications[x].opportunity != id :: applications[x];
      return true;
    }
  }
}
