/** The primary flag of a user's wallets. */
module Wallets {
  import opened Prelude

  datatype Wallet = Wallet(user: string, address: string, custodial: bool, primary: bool)

  type Table = map<nat, Wallet>

  datatype Action =
    | Link(id: nat, user: string, address: string, custodial: bool)
    | Update(id: nat, user: string, primary: Option<bool>)
    | Unlink(id: nat, user: string, heir: nat)   // heir: the row the database returns first, if any is left

  predicate IsLinked(t: Table, user: string, address: string) {
    exists i :: i in t && t[i].user == user && t[i].address == address
  }

  function WalletsOf(t: Table, user: string): set<nat> {
    set i | i in t && t[i].user == user
  }

  predicate Owned(t: Table, id: nat, user: string) {
    id in t && t[id].user == user
  }

  /** What the database guarantees of the ids it hands out. */
  predicate Possible(t: Table, a: Action) {
    match a
    case Link(id, _, _, _) => id !in t
    case Update(_, _, _) => true
    case Unlink(id, user, heir) =>
      Owned(t, id, user) && WalletsOf(t, user) - {id} != {} ==> heir in WalletsOf(t, user) - {id}
  }

  function OnlyPrimary(t: Table, id: nat, user: string): (r: Table)
    ensures r.Keys == t.Keys
    ensures forall i :: i in t ==> r[i] == if t[i].user == user && i != id then t[i].(primary := false) else t[i]
  {
    map i | i in t :: if t[i].user == user && i != id then t[i].(primary := false) else t[i]
  }

  function Step(t: Table, a: Action): Table
    requires Possible(t, a)
  {
    match a
    case Link(id, user, address, custodial) =>
      if IsLinked(t, user, address) then t
      else t[id := Wallet(user, address, custodial, WalletsOf(t, user) == {})]
    case Update(id, user, primary) =>
      if !Owned(t, id, user) || primary.None? then t
      else if primary.value then OnlyPrimary(t, id, user)[id := t[id].(primary := true)]
      else t[id := t[id].(primary := false)]
    case Unlink(id, user, heir) =>
      if !Owned(t, id, user) || t[id].custodial then t
      else if t[id].primary && heir in t && heir != id && t[heir].user == user then
        (t - {id})[heir := t[heir].(primary := true)]
      else t - {id}
  }

  predicate IsRun(acts: seq<Action>)
    decreases |acts|, 0
  {
    acts == [] || (IsRun(acts[..|acts| - 1]) && Possible(After(acts[..|acts| - 1]), acts[|acts| - 1]))
  }

  function After(acts: seq<Action>): Table
    requires IsRun(acts)
    decreases |acts|, 1
  {
    if acts == [] then map[] else Step(After(acts[..|acts| - 1]), acts[|acts| - 1])
  }

  function PrimariesOf(t: Table, user: string): set<nat> {
    set i | i in t && t[i].user == user && t[i].primary
  }

  /** The flags of one user after a step, told without the table. */
  lemma StepWallets(t: Table, a: Action, user: string)
    requires Possible(t, a)
    ensures WalletsOf(Step(t, a), user) ==
              if a.user != user then WalletsOf(t, user)
              else match a
                case Link(id, _, address, _) => WalletsOf(t, user) + if IsLinked(t, user, address) then {} else {id}
                case Update(_, _, _) => WalletsOf(t, user)
                case Unlink(id, _, _) => WalletsOf(t, user) - if Owned(t, id, user) && !t[id].custodial then {id} else {}
  {
  }

  lemma LinkPrimaries(t: Table, a: Action, user: string)
    requires Possible(t, a) && a.Link?
    ensures PrimariesOf(Step(t, a), user) ==
              PrimariesOf(t, user)
              + if a.user == user && !IsLinked(t, user, a.address) && WalletsOf(t, user) == {} then {a.id} else {}
  {
  }

  lemma UpdatePrimaries(t: Table, a: Action, user: string)
    requires Possible(t, a) && a.Update?
    ensures PrimariesOf(Step(t, a), user) ==
              if a.user != user || !Owned(t, a.id, user) || a.primary.None? then PrimariesOf(t, user)
              else if a.primary.value then {a.id}
              else PrimariesOf(t, user) - {a.id}
  {
  }

  lemma UnlinkPrimaries(t: Table, a: Action, user: string)
    requires Possible(t, a) && a.Unlink?
    ensures var removed := a.user == user && Owned(t, a.id, user) && !t[a.id].custodial;
            PrimariesOf(Step(t, a), user) ==
              if !removed then PrimariesOf(t, user)
              else PrimariesOf(t, user) - {a.id}
                   + if t[a.id].primary && WalletsOf(t, user) != {a.id} then {a.heir} else {}
  {
  }

  /** Whether the user's last word was to un-set the primary wallet. */
  predicate Lapsed(acts: seq<Action>, user: string)
    requires IsRun(acts)
  {
    if acts == [] then false
    else
      var front, a := acts[..|acts| - 1], acts[|acts| - 1];
      var t := After(front);
      match a
      case Link(_, u, _, _) => Lapsed(front, user) && !(u == user && WalletsOf(t, user) == {})
      case Update(id, u, Some(true)) => Lapsed(front, user) && !(u == user && Owned(t, id, u))
      case Update(id, u, Some(false)) => Lapsed(front, user) || (u == user && Owned(t, id, u) && t[id].primary)
      case _ => Lapsed(front, user)
  }

  ghost predicate AtMostOne(s: set<nat>) {
    forall i, j :: i in s && j in s ==> i == j
  }

  /**
   * In every serial run no user has two primary wallets, and a user with wallets
   * has one exactly when the primary one was not un-set since.
   */
  lemma {:induction false} PrimaryOverRuns(acts: seq<Action>, user: string)
    requires IsRun(acts)
    ensures var t := After(acts);
            && AtMostOne(PrimariesOf(t, user))
            && (WalletsOf(t, user) != {} ==> (PrimariesOf(t, user) != {} <==> !Lapsed(acts, user)))
  {
    if acts != [] {
      var front, a := acts[..|acts| - 1], acts[|acts| - 1];
      var t := After(front);
      PrimaryOverRuns(front, user);
      StepWallets(t, a, user);
      NoWalletNoPrimary(t, user);
      match a
      case Link(_, _, address, _) =>
        LinkPrimaries(t, a, user);
        if IsLinked(t, user, address) {
          LinkedHasWallet(t, user, address);
        }
      case Update(id, _, _) =>
        UpdatePrimaries(t, a, user);
        assert id in PrimariesOf(t, user) ==> PrimariesOf(t, user) == {id};
      case Unlink(id, _, _) =>
        UnlinkPrimaries(t, a, user);
        assert id in PrimariesOf(t, user) ==> PrimariesOf(t, user) == {id};
        assert Owned(t, id, user) && t[id].primary ==> id in PrimariesOf(t, user);
    }
  }

  lemma NoWalletNoPrimary(t: Table, user: string)
    ensures PrimariesOf(t, user) <= WalletsOf(t, user)
  {
  }

  lemma LinkedHasWallet(t: Table, user: string, address: string)
    requires IsLinked(t, user, address)
    ensures WalletsOf(t, user) != {}
  {
    var i :| i in t && t[i].user == user && t[i].address == address;
    assert i in WalletsOf(t, user);
  }

  /** Without such updates a user with wallets always has exactly one primary. */
  lemma {:induction false} ExactlyOnePrimary(acts: seq<Action>, user: string)
    requires IsRun(acts) && forall k :: 0 <= k < |acts| && acts[k].Update? ==> acts[k].primary != Some(false)
    ensures !Lapsed(acts, user)
    ensures WalletsOf(After(acts), user) != {} ==> |PrimariesOf(After(acts), user)| == 1
  {
    if acts != [] {
      ExactlyOnePrimary(acts[..|acts| - 1], user);
    }
    PrimaryOverRuns(acts, user);
    var primaries := PrimariesOf(After(acts), user);
    if primaries != {} {
      var i :| i in primaries;
      assert primaries == {i};
    }
  }

  // ---------------------------------------------------------------- the service

  /** The database's partial unique index: one primary row per user, after every statement. */
  ghost predicate PrimaryIndex(t: Table) {
    forall i, j :: i in t && j in t && i != j && t[i].primary && t[j].primary ==> t[i].user != t[j].user
  }

  datatype LinkError = NotProven | InsertFailed(message: string)

  class WalletsService {
    var wallets: Table

    constructor ()
      ensures wallets == map[]
    {
      wallets := map[];
    }

    /** `proven`: the ownership proof the wallet type calls for is good. `failure`: the error of the insert, if it has one. */
    method LinkWallet(id: nat, user: string, address: string, custodial: bool, proven: bool, failure: Option<string>)
        returns (r: Result<nat, LinkError>)
      requires PrimaryIndex(wallets) && id !in wallets
      modifies this
      ensures r.Ok? <==> IsLinked(old(wallets), user, address) || (proven && failure.None?)
      ensures r.Ok? ==> Owned(wallets, r.value, user) && wallets[r.value].address == address
      ensures r.Ok? && !IsLinked(old(wallets), user, address) ==>
                (wallets[r.value].primary <==> forall i :: i in old(wallets) ==> old(wallets)[i].user != user)
      ensures r.Err? ==> r.error == if proven then InsertFailed(failure.value) else NotProven
      ensures wallets == if r.Ok? then Step(old(wallets), Link(id, user, address, custodial)) else old(wallets)
      ensures PrimaryIndex(wallets)
    {
      var existing := set i | i in wallets && wallets[i].user == user && wallets[i].address == address;
      if existing != {} {
        var i :| i in existing;
        return Ok(i);
      }
      assert forall i :: i in wallets && wallets[i].user == user && wallets[i].address == address ==> i in existing;
      var isPrimary := |WalletsOf(wallets, user)| == 0;
      if !proven {
        return Err(NotProven);
      }
      if failure.Some? {
        return Err(InsertFailed(failure.value));
      }
      assert forall i :: i in wallets && wallets[i].user == user ==> i in WalletsOf(wallets, user);
      wallets := wallets[id := Wallet(user, address, custodial, isPrimary)];
      return Ok(id);
    }

    /** The other primaries are cleared first, so that the index holds between the two writes. */
    method UpdateWallet(id: nat, user: string, primary: Option<bool>) returns (ok: bool)
      requires PrimaryIndex(wallets)
      modifies this
      ensures ok <==> Owned(old(wallets), id, user)
      ensures wallets == Step(old(wallets), Update(id, user, primary))
      ensures ok && primary == Some(true) ==> forall i :: i in wallets && wallets[i].user == user ==> (wallets[i].primary <==> i == id)
      ensures PrimaryIndex(wallets)
    {
      if id !in wallets || wallets[id].user != user {
        return false;
      }
      if primary == Some(true) {
        wallets := OnlyPrimary(wallets, id, user);
        assert PrimaryIndex(wallets);
      }
      if primary.Some? {
        wallets := wallets[id := wallets[id].(primary := primary.value)];
      }
      return true;
    }

    method UnlinkWallet(id: nat, user: string, heir: nat) returns (ok: bool)
      requires PrimaryIndex(wallets) && Possible(wallets, Unlink(id, user, heir))
      modifies this
      ensures ok <==> Owned(old(wallets), id, user) && !old(wallets)[id].custodial
      ensures wallets == Step(old(wallets), Unlink(id, user, heir))
      ensures PrimaryIndex(wallets)
    {
      if id !in wallets || wallets[id].user != user || wallets[id].custodial {
        return false;
      }
      var wallet := wallets[id];
      wallets := wallets - {id};
      assert PrimaryIndex(wallets);
      if wallet.primary {
        if heir in wallets && wallets[heir].user == user {
          wallets := wallets[heir := wallets[heir].(primary := true)];
        }
      }
      return true;
    }
  }
}
