/** Who takes part in an agreement, and how a sync pull adds the parties of its escrow. */
module Participants {
  import opened Prelude

  datatype Participant = Participant(wallet: string, role: string)

  /** The parties an escrow names; an empty string names nobody. */
  datatype Parties = Parties(sender: string, receiver: string, approver: string)

  /** The text existing participants are remembered by. */
  function Key(wallet: string, role: string): string {
    wallet + ":" + role
  }

  predicate Listed(ps: seq<Participant>, wallet: string, role: string) {
    exists i :: 0 <= i < |ps| && Key(ps[i].wallet, ps[i].role) == Key(wallet, role)
  }

  function Missing(ps: seq<Participant>, wallet: string, role: string): seq<Participant> {
    if wallet != "" && !Listed(ps, wallet, role) then [Participant(wallet, role)] else []
  }

  /** The participants with each party that was not listed yet. */
  function Joined(ps: seq<Participant>, parties: Parties): seq<Participant> {
    ps + (Missing(ps, parties.sender, "sender") + Missing(ps, parties.receiver, "receiver")
          + Missing(ps, parties.approver, "approver"))
  }

  method SyncParticipants(ps: seq<Participant>, parties: Parties) returns (out: seq<Participant>)
    ensures out == Joined(ps, parties)
  {
    var existing := {};
    for i := 0 to |ps|
      invariant existing == set k | 0 <= k < i :: Key(ps[k].wallet, ps[k].role)
    {
      existing := existing + {Key(ps[i].wallet, ps[i].role)};
    }
    var toInsert := [];
    if parties.sender != "" && Key(parties.sender, "sender") !in existing {
      toInsert := toInsert + [Participant(parties.sender, "sender")];
    }
    if parties.receiver != "" && Key(parties.receiver, "receiver") !in existing {
      toInsert := toInsert + [Participant(parties.receiver, "receiver")];
    }
    if parties.approver != "" && Key(parties.approver, "approver") !in existing {
      toInsert := toInsert + [Participant(parties.approver, "approver")];
    }
    if toInsert == [] {
      return ps;
    }
    return ps + toInsert;
  }

  predicate AllListed(ps: seq<Participant>, parties: Parties) {
    && (parties.sender != "" ==> Listed(ps, parties.sender, "sender"))
    && (parties.receiver != "" ==> Listed(ps, parties.receiver, "receiver"))
    && (parties.approver != "" ==> Listed(ps, parties.approver, "approver"))
  }

  lemma MoreKeepListed(ps: seq<Participant>, more: seq<Participant>, wallet: string, role: string)
    ensures Listed(ps + more, wallet, role) <==> Listed(ps, wallet, role) || Listed(more, wallet, role)
  {
    var all := ps + more;
    if Listed(ps, wallet, role) {
      var i :| 0 <= i < |ps| && Key(ps[i].wallet, ps[i].role) == Key(wallet, role);
      assert all[i] == ps[i];
    }
    if Listed(more, wallet, role) {
      var i :| 0 <= i < |more| && Key(more[i].wallet, more[i].role) == Key(wallet, role);
      assert all[|ps| + i] == more[i];
    }
  }

  lemma MissingIsListed(ps: seq<Participant>, wallet: string, role: string)
    requires wallet != ""
    ensures Listed(ps, wallet, role) || Listed(Missing(ps, wallet, role), wallet, role)
  {
    if !Listed(ps, wallet, role) {
      assert Missing(ps, wallet, role)[0] == Participant(wallet, role);
    }
  }

  /** Nobody is lost, every party the escrow names is there afterwards, and joining again adds nobody. */
  lemma JoiningSettles(ps: seq<Participant>, parties: Parties)
    ensures var out := Joined(ps, parties);
            && ps <= out && |out| <= |ps| + 3
            && AllListed(out, parties)
            && Joined(out, parties) == out
  {
    var a := Missing(ps, parties.sender, "sender");
    var b := Missing(ps, parties.receiver, "receiver");
    var c := Missing(ps, parties.approver, "approver");
    PartyIsListed(ps, a, b, c, a, parties.sender, "sender");
    PartyIsListed(ps, a, b, c, b, parties.receiver, "receiver");
    PartyIsListed(ps, a, b, c, c, parties.approver, "approver");
  }

  lemma PartyIsListed(ps: seq<Participant>, a: seq<Participant>, b: seq<Participant>, c: seq<Participant>,
                      own: seq<Participant>, wallet: string, role: string)
    requires own == Missing(ps, wallet, role) && (own == a || own == b || own == c)
    ensures wallet != "" ==> Listed(ps + (a + b + c), wallet, role)
  {
    if wallet != "" {
      MissingIsListed(ps, wallet, role);
      MoreKeepListed(a, b, wallet, role);
      MoreKeepListed(a + b, c, wallet, role);
      MoreKeepListed(ps, a + b + c, wallet, role);
    }
  }

  lemma {:induction false} KeyIsExact(w1: string, r1: string, w2: string, r2: string)
    requires ':' !in w1 && ':' !in w2
    ensures Key(w1, r1) == Key(w2, r2) <==> w1 == w2 && r1 == r2
  {
    if w1 != "" && w2 != "" {
      KeyIsExact(w1[1..], r1, w2[1..], r2);
      assert Key(w1, r1)[1..] == Key(w1[1..], r1) && Key(w2, r2)[1..] == Key(w2[1..], r2);
      assert Key(w1, r1) == [w1[0]] + Key(w1[1..], r1) && Key(w2, r2) == [w2[0]] + Key(w2[1..], r2);
    } else if Key(w1, r1) == Key(w2, r2) {
      assert Key(w1, r1)[0] == Key(w2, r2)[0];
      assert w1 == w2 == "";
      assert Key(w1, r1)[1..] == r1 && Key(w2, r2)[1..] == r2;
    }
  }

  /** As wallets hold no colon, the text key tells participants apart: somebody is listed exactly when in the table with that role. */
  lemma ListedIsMember(ps: seq<Participant>, wallet: string, role: string)
    requires ':' !in wallet && forall p :: p in ps ==> ':' !in p.wallet
    ensures Listed(ps, wallet, role) <==> Participant(wallet, role) in ps
  {
    forall i | 0 <= i < |ps| ensures Key(ps[i].wallet, ps[i].role) == Key(wallet, role) <==> ps[i] == Participant(wallet, role) {
      assert ps[i] in ps;
      KeyIsExact(ps[i].wallet, ps[i].role, wallet, role);
    }
  }
}
