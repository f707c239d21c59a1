/** Aggregation of a subject's provider records into one compliance status. */
module Verification {
  import opened Prelude

  datatype Level = NoLevel | Basic | Standard | Advanced

  datatype Status = Unverified | Pending | Verified | Expired | Rejected

  datatype Row = Row(provider: Option<string>, status: Status, level: Level, expiresAt: Option<int>, updatedAt: Option<int>)

  datatype Response = Response(
    isVerified: bool, status: Status, level: Level, provider: Option<string>,
    expiresAt: Option<int>, lastUpdated: Option<int>)

  const NOT_VERIFIED: Response := Response(false, Unverified, NoLevel, None, None, None)

  function LevelRank(l: Level): nat {
    match l
    case NoLevel => 0
    case Basic => 1
    case Standard => 2
    case Advanced => 3
  }

  predicate HasExpired(r: Row, now: int) {
    r.expiresAt.Some? && r.expiresAt.value <= now
  }

  predicate IsValid(r: Row, now: int) {
    r.status == Verified && !HasExpired(r, now)
  }

  /** A missing time sorts before every time. */
  predicate Earlier(a: Option<int>, b: Option<int>) {
    b.Some? && (a.None? || a.value < b.value)
  }

  /** The sort puts `a` strictly before `b`: higher level, then more recently updated. */
  predicate Better(a: Row, b: Row) {
    LevelRank(a.level) > LevelRank(b.level)
    || (a.level == b.level && Earlier(b.updatedAt, a.updatedAt))
  }

  function ValidRows(rows: seq<Row>, now: int): (r: seq<Row>)
    ensures forall x :: x in r <==> x in rows && IsValid(x, now)
  {
    if rows == [] then []
    else
      var rest := ValidRows(rows[1..], now);
      if IsValid(rows[0], now) then [rows[0]] + rest else rest
  }

  function Insert(x: Row, sorted: seq<Row>): (r: seq<Row>)
    ensures multiset(r) == multiset(sorted) + multiset{x}
  {
    if sorted == [] || !Better(sorted[0], x) then [x] + sorted
    else
      assert sorted == [sorted[0]] + sorted[1..];
      [sorted[0]] + Insert(x, sorted[1..])
  }

  /** A stable sort, best first. */
  function SortBest(rows: seq<Row>): (r: seq<Row>)
    ensures multiset(r) == multiset(rows)
  {
    if rows == [] then []
    else
      assert rows == [rows[0]] + rows[1..];
      Insert(rows[0], SortBest(rows[1..]))
  }

  function SortTimes(times: seq<int>): (r: seq<int>)
    ensures multiset(r) == multiset(times) && Ascending(r)
  {
    if times == [] then []
    else
      assert times == times[..|times| - 1] + [times[|times| - 1]];
      InsertTime(times[|times| - 1], SortTimes(times[..|times| - 1]))
  }

  predicate AtMost(s: seq<int>, bound: int) {
    forall i :: 0 <= i < |s| ==> s[i] <= bound
  }

  /** Every element is a bound for those before it. */
  predicate Ascending(s: seq<int>) {
    forall j :: 0 <= j < |s| ==> AtMost(s[..j], s[j])
  }

  function InsertTime(t: int, sorted: seq<int>): (r: seq<int>)
    requires Ascending(sorted)
    ensures multiset(r) == multiset(sorted) + multiset{t}
    ensures Ascending(r) && forall bound :: AtMost(r, bound) <==> AtMost(sorted, bound) && t <= bound
  {
    if sorted == [] || sorted[|sorted| - 1] <= t then
      InsertAtEnd(sorted, t);
      sorted + [t]
    else
      var n := |sorted| - 1;
      assert sorted == sorted[..n] + [sorted[n]];
      AscendingFront(sorted);
      var rest := InsertTime(t, sorted[..n]);
      InsertAtEnd(rest, sorted[n]);
      rest + [sorted[n]]
  }

  lemma AscendingFront(s: seq<int>)
    requires s != [] && Ascending(s)
    ensures Ascending(s[..|s| - 1]) && AtMost(s[..|s| - 1], s[|s| - 1])
    ensures forall bound :: AtMost(s, bound) <==> s[|s| - 1] <= bound
  {
  }

  lemma InsertAtEnd(s: seq<int>, t: int)
    requires Ascending(s) && (s != [] ==> AtMost(s, t) || s[|s| - 1] <= t)
    ensures Ascending(s + [t])
    ensures forall bound :: AtMost(s + [t], bound) <==> AtMost(s, bound) && t <= bound
  {
    if s != [] {
      AscendingFront(s);
    }
    var r := s + [t];
    forall j | 0 <= j < |r| ensures AtMost(r[..j], r[j]) {
      assert r[..j] == s[..j];
      assert s[..|s|] == s;
    }
    forall bound ensures AtMost(r, bound) <==> AtMost(s, bound) && t <= bound {
      if AtMost(r, bound) {
        assert forall i :: 0 <= i < |s| ==> s[i] == r[i];
        assert r[|s|] == t;
      }
    }
  }

  function UpdateTimes(rows: seq<Row>): (r: seq<int>)
    ensures forall t :: t in r <==> exists x :: x in rows && x.updatedAt == Some(t)
  {
    if rows == [] then []
    else
      var rest := UpdateTimes(rows[1..]);
      assert forall x :: x in rows <==> x == rows[0] || x in rows[1..];
      if rows[0].updatedAt.Some? then [rows[0].updatedAt.value] + rest else rest
  }

  function LastUpdated(rows: seq<Row>): Option<int> {
    var times := SortTimes(UpdateTimes(rows));
    if times == [] then None else Some(times[|times| - 1])
  }

  predicate Has(rows: seq<Row>, s: Status) {
    exists r :: r in rows && r.status == s
  }

  function EffectiveUnverifiedStatus(rows: seq<Row>, now: int): Status {
    if Has(rows, Pending) then Pending
    else if Has(rows, Expired) || exists r :: r in rows && r.status == Verified && HasExpired(r, now) then Expired
    else if Has(rows, Rejected) then Rejected
    else Unverified
  }

  function Aggregate(rows: seq<Row>, now: int): Response {
    if rows == [] then NOT_VERIFIED
    else
      var valid := SortBest(ValidRows(rows, now));
      if valid != [] then
        Response(true, Verified, valid[0].level, valid[0].provider, valid[0].expiresAt, LastUpdated(rows))
      else
        Response(false, EffectiveUnverifiedStatus(rows, now), NoLevel, None, None, LastUpdated(rows))
  }

  // ---------------------------------------------------------------- the sort is an argmax

  /** `k` is the earliest of the best rows. */
  ghost predicate IsBestAt(rows: seq<Row>, k: nat) {
    && k < |rows|
    && (forall i :: 0 <= i < |rows| ==> !Better(rows[i], rows[k]))
    && (forall i :: 0 <= i < k ==> Better(rows[k], rows[i]))
  }

  lemma {:induction false} SortPicksBest(rows: seq<Row>) returns (k: nat)
    requires rows != []
    ensures IsBestAt(rows, k) && SortBest(rows)[0] == rows[k]
  {
    var rest := rows[1..];
    assert rows == [rows[0]] + rest;
    if rest == [] {
      k := 0;
    } else {
      var j := SortPicksBest(rest);
      k := BestOfMore(rows[0], rest, j);
      InsertHead(rows[0], SortBest(rest));
    }
  }

  lemma InsertHead(x: Row, sorted: seq<Row>)
    requires sorted != []
    ensures Insert(x, sorted)[0] == if Better(sorted[0], x) then sorted[0] else x
  {
  }

  lemma BestOfMore(x: Row, rest: seq<Row>, j: nat) returns (k: nat)
    requires IsBestAt(rest, j)
    ensures IsBestAt([x] + rest, k) && k == if Better(rest[j], x) then j + 1 else 0
  {
    k := if Better(rest[j], x) then j + 1 else 0;
    var rows := [x] + rest;
    assert forall i :: 1 <= i < |rows| ==> rows[i] == rest[i - 1];
  }

  /** Equal standing in the sort. */
  predicate Tied(a: Row, b: Row) {
    !Better(a, b) && !Better(b, a)
  }

  /** `best` is a valid row no valid row is better than. */
  ghost predicate IsBest(best: Row, rows: seq<Row>, now: int) {
    best in rows && IsValid(best, now) && forall r :: r in rows && IsValid(r, now) ==> !Better(r, best)
  }

  lemma BestOfValid(rows: seq<Row>, now: int) returns (best: Row)
    requires ValidRows(rows, now) != []
    ensures IsBest(best, rows, now) && SortBest(ValidRows(rows, now)) != [] && best == SortBest(ValidRows(rows, now))[0]
  {
    var valid := ValidRows(rows, now);
    var sorted := SortBest(valid);
    assert |multiset(sorted)| == |multiset(valid)|;
    var k := SortPicksBest(valid);
    best := sorted[0];
    assert valid[k] in valid;
    forall r | r in rows && IsValid(r, now) ensures !Better(r, best) {
      assert r in valid;
      var i :| 0 <= i < |valid| && valid[i] == r;
    }
  }

  /**
   * What the response says is the simple reading: verified exactly when some row
   * is valid, and then level, provider and expiry are those of a row no valid row
   * is better than.
   */
  lemma AggregateIsArgmax(rows: seq<Row>, now: int) returns (best: Row)
    ensures var a := Aggregate(rows, now);
            && (a.isVerified <==> exists r :: r in rows && IsValid(r, now))
            && (a.isVerified <==> a.status == Verified)
            && (!a.isVerified ==> a.level == NoLevel && a.provider == None && a.expiresAt == None)
            && (a.isVerified ==> IsBest(best, rows, now) && a.level == best.level
                                 && a.provider == best.provider && a.expiresAt == best.expiresAt)
  {
    var valid := ValidRows(rows, now);
    if valid == [] {
      best := Row(None, Unverified, NoLevel, None, None);
      forall r | r in rows ensures !IsValid(r, now) {
        assert r !in valid;
      }
      assert SortBest(valid) == [];
    } else {
      best := BestOfValid(rows, now);
    }
  }

  // ---------------------------------------------------------------- the verdict, named

  /** Verified and not past its expiry. */
  predicate Current(r: Row, now: int) {
    r.status == Verified && (r.expiresAt.None? || r.expiresAt.value > now)
  }

  ghost predicate SomeCurrent(rows: seq<Row>, level: Level, now: int) {
    exists r :: r in rows && Current(r, now) && r.level == level
  }

  /** The level is the highest any current record has, in the order none, basic, standard, advanced. */
  lemma LevelIsHighest(rows: seq<Row>, now: int)
    ensures var a := Aggregate(rows, now);
            && (a.isVerified <==> exists r :: r in rows && Current(r, now))
            && (a.level == Advanced <==> SomeCurrent(rows, Advanced, now))
            && (a.level == Standard <==> SomeCurrent(rows, Standard, now) && !SomeCurrent(rows, Advanced, now))
            && (a.level == Basic <==> && SomeCurrent(rows, Basic, now) && !SomeCurrent(rows, Standard, now)
                                      && !SomeCurrent(rows, Advanced, now))
  {
    var best := AggregateIsArgmax(rows, now);
    forall r | r in rows ensures IsValid(r, now) <==> Current(r, now) {
    }
    if Aggregate(rows, now).isVerified {
      assert SomeCurrent(rows, best.level, now);
    }
  }

  /** Among the current records of that level, the one chosen was updated last; provider and expiry are its own. */
  lemma NewestOfLevel(rows: seq<Row>, now: int) returns (best: Row)
    requires exists r :: r in rows && Current(r, now)
    ensures var a := Aggregate(rows, now);
            && best in rows && Current(best, now) && best.level == a.level
            && a.provider == best.provider && a.expiresAt == best.expiresAt
            && forall r :: r in rows && Current(r, now) && r.level == a.level && r.updatedAt.Some?
                           ==> best.updatedAt.Some? && best.updatedAt.value >= r.updatedAt.value
  {
    best := AggregateIsArgmax(rows, now);
    forall r | r in rows ensures IsValid(r, now) <==> Current(r, now) {
    }
  }

  /** Without a current record: pending wins, then expired or lapsed, then rejected. */
  lemma UnverifiedStatus(rows: seq<Row>, now: int)
    requires forall r :: r in rows ==> !Current(r, now)
    ensures var a := Aggregate(rows, now);
            && !a.isVerified && a.level == NoLevel
            && (a.status == Pending <==> exists r :: r in rows && r.status == Pending)
            && (a.status == Expired <==> && (forall r :: r in rows ==> r.status != Pending)
                                         && exists r :: r in rows && (r.status == Expired || r.status == Verified))
            && (a.status == Rejected <==> && (forall r :: r in rows ==> r.status !in {Pending, Expired, Verified})
                                          && exists r :: r in rows && r.status == Rejected)
            && a.status != Verified
  {
    LevelIsHighest(rows, now);
    VerdictForms(rows, now);
    forall r | r in rows ensures r.status == Verified ==> HasExpired(r, now) {
      assert !Current(r, now);
    }
    if Aggregate(rows, now).status == Expired && !Has(rows, Expired) {
      var r :| r in rows && r.status == Verified && HasExpired(r, now);
    }
  }

  // ---------------------------------------------------------------- order does not matter

  ghost predicate SameRows(a: seq<Row>, b: seq<Row>) {
    forall r :: r in a <==> r in b
  }

  lemma PermutationHasSameRows(a: seq<Row>, b: seq<Row>)
    requires multiset(a) == multiset(b)
    ensures SameRows(a, b)
  {
    forall r ensures r in a <==> r in b {
      assert r in a <==> r in multiset(a);
      assert r in b <==> r in multiset(b);
    }
  }

  ghost predicate IsLatest(t: Option<int>, rows: seq<Row>) {
    match t
    case None => forall r :: r in rows ==> r.updatedAt.None?
    case Some(time) => (exists r :: r in rows && r.updatedAt == t)
                       && forall r :: r in rows && r.updatedAt.Some? ==> r.updatedAt.value <= time
  }

  lemma LatestIsUnique(s: Option<int>, t: Option<int>, a: seq<Row>, b: seq<Row>)
    requires SameRows(a, b) && IsLatest(s, a) && IsLatest(t, b)
    ensures s == t
  {
  }

  lemma LastUpdatedIsLatest(rows: seq<Row>)
    ensures IsLatest(LastUpdated(rows), rows)
  {
    var times := UpdateTimes(rows);
    var sorted := SortTimes(times);
    SameElements(times, sorted);
    if sorted != [] {
      AscendingFront(sorted);
      var latest := sorted[|sorted| - 1];
      assert latest in times;
      forall r | r in rows && r.updatedAt.Some? ensures r.updatedAt.value <= latest {
        assert r.updatedAt == Some(r.updatedAt.value);
        var i :| 0 <= i < |sorted| && sorted[i] == r.updatedAt.value;
        assert AtMost(sorted, latest);
      }
    } else {
      assert forall t :: t !in times;
      assert forall r :: r in rows ==> r.updatedAt.None? || r.updatedAt == Some(r.updatedAt.value);
    }
  }

  lemma SameElements(a: seq<int>, b: seq<int>)
    requires multiset(a) == multiset(b)
    ensures forall t :: t in a <==> t in b
  {
    forall t ensures t in a <==> t in b {
      assert t in a <==> t in multiset(a);
      assert t in b <==> t in multiset(b);
    }
  }

  /** The verdict reads the records as a set. */
  lemma SameUnverifiedStatus(a: seq<Row>, b: seq<Row>, now: int)
    requires SameRows(a, b)
    ensures EffectiveUnverifiedStatus(a, now) == EffectiveUnverifiedStatus(b, now)
  {
  }

  lemma SameLastUpdated(a: seq<Row>, b: seq<Row>)
    requires SameRows(a, b)
    ensures LastUpdated(a) == LastUpdated(b)
  {
    LastUpdatedIsLatest(a);
    LastUpdatedIsLatest(b);
    LatestIsUnique(LastUpdated(a), LastUpdated(b), a, b);
  }

  lemma SameEmptiness(a: seq<Row>, b: seq<Row>)
    requires SameRows(a, b)
    ensures a == [] <==> b == []
  {
    if a != [] {
      SomeRowInBoth(a, b);
    }
    if b != [] {
      SomeRowInBoth(b, a);
    }
  }

  lemma SomeRowInBoth(a: seq<Row>, b: seq<Row>)
    requires SameRows(a, b) && a != []
    ensures b != []
  {
    assert a[0] in b;
  }

  /**
   * The verdict, the level and the last update depend only on which records there
   * are; provider and expiry too, unless distinct valid records tie for best.
   */
  lemma RepetitionIrrelevant(a: seq<Row>, b: seq<Row>, now: int)
    requires SameRows(a, b)
    ensures SameVerdict(a, b, now)
  {
    var p := AggregateIsArgmax(a, now);
    var q := AggregateIsArgmax(b, now);
    SameEmptiness(a, b);
    SameLastUpdated(a, b);
    SameUnverifiedStatus(a, b, now);
    VerdictForms(a, now);
    VerdictForms(b, now);
    if Aggregate(a, now).isVerified {
      assert Tied(p, q);
    }
  }

  ghost predicate SameVerdict(a: seq<Row>, b: seq<Row>, now: int) {
    var x, y := Aggregate(a, now), Aggregate(b, now);
    && x.isVerified == y.isVerified && x.status == y.status && x.level == y.level && x.lastUpdated == y.lastUpdated
    && ((forall p, q :: p in a && q in a && IsValid(p, now) && IsValid(q, now) && Tied(p, q) ==> p == q) ==> x == y)
  }

  /** In particular, their order does not matter. */
  lemma OrderIrrelevant(a: seq<Row>, b: seq<Row>, now: int)
    requires multiset(a) == multiset(b)
    ensures SameVerdict(a, b, now)
  {
    PermutationHasSameRows(a, b);
    RepetitionIrrelevant(a, b, now);
  }

  lemma VerdictForms(rows: seq<Row>, now: int)
    ensures var a := Aggregate(rows, now);
            && a.lastUpdated == (if rows == [] then None else LastUpdated(rows))
            && (!a.isVerified ==> a.status == if rows == [] then Unverified else EffectiveUnverifiedStatus(rows, now))
  {
  }

  // ---------------------------------------------------------------- monotonicity

  /** If every row valid in one reading is valid in the other, the other is verified and its level no lower. */
  lemma MoreValidNoLower(a: seq<Row>, now: int, b: seq<Row>, other: int)
    requires forall r :: r in a && IsValid(r, now) ==> r in b && IsValid(r, other)
    ensures var x, y := Aggregate(a, now), Aggregate(b, other);
            (x.isVerified ==> y.isVerified) && LevelRank(x.level) <= LevelRank(y.level)
  {
    var p := AggregateIsArgmax(a, now);
    var q := AggregateIsArgmax(b, other);
    if Aggregate(a, now).isVerified {
      assert !Better(p, q);
    }
  }

  /** Another record never un-verifies a subject or lowers its level. */
  lemma MoreRecordsNoLower(rows: seq<Row>, extra: Row, now: int)
    ensures var x, y := Aggregate(rows, now), Aggregate(rows + [extra], now);
            (x.isVerified ==> y.isVerified) && LevelRank(x.level) <= LevelRank(y.level)
  {
    MoreValidNoLower(rows, now, rows + [extra], now);
  }

  /** Time passing never verifies a subject or raises its level. */
  lemma TimeNoHigher(rows: seq<Row>, now: int, later: int)
    requires now <= later
    ensures var x, y := Aggregate(rows, now), Aggregate(rows, later);
            (y.isVerified ==> x.isVerified) && LevelRank(y.level) <= LevelRank(x.level)
  {
    MoreValidNoLower(rows, later, rows, now);
  }
}
