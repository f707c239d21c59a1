/**
 * Dispute payouts: percentages of an escrow turned into Stellar amounts.
 * Numbers are exact (reals for JavaScript numbers, integers for stroops).
 */
module Distributions {
  import opened Prelude

  const STROOPS_PER_UNIT: real := 10_000_000.0
  const TOLERANCE: real := 0.000000001

  /** A JavaScript number, as far as `Number.isFinite` can tell. */
  datatype Number = Finite(value: real) | NotFinite

  datatype EscrowKind = SingleRelease | MultiRelease

  datatype Allocation = Allocation(address: string, percentage: Number)

  datatype Distribution = Distribution(address: string, amount: real)

  datatype DistributionError =
    | NoAllocations
    | MissingAddress(index: nat)
    | NotANumber(index: nat)
    | OutOfRange(index: nat)
    | DuplicateAddress
    | BadTotal(total: real)
    | TotalNotFinite
    | NothingToDistribute
    | AllRoundedToZero
    | MissesBalance(sum: int)
    | ExceedsLimit(sum: int)

  // ---------------------------------------------------------------- units

  /** `Math.round` sends a half up. */
  function ToStroops(value: real): int {
    (value * STROOPS_PER_UNIT + 0.5).Floor
  }

  function FromStroops(stroops: int): real {
    stroops as real / STROOPS_PER_UNIT
  }

  lemma StroopsRoundTrip(stroops: int)
    ensures ToStroops(FromStroops(stroops)) == stroops
  {
  }

  // ---------------------------------------------------------------- input checks

  function Addresses(allocations: seq<Allocation>): (r: seq<string>)
    ensures |r| == |allocations|
    ensures forall i :: 0 <= i < |r| ==> r[i] == Trim(allocations[i].address)
  {
    seq(|allocations|, i requires 0 <= i < |allocations| => Trim(allocations[i].address))
  }

  function Percentages(allocations: seq<Allocation>): (r: seq<real>)
    requires forall a :: a in allocations ==> a.percentage.Finite?
    ensures |r| == |allocations|
    ensures forall i :: 0 <= i < |r| ==> r[i] == allocations[i].percentage.value
  {
    seq(|allocations|, i requires 0 <= i < |allocations| => allocations[i].percentage.value)
  }

  /** What the loop says about one allocation, in the order it asks. */
  function Fault(a: Allocation, index: nat): Option<DistributionError> {
    if Trim(a.address) == "" then Some(MissingAddress(index))
    else if a.percentage.NotFinite? then Some(NotANumber(index))
    else if a.percentage.value < 0.0 || a.percentage.value > 100.0 then Some(OutOfRange(index))
    else None
  }

  /** One complaint per allocation: a blank address first, then a percentage that is no number, then one out of range. */
  lemma FaultMeans(a: Allocation, index: nat)
    ensures Fault(a, index) == Some(MissingAddress(index)) <==> AllSpace(a.address)
    ensures Fault(a, index) == Some(NotANumber(index)) <==> !AllSpace(a.address) && a.percentage.NotFinite?
    ensures Fault(a, index) == Some(OutOfRange(index))
            <==> !AllSpace(a.address) && a.percentage.Finite? && !(0.0 <= a.percentage.value <= 100.0)
    ensures Fault(a, index) == None
            <==> !AllSpace(a.address) && a.percentage.Finite? && 0.0 <= a.percentage.value <= 100.0
  {
    var lead, tail := TrimDropsSpace(a.address);
  }

  predicate BlamesRequest(e: DistributionError) {
    e.NoAllocations? || e.MissingAddress? || e.NotANumber? || e.OutOfRange? || e.DuplicateAddress? || e.BadTotal?
  }

  predicate Faultless(allocations: seq<Allocation>) {
    forall i :: 0 <= i < |allocations| ==> Fault(allocations[i], i) == None
  }

  predicate Distinct<T(==)>(s: seq<T>) {
    forall i, j :: 0 <= i < j < |s| ==> s[i] != s[j]
  }

  /** The percentages a resolution may be split by: in range, and 100 in total give or take 1e-9. */
  ghost predicate Weights(ps: seq<real>) {
    && ps != []
    && (forall i :: 0 <= i < |ps| ==> 0.0 <= ps[i] <= 100.0)
    && -TOLERANCE <= RealSum(ps) - 100.0 <= TOLERANCE
  }

  /** The allocations a resolution may be built from. */
  ghost predicate Acceptable(allocations: seq<Allocation>) {
    && Faultless(allocations)
    && Distinct(Addresses(allocations))
    && Weights(Percentages(allocations))
  }

  /** In so many words: addresses not blank and different, percentages from 0 to 100 and 100 in total, give or take 1e-9. */
  lemma AcceptableMeans(allocations: seq<Allocation>)
    ensures Acceptable(allocations) <==>
              && allocations != []
              && (forall i :: 0 <= i < |allocations| ==> Trim(allocations[i].address) != "")
              && (forall a :: a in allocations ==> a.percentage.Finite? && 0.0 <= a.percentage.value <= 100.0)
              && (forall i, j :: 0 <= i < j < |allocations| ==> Trim(allocations[i].address) != Trim(allocations[j].address))
              && -0.000000001 <= RealSum(Percentages(allocations)) - 100.0 <= 0.000000001
  {
    if Faultless(allocations) {
      forall a | a in allocations ensures a.percentage.Finite? && 0.0 <= a.percentage.value <= 100.0 {
        var i :| 0 <= i < |allocations| && allocations[i] == a;
        assert Fault(allocations[i], i) == None;
      }
      forall i | 0 <= i < |allocations| ensures Trim(allocations[i].address) != "" {
        assert Fault(allocations[i], i) == None;
      }
    }
  }

  /** Elements as a set lose nothing exactly when they are pairwise distinct. */
  lemma {:induction false} SetSizeIsLengthIffDistinct<T>(s: seq<T>)
    ensures |set x | x in s| <= |s|
    ensures |set x | x in s| == |s| <==> Distinct(s)
  {
    if s != [] {
      var front, last := s[..|s| - 1], s[|s| - 1];
      var all, rest := set x | x in s, set x | x in front;
      SetSizeIsLengthIffDistinct(front);
      assert all == rest + {last};
      if last in front {
        assert all == rest;
        var i :| 0 <= i < |front| && front[i] == last;
        assert s[i] == s[|s| - 1];
      } else {
        assert last !in rest;
        assert Distinct(s) <==> Distinct(front);
      }
    }
  }

  /**
   * The first complaint about the allocations, if any. A complaint about one
   * allocation names the first allocation at fault.
   */
  method AssertAllocations(allocations: seq<Allocation>) returns (refusal: Option<DistributionError>)
    ensures refusal == None <==> Acceptable(allocations)
    ensures refusal == Some(NoAllocations) <==> allocations == []
    ensures forall i :: 0 <= i < |allocations| && Fault(allocations[i], i) != None && Faultless(allocations[..i])
                        ==> refusal == Fault(allocations[i], i)
    ensures refusal == Some(DuplicateAddress)
            <==> allocations != [] && Faultless(allocations) && !Distinct(Addresses(allocations))
    ensures refusal.Some? && refusal.value.BadTotal? ==> Faultless(allocations) && Distinct(Addresses(allocations))
    ensures refusal.Some? ==> BlamesRequest(refusal.value)
  {
    if allocations == [] {
      return Some(NoAllocations);
    }
    for i := 0 to |allocations|
      invariant forall k :: 0 <= k < i ==> Fault(allocations[k], k) == None
    {
      var fault := Fault(allocations[i], i);
      if fault.Some? {
        return fault;
      }
    }
    var addresses := Addresses(allocations);
    SetSizeIsLengthIffDistinct(addresses);
    if |set x | x in addresses| != |addresses| {
      return Some(DuplicateAddress);
    }
    var total := RealSum(Percentages(allocations));
    if total - 100.0 > TOLERANCE || 100.0 - total > TOLERANCE {
      return Some(BadTotal(total));
    }
    return None;
  }

  // ---------------------------------------------------------------- the split

  /** Each percentage of the total, before any rounding. */
  function ExactShares(total: int, ps: seq<real>): (r: seq<real>)
    ensures |r| == |ps|
    ensures forall i :: 0 <= i < |ps| ==> r[i] == total as real * ps[i] / 100.0
  {
    seq(|ps|, i requires 0 <= i < |ps| => total as real * ps[i] / 100.0)
  }

  function Floors(exact: seq<real>): (r: seq<int>)
    ensures |r| == |exact|
    ensures forall i :: 0 <= i < |exact| ==> r[i] == exact[i].Floor
  {
    seq(|exact|, i requires 0 <= i < |exact| => exact[i].Floor)
  }

  /** The earliest position of a largest share. */
  function Absorber(shares: seq<int>): (k: nat)
    requires shares != []
    ensures k < |shares|
    ensures forall i :: 0 <= i < |shares| ==> shares[i] <= shares[k]
    ensures forall i :: 0 <= i < k ==> shares[i] < shares[k]
  {
    if |shares| == 1 then 0
    else
      var k := Absorber(shares[..|shares| - 1]);
      if shares[|shares| - 1] > shares[k] then |shares| - 1 else k
  }

  /** What flooring leaves over. */
  function Remainder(total: int, exact: seq<real>): int {
    total - IntSum(Floors(exact))
  }

  /** The shares with whatever they miss of the total handed to the absorber. */
  function Absorbed(total: int, shares: seq<int>): (r: seq<int>)
    requires shares != []
    ensures |r| == |shares|
  {
    var k := Absorber(shares);
    shares[k := shares[k] + (total - IntSum(shares))]
  }

  function Split(total: int, exact: seq<real>): (r: seq<int>)
    requires exact != []
    ensures |r| == |exact|
  {
    Absorbed(total, Floors(exact))
  }

  method SplitStroops(total: int, ps: seq<real>) returns (shares: array<int>)
    requires ps != []
    ensures shares[..] == Split(total, ExactShares(total, ps))
  {
    shares := new int[|ps|](i requires 0 <= i < |ps| => (total as real * ps[i] / 100.0).Floor);
    assert shares[..] == Floors(ExactShares(total, ps));
    AbsorbRemainder(total, shares);
  }

  method AbsorbRemainder(total: int, shares: array<int>)
    requires shares.Length > 0
    modifies shares
    ensures shares[..] == Absorbed(total, old(shares[..]))
  {
    var remainder := total - IntSum(shares[..]);
    if remainder == 0 {
      return;
    }
    var largest := LargestShare(shares);
    shares[largest] := shares[largest] + remainder;
  }

  /** Ties go to the earliest allocation. */
  method LargestShare(shares: array<int>) returns (largest: nat)
    requires shares.Length > 0
    ensures largest == Absorber(shares[..])
  {
    largest := 0;
    for i := 1 to shares.Length
      invariant largest < i
      invariant largest == Absorber(shares[..i])
    {
      assert shares[..i + 1][..i] == shares[..i];
      if shares[i] > shares[largest] {
        largest := i;
      }
    }
    assert shares[..shares.Length] == shares[..];
  }

  // ---------------------------------------------------------------- arithmetic of the split

  lemma ExactSharesOfFront(total: int, ps: seq<real>)
    requires ps != []
    ensures ExactShares(total, ps)[..|ps| - 1] == ExactShares(total, ps[..|ps| - 1])
  {
    var front := ExactShares(total, ps[..|ps| - 1]);
    forall i | 0 <= i < |front| ensures ExactShares(total, ps)[i] == front[i] {
    }
  }

  lemma {:induction false} ExactSharesSum(total: int, ps: seq<real>)
    ensures RealSum(ExactShares(total, ps)) == total as real * RealSum(ps) / 100.0
  {
    if ps != [] {
      var front, last := ps[..|ps| - 1], ps[|ps| - 1];
      ExactSharesSum(total, front);
      ExactSharesOfFront(total, ps);
      ghost var t, a := total as real, RealSum(front);
      assert t * (a + last) == t * a + t * last;
    }
  }

  /** Flooring loses nothing or something under one stroop per share. */
  lemma {:induction false} FlooringLoss(exact: seq<real>)
    ensures IntSum(Floors(exact)) as real <= RealSum(exact)
    ensures exact != [] ==> RealSum(exact) < IntSum(Floors(exact)) as real + |exact| as real
  {
    if exact != [] {
      var front := exact[..|exact| - 1];
      FlooringLoss(front);
      assert Floors(exact)[..|exact| - 1] == Floors(front);
    }
  }

  lemma ProductNonNegative(a: real, b: real)
    requires a >= 0.0 && b >= 0.0
    ensures a * b >= 0.0
  {
  }

  /** A total t taken s percent of: the gap to t is t percent of the gap of s to 100. */
  lemma ScaledGap(t: real, s: real, x: real)
    requires t >= 0.0 && -TOLERANCE <= s - 100.0 <= TOLERANCE && x == t * s / 100.0
    ensures -t * TOLERANCE <= 100.0 * (x - t) <= t * TOLERANCE
    ensures s == 100.0 ==> x == t
  {
    var up, down := 100.0 + TOLERANCE - s, s - 100.0 + TOLERANCE;
    ProductNonNegative(t, up);
    ProductNonNegative(t, down);
    assert t * up == t * 100.0 + t * TOLERANCE - t * s;
    assert t * down == t * s - t * 100.0 + t * TOLERANCE;
  }

  lemma ExactSharesNonNegative(total: int, ps: seq<real>)
    requires total >= 0 && forall i :: 0 <= i < |ps| ==> 0.0 <= ps[i]
    ensures forall i :: 0 <= i < |ps| ==> ExactShares(total, ps)[i] >= 0.0
  {
    forall i | 0 <= i < |ps| ensures ExactShares(total, ps)[i] >= 0.0 {
      ProductNonNegative(total as real, ps[i]);
    }
  }

  /** How far the exact shares may be from the total: T * 1e-11. */
  function Slack(total: int): real {
    total as real / 100_000_000_000.0
  }

  /** Exact shares of a positive total: none negative, adding up to the total give or take the slack. */
  ghost predicate ExactSplit(total: int, exact: seq<real>) {
    && total > 0 && exact != []
    && (forall i :: 0 <= i < |exact| ==> exact[i] >= 0.0)
    && -Slack(total) <= RealSum(exact) - total as real <= Slack(total)
  }

  lemma WeightsGiveExactSplit(total: int, ps: seq<real>)
    requires total > 0 && Weights(ps)
    ensures ExactSplit(total, ExactShares(total, ps))
    ensures RealSum(ps) == 100.0 ==> RealSum(ExactShares(total, ps)) == total as real
  {
    ExactSharesSum(total, ps);
    ExactSharesNonNegative(total, ps);
    ScaledGap(total as real, RealSum(ps), RealSum(ExactShares(total, ps)));
  }

  /**
   * The remainder may be negative, because the percentages may total a hair over
   * 100: it lies in [-T * 1e-11, n + T * 1e-11).
   */
  lemma RemainderBounds(total: int, ps: seq<real>)
    requires total > 0 && Weights(ps)
    ensures var r := Remainder(total, ExactShares(total, ps));
            -Slack(total) <= r as real < |ps| as real + Slack(total)
  {
    WeightsGiveExactSplit(total, ps);
    FlooringLoss(ExactShares(total, ps));
  }

  /**
   * Conservation. However the percentages round, the shares add up to exactly the
   * total, none is negative, and the absorber's is positive. A JavaScript array
   * holds fewer than 2^32 elements, well under the bound the negative remainder needs.
   */
  lemma SplitConserves(total: int, ps: seq<real>)
    requires total > 0 && Weights(ps) && |ps| <= 100_000_000_000
    ensures var shares := Split(total, ExactShares(total, ps));
            && IntSum(shares) == total
            && (forall i :: 0 <= i < |shares| ==> shares[i] >= 0)
            && shares[Absorber(Floors(ExactShares(total, ps)))] > 0
  {
    var exact := ExactShares(total, ps);
    var floors := Floors(exact);
    var k, r := Absorber(floors), Remainder(total, exact);
    WeightsGiveExactSplit(total, ps);
    IntSumUpdate(floors, k, floors[k] + r);
    IntSumAtMost(floors, floors[k]);
    RemainderBounds(total, ps);
    AbsorberCovers(total, |floors|, floors[k], r);
  }

  /** n shares of at most m each, and a remainder r that completes the total: then m covers a negative r. */
  lemma AbsorberCovers(total: int, n: nat, m: int, r: int)
    requires total > 0 && m >= 0 && n <= 100_000_000_000
    requires n * m + r >= total
    requires -Slack(total) <= r as real
    ensures m + r > 0
  {
    if r < 0 {
      assert -r * 100_000_000_000 <= total;
      ghost var spare := 100_000_000_000 - n;
      assert spare * m >= 0;
      assert spare * m == 100_000_000_000 * m - n * m;
    }
  }

  /**
   * Fairness. Everyone but the absorber gets the floor of the exact share. The
   * absorber is off its exact share by the flooring of the others, plus whatever
   * the percentages themselves miss of 100; when they miss nothing it gets at
   * least its exact share and less than n - 1 stroops more.
   */
  lemma SplitIsFair(total: int, ps: seq<real>)
    requires total > 0 && Weights(ps)
    ensures var exact := ExactShares(total, ps);
            var shares, k := Split(total, exact), Absorber(Floors(exact));
            && (forall i :: 0 <= i < |ps| && i != k ==> shares[i] == exact[i].Floor)
            && exact[k] - Slack(total) <= shares[k] as real
            && (|ps| >= 2 ==> shares[k] as real < exact[k] + Slack(total) + (|ps| - 1) as real)
            && (RealSum(ps) == 100.0 ==>
                  && exact[k] <= shares[k] as real
                  && (|ps| >= 2 ==> shares[k] as real < exact[k] + (|ps| - 1) as real))
  {
    var exact := ExactShares(total, ps);
    WeightsGiveExactSplit(total, ps);
    AbsorberDrift(total, exact);
  }

  /** What the absorber gets beyond its exact share is what the others lost, plus the gap in the total. */
  lemma AbsorberDrift(total: int, exact: seq<real>)
    requires exact != []
    ensures var k := Absorber(Floors(exact));
            var drift := Split(total, exact)[k] as real - exact[k] - (total as real - RealSum(exact));
            && 0.0 <= drift
            && (|exact| >= 2 ==> drift < (|exact| - 1) as real)
  {
    var k := Absorber(Floors(exact));
    LossOfOthers(exact, k);
  }

  lemma FloorsWithout(exact: seq<real>, k: nat)
    requires k < |exact|
    ensures Floors(exact[..k] + exact[k + 1..]) == Floors(exact)[..k] + Floors(exact)[k + 1..]
  {
  }

  lemma LossOfOthers(exact: seq<real>, k: nat)
    requires k < |exact|
    ensures var loss := (RealSum(exact) - exact[k]) - (IntSum(Floors(exact)) - Floors(exact)[k]) as real;
            && 0.0 <= loss
            && (|exact| >= 2 ==> loss < (|exact| - 1) as real)
  {
    var floors, others := Floors(exact), exact[..k] + exact[k + 1..];
    FloorsWithout(exact, k);
    IntSumWithout(floors, k);
    RealSumWithout(exact, k);
    FlooringLoss(others);
  }

  /**
   * A party given 0% receives money in exactly one situation: it is listed first
   * and every exact share is below one stroop, so that it wins the tie for the remainder.
   */
  lemma ZeroPercentPaidIff(total: int, ps: seq<real>, j: nat)
    requires total > 0 && Weights(ps) && j < |ps| && ps[j] == 0.0
    ensures var exact := ExactShares(total, ps);
            && Split(total, exact)[j] >= 0
            && (Split(total, exact)[j] > 0 <==> j == 0 && forall i :: 0 <= i < |ps| ==> exact[i] < 1.0)
  {
    var exact := ExactShares(total, ps);
    WeightsGiveExactSplit(total, ps);
    assert exact[j] == 0.0;
    SmallSharePaidIff(total, exact, j);
  }

  lemma SmallSharePaidIff(total: int, exact: seq<real>, j: nat)
    requires ExactSplit(total, exact) && j < |exact| && exact[j] == 0.0
    ensures Split(total, exact)[j] >= 0
    ensures Split(total, exact)[j] > 0 <==> j == 0 && forall i :: 0 <= i < |exact| ==> exact[i] < 1.0
  {
    var floors := Floors(exact);
    var k := Absorber(floors);
    if floors[k] == 0 {
      assert forall i :: 0 <= i < |exact| ==> floors[i] == 0;
      IntSumOfZeros(floors);
      assert floors[0] == 0;
    } else {
      assert exact[k] >= 1.0 && floors[j] == 0;
    }
  }

  lemma {:induction false} IntSumOfZeros(s: seq<int>)
    requires forall i :: 0 <= i < |s| ==> s[i] == 0
    ensures IntSum(s) == 0
  {
    if s != [] {
      IntSumOfZeros(s[..|s| - 1]);
    }
  }

  /** With a stroop or more per allocation, zero percent means nothing. */
  lemma ZeroMeansNothing(total: int, ps: seq<real>, j: nat)
    requires Weights(ps) && RealSum(ps) == 100.0 && total >= |ps|
    requires j < |ps| && ps[j] == 0.0
    ensures Split(total, ExactShares(total, ps))[j] == 0
  {
    var exact := ExactShares(total, ps);
    ZeroPercentPaidIff(total, ps, j);
    WeightsGiveExactSplit(total, ps);
    if forall i :: 0 <= i < |exact| ==> exact[i] < 1.0 {
      AllBelowOne(exact);
      assert false;
    }
  }

  lemma {:induction false} AllBelowOne(s: seq<real>)
    requires forall i :: 0 <= i < |s| ==> s[i] < 1.0
    ensures s != [] ==> RealSum(s) < |s| as real
  {
    if s != [] {
      AllBelowOne(s[..|s| - 1]);
    }
  }

  /** Below that bound it can fail: one stroop split 0/50/50 goes to the 0% party. */
  lemma ZeroPercentCanBePaid()
    ensures var ps := [0.0, 50.0, 50.0]; Weights(ps) && Split(1, ExactShares(1, ps)) == [1, 0, 0]
  {
    var ps := [0.0, 50.0, 50.0];
    assert ps[..2] == [0.0, 50.0] && [0.0, 50.0][..1] == [0.0] && [0.0][..0] == [];
    assert RealSum([0.0]) == 0.0 && RealSum([0.0, 50.0]) == 50.0;
    assert Floors(ExactShares(1, ps)) == [0, 0, 0];
    IntSumOfZeros([0, 0, 0]);
    assert Absorber([0, 0, 0]) == 0;
  }

  // ---------------------------------------------------------------- the payload

  /** The recipients with something to receive, in the order given. */
  function Payable(addresses: seq<string>, shares: seq<int>): (r: seq<Distribution>)
    requires |addresses| == |shares|
  {
    if shares == [] then []
    else
      var n := |shares| - 1;
      var front := Payable(addresses[..n], shares[..n]);
      if shares[n] > 0 then front + [Distribution(addresses[n], FromStroops(shares[n]))] else front
  }

  function PaidStroops(ds: seq<Distribution>): int {
    if ds == [] then 0 else PaidStroops(ds[..|ds| - 1]) + ToStroops(ds[|ds| - 1].amount)
  }

  lemma {:induction false} PayableSum(addresses: seq<string>, shares: seq<int>)
    requires |addresses| == |shares|
    requires forall i :: 0 <= i < |shares| ==> shares[i] >= 0
    ensures PaidStroops(Payable(addresses, shares)) == IntSum(shares)
  {
    if shares != [] {
      var n, r := |shares| - 1, Payable(addresses, shares);
      var front := Payable(addresses[..n], shares[..n]);
      PayableSum(addresses[..n], shares[..n]);
      if shares[n] > 0 {
        assert r[..|r| - 1] == front;
        StroopsRoundTrip(shares[n]);
      }
    }
  }

  /** Each party with a positive share appears, and nobody else does; no address is paid twice. */
  lemma {:induction false} PayableMembers(addresses: seq<string>, shares: seq<int>)
    requires |addresses| == |shares|
    ensures forall i :: 0 <= i < |shares| && shares[i] > 0
                        ==> Distribution(addresses[i], FromStroops(shares[i])) in Payable(addresses, shares)
    ensures forall d :: d in Payable(addresses, shares) ==> d.amount > 0.0 && d.address in addresses
    ensures Distinct(addresses) ==> Distinct(Recipients(Payable(addresses, shares)))
  {
    if shares != [] {
      var n := |shares| - 1;
      PayableMembers(addresses[..n], shares[..n]);
      if Distinct(addresses) {
        assert addresses[n] !in addresses[..n];
      }
    }
  }

  function Amounts(ds: seq<Distribution>): (r: seq<real>)
    ensures |r| == |ds|
    ensures forall i :: 0 <= i < |ds| ==> r[i] == ds[i].amount
  {
    seq(|ds|, i requires 0 <= i < |ds| => ds[i].amount)
  }

  /** The amounts themselves: each of at most seven decimals, and worth in total the shares at ten million to the unit. */
  lemma {:induction false} PayableAmounts(addresses: seq<string>, shares: seq<int>)
    requires |addresses| == |shares|
    requires forall i :: 0 <= i < |shares| ==> shares[i] >= 0
    ensures RealSum(Amounts(Payable(addresses, shares))) * 10_000_000.0 == IntSum(shares) as real
    ensures forall d :: d in Payable(addresses, shares) ==> (d.amount * 10_000_000.0).Floor as real == d.amount * 10_000_000.0
  {
    if shares != [] {
      var n, r := |shares| - 1, Payable(addresses, shares);
      var front := Payable(addresses[..n], shares[..n]);
      PayableAmounts(addresses[..n], shares[..n]);
      if shares[n] > 0 {
        assert Amounts(r)[..|r| - 1] == Amounts(front);
      }
    }
  }

  /** Money paid for a total: exact for a total of at most seven decimals, within half a stroop for any other. */
  ghost predicate PaysOut(ds: seq<Distribution>, total: real) {
    var paid := RealSum(Amounts(ds));
    && -0.00000005 <= paid - total <= 0.00000005
    && ((total * 10_000_000.0).Floor as real == total * 10_000_000.0 ==> paid == total)
  }

  lemma PayoutPaysOut(total: real, allocations: seq<Allocation>)
    requires ToStroops(total) > 0 && Acceptable(allocations) && |allocations| <= MAX_ARRAY_LENGTH
    requires forall a :: a in allocations ==> a.percentage.Finite?
    ensures PaysOut(Payout(ToStroops(total), allocations), total)
    ensures forall d :: d in Payout(ToStroops(total), allocations) ==> (d.amount * 10_000_000.0).Floor as real == d.amount * 10_000_000.0
  {
    var stroops := ToStroops(total);
    var shares := Split(stroops, ExactShares(stroops, Percentages(allocations)));
    SplitConserves(stroops, Percentages(allocations));
    PayableAmounts(Addresses(allocations), shares);
    HalfAStroop(total, stroops, RealSum(Amounts(Payout(stroops, allocations))));
  }

  lemma HalfAStroop(total: real, stroops: int, paid: real)
    requires stroops == ToStroops(total) && paid * 10_000_000.0 == stroops as real
    ensures -0.00000005 <= paid - total <= 0.00000005
    ensures (total * 10_000_000.0).Floor as real == total * 10_000_000.0 ==> paid == total
  {
    if (total * 10_000_000.0).Floor as real == total * 10_000_000.0 {
      var n := (total * 10_000_000.0).Floor;
      assert stroops == n;
    }
  }

  function Recipients(ds: seq<Distribution>): (r: seq<string>)
    ensures |r| == |ds|
    ensures forall i :: 0 <= i < |ds| ==> r[i] == ds[i].address
  {
    seq(|ds|, i requires 0 <= i < |ds| => ds[i].address)
  }

  /** The escrow's own rule, re-checked on the finished payload. */
  function WithinContract(kind: EscrowKind, ds: seq<Distribution>, total: int): Option<DistributionError> {
    var sum := PaidStroops(ds);
    if kind == SingleRelease && sum != total then Some(MissesBalance(sum))
    else if kind == MultiRelease && sum > total then Some(ExceedsLimit(sum))
    else None
  }

  /** The re-check lets through exactly what Trustless Work accepts: the whole balance, or no more than the milestone. */
  lemma WithinContractIff(kind: EscrowKind, ds: seq<Distribution>, total: int)
    ensures WithinContract(kind, ds, total) == None
            <==> (kind.SingleRelease? && PaidStroops(ds) == total) || (kind.MultiRelease? && PaidStroops(ds) <= total)
  {
  }

  /** What each recipient of a resolution is paid. */
  function Payout(total: int, allocations: seq<Allocation>): seq<Distribution>
    requires allocations != [] && forall a :: a in allocations ==> a.percentage.Finite?
  {
    Payable(Addresses(allocations), Split(total, ExactShares(total, Percentages(allocations))))
  }

  /** An ECMAScript array has at most this many elements. */
  const MAX_ARRAY_LENGTH: int := 0xFFFF_FFFF

  lemma AcceptableIsFinite(allocations: seq<Allocation>)
    requires Faultless(allocations)
    ensures forall a :: a in allocations ==> a.percentage.Finite?
  {
  }

  /** A payout pays exactly the total. */
  lemma PayoutIsWhole(total: int, allocations: seq<Allocation>)
    requires total > 0 && Acceptable(allocations) && |allocations| <= MAX_ARRAY_LENGTH
    requires forall a :: a in allocations ==> a.percentage.Finite?
    ensures PaidStroops(Payout(total, allocations)) == total
  {
    var shares := Split(total, ExactShares(total, Percentages(allocations)));
    SplitConserves(total, Percentages(allocations));
    PayableSum(Addresses(allocations), shares);
  }

  /**
   * The payload of a resolution. It succeeds exactly when the request is sound:
   * neither the all-zero refusal nor the final re-check can ever fire.
   */
  method BuildDistributions(kind: EscrowKind, total: Number, allocations: seq<Allocation>)
      returns (r: Result<seq<Distribution>, DistributionError>)
    requires |allocations| <= MAX_ARRAY_LENGTH
    ensures r.Ok? <==> Acceptable(allocations) && total.Finite? && ToStroops(total.value) > 0
    ensures r.Ok? ==>
              && r.value == Payout(ToStroops(total.value), allocations)
              && r.value != []
              && PaidStroops(r.value) == ToStroops(total.value)
              && PaysOut(r.value, total.value)
              && (forall d :: d in r.value ==> (d.amount * 10_000_000.0).Floor as real == d.amount * 10_000_000.0)
              && Distinct(Recipients(r.value))
              && forall d :: d in r.value ==> d.amount > 0.0
    ensures !Acceptable(allocations) ==> r.Err? && BlamesRequest(r.error)
    ensures Acceptable(allocations) && total.NotFinite? ==> r == Err(TotalNotFinite)
    ensures Acceptable(allocations) && total.Finite? && ToStroops(total.value) <= 0 ==> r == Err(NothingToDistribute)
  {
    var refusal := AssertAllocations(allocations);
    if refusal.Some? {
      return Err(refusal.value);
    }
    AcceptableIsFinite(allocations);
    if total.NotFinite? {
      return Err(TotalNotFinite);
    }
    var stroops := ToStroops(total.value);
    if stroops <= 0 {
      return Err(NothingToDistribute);
    }
    var ps := Percentages(allocations);
    var shares := SplitStroops(stroops, ps);
    var distributions := Payable(Addresses(allocations), shares[..]);
    PayoutIsWhole(stroops, allocations);
    PayoutPaysOut(total.value, allocations);
    PayableMembers(Addresses(allocations), shares[..]);
    if distributions == [] {
      return Err(AllRoundedToZero);
    }
    match WithinContract(kind, distributions, stroops)
    case Some(broken) => return Err(broken);
    case None => return Ok(distributions);
  }

  // ---------------------------------------------------------------- two parties

  function TwoPartyAllocations(approver: string, serviceProvider: string, approverPercentage: real): seq<Allocation> {
    [Allocation(approver, Finite(approverPercentage)), Allocation(serviceProvider, Finite(100.0 - approverPercentage))]
  }

  /** The approver is offered the share named, the service provider the rest. */
  lemma TwoPartiesShare(approver: string, serviceProvider: string, p: real)
    ensures var allocations := TwoPartyAllocations(approver, serviceProvider, p);
            && |allocations| == 2
            && allocations[0].address == approver && allocations[0].percentage == Finite(p)
            && allocations[1].address == serviceProvider && allocations[1].percentage.Finite?
            && allocations[0].percentage.value + allocations[1].percentage.value == 100.0
  {
  }

  /** A two-party split is accepted exactly when the share is a percentage and the parties are two. */
  lemma TwoPartiesAcceptedIff(approver: string, serviceProvider: string, p: real)
    ensures Acceptable(TwoPartyAllocations(approver, serviceProvider, p))
            <==> 0.0 <= p <= 100.0 && Trim(approver) != "" && Trim(serviceProvider) != "" && Trim(approver) != Trim(serviceProvider)
  {
    var allocations := TwoPartyAllocations(approver, serviceProvider, p);
    var first, second := Fault(allocations[0], 0), Fault(allocations[1], 1);
    assert Faultless(allocations) <==> first == None && second == None;
    assert Addresses(allocations) == [Trim(approver), Trim(serviceProvider)];
    assert Distinct(Addresses(allocations)) <==> Trim(approver) != Trim(serviceProvider);
    if Faultless(allocations) {
      AcceptableIsFinite(allocations);
      var ps := Percentages(allocations);
      assert ps == [p, 100.0 - p];
      TwoPercentages(ps);
    }
  }

  lemma TwoPercentages(ps: seq<real>)
    requires |ps| == 2
    ensures RealSum(ps) == ps[0] + ps[1]
  {
    assert ps[..1] == [ps[0]] && ps[..1][..0] == [];
    assert RealSum(ps[..1]) == ps[0];
  }
}
