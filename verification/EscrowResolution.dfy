/** What the percentages of a resolution are percentages of, and what a resolution pays end to end. */
module EscrowResolution {
  import opened Prelude
  import opened Distributions

  /** The parts of an escrow read from Trustless Work that decide a payout. */
  datatype Escrow = Escrow(balance: real, milestones: seq<Option<real>>)

  datatype ResolutionError =
    | NoFunds
    | NoSuchMilestone
    | MilestoneHasNoAmount
    | InvalidDistribution(error: DistributionError)

  predicate IsInteger(n: Number) {
    n.Finite? && n.value.Floor as real == n.value
  }

  /** `index` is `Number(milestoneIndex)`: not finite when the request names none. */
  function ResolutionTotal(escrow: Escrow, kind: EscrowKind, index: Number): Result<real, ResolutionError> {
    if kind == SingleRelease then
      if escrow.balance <= 0.0 then Err(NoFunds) else Ok(escrow.balance)
    else if !IsInteger(index) || index.value < 0.0 || index.value >= |escrow.milestones| as real then
      Err(NoSuchMilestone)
    else
      match escrow.milestones[index.value.Floor]
      case None => Err(MilestoneHasNoAmount)
      case Some(amount) =>
        if amount <= 0.0 then Err(MilestoneHasNoAmount)
        else Ok(RealMin(amount, if escrow.balance > 0.0 then escrow.balance else amount))
  }

  /** The request's index is the number i. */
  predicate Names(index: Number, i: nat) {
    index == Finite(i as real)
  }

  lemma IndexIsNamed(index: Number, n: nat)
    ensures IsInteger(index) && 0.0 <= index.value < n as real <==> exists i: nat :: i < n && Names(index, i)
  {
    if IsInteger(index) && 0.0 <= index.value < n as real {
      assert Names(index, index.value.Floor);
    }
  }

  method SplitByPercentage(escrow: Escrow, kind: EscrowKind, index: Number, allocations: seq<Allocation>)
      returns (r: Result<seq<Distribution>, ResolutionError>)
    requires |allocations| <= MAX_ARRAY_LENGTH
    ensures var total := ResolutionTotal(escrow, kind, index);
            && (total.Err? ==> r == Err(total.error))
            && (r.Ok? <==> total.Ok? && Acceptable(allocations) && ToStroops(total.value) > 0)
            && (r.Ok? ==> r.value == Payout(ToStroops(total.value), allocations))
            && (total.Ok? && r.Err? ==> r.error.InvalidDistribution?)
    ensures r.Ok? && kind == SingleRelease ==> PaidStroops(r.value) == ToStroops(escrow.balance)
    ensures r.Ok? && kind == MultiRelease ==>
              var amount := escrow.milestones[index.value.Floor].value;
              && PaidStroops(r.value) <= ToStroops(amount)
              && (escrow.balance > 0.0 ==> PaidStroops(r.value) == Min(ToStroops(amount), ToStroops(escrow.balance)))
              && (escrow.balance <= 0.0 ==> PaidStroops(r.value) == ToStroops(amount))
    ensures r.Ok? ==> (PaidStroops(r.value) <= ToStroops(escrow.balance) <==> escrow.balance > 0.0)
    ensures r.Ok? && kind == SingleRelease ==> PaysOut(r.value, escrow.balance)
    ensures r.Ok? && kind == MultiRelease ==>
              var amount := escrow.milestones[index.value.Floor].value;
              PaysOut(r.value, if 0.0 < escrow.balance < amount then escrow.balance else amount)
    ensures r == Err(NoFunds) <==> kind == SingleRelease && escrow.balance <= 0.0
    ensures r == Err(NoSuchMilestone) <==>
              kind == MultiRelease && !(exists i: nat :: i < |escrow.milestones| && Names(index, i))
    ensures r == Err(MilestoneHasNoAmount) <==>
              && kind == MultiRelease
              && exists i: nat :: i < |escrow.milestones| && Names(index, i)
                                  && (escrow.milestones[i].None? || escrow.milestones[i].value <= 0.0)
  {
    IndexIsNamed(index, |escrow.milestones|);
    match ResolutionTotal(escrow, kind, index) {
      case Err(e) =>
        return Err(e);
      case Ok(total) =>
        if escrow.balance > 0.0 && kind == MultiRelease {
          ToStroopsMonotone(total, escrow.balance);
          var amount := escrow.milestones[index.value.Floor].value;
          ToStroopsMonotone(total, amount);
        } else if escrow.balance <= 0.0 {
          ToStroopsMonotone(escrow.balance, 0.0);
        }
        var built := BuildDistributions(kind, Finite(total), allocations);
        match built {
          case Ok(distributions) => return Ok(distributions);
          case Err(e) => return Err(InvalidDistribution(e));
        }
    }
  }

  /** With nothing held the cap is off: an empty multi-release escrow has its milestone paid out, 60/40 for instance. */
  lemma EmptyEscrowCanPay(amount: real, approver: string, serviceProvider: string)
    requires ToStroops(amount) > 0
    requires Trim(approver) != "" && Trim(serviceProvider) != "" && Trim(approver) != Trim(serviceProvider)
    ensures var escrow := Escrow(0.0, [Some(amount)]);
            var allocations := TwoPartyAllocations(approver, serviceProvider, 60.0);
            && Acceptable(allocations)
            && ResolutionTotal(escrow, MultiRelease, Finite(0.0)) == Ok(amount)
            && PaidStroops(Payout(ToStroops(amount), allocations)) == ToStroops(amount) > ToStroops(escrow.balance)
  {
    var allocations := TwoPartyAllocations(approver, serviceProvider, 60.0);
    TwoPartiesAcceptedIff(approver, serviceProvider, 60.0);
    AcceptableIsFinite(allocations);
    PayoutIsWhole(ToStroops(amount), allocations);
  }

  lemma ToStroopsMonotone(a: real, b: real)
    ensures a <= b ==> ToStroops(a) <= ToStroops(b)
  {
  }
}
