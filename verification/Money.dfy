/** Decimal amounts, their cents, and the validators that compare an agreement's total with its milestones. */
module Money {
  import opened Prelude

  // ---------------------------------------------------------------- decimal strings

  predicate AllDigits(s: string) {
    s != "" && forall i :: 0 <= i < |s| ==> '0' <= s[i] <= '9'
  }

  /** The position of the first point, or the length when there is none. */
  function Point(s: string): (k: nat)
    ensures k <= |s| && '.' !in s[..k] && (k < |s| ==> s[k] == '.')
  {
    if s == "" || s[0] == '.' then 0
    else
      var k := Point(s[1..]);
      assert s[..k + 1] == [s[0]] + s[1..][..k];
      k + 1
  }

  /** One or more digits, then optionally a point and one or more digits. */
  predicate IsAmount(s: string) {
    AllDigits(s[..Point(s)]) && (Point(s) < |s| ==> AllDigits(s[Point(s) + 1..]))
  }

  function Natural(digits: string): nat
    requires forall i :: 0 <= i < |digits| ==> '0' <= digits[i] <= '9'
  {
    if digits == "" then 0
    else 10 * Natural(digits[..|digits| - 1]) + (digits[|digits| - 1] as int - '0' as int)
  }

  function Pow10(n: nat): nat {
    if n == 0 then 1 else 10 * Pow10(n - 1)
  }

  function Decimals(s: string): string {
    if Point(s) < |s| then s[Point(s) + 1..] else ""
  }

  function AmountValue(s: string): real
    requires IsAmount(s)
  {
    Natural(s[..Point(s)]) as real + Fraction(Natural(Decimals(s)), |Decimals(s)|)
  }

  function Fraction(mantissa: nat, places: nat): real {
    Pow10Positive(places);
    mantissa as real / Pow10(places) as real
  }

  lemma {:induction false} Pow10Positive(n: nat)
    ensures Pow10(n) >= 1
  {
    if n > 0 {
      Pow10Positive(n - 1);
    }
  }

  predicate IsValidPositiveNumeric(s: string) {
    IsAmount(s) && AmountValue(s) > 0.0
  }

  function ToCents(s: string): int
    requires IsAmount(s)
  {
    (AmountValue(s) * 100.0 + 0.5).Floor
  }

  lemma CentsAreClose(s: string)
    requires IsAmount(s)
    ensures -0.5 <= AmountValue(s) * 100.0 - ToCents(s) as real <= 0.5
  {
  }

  /** Rounding to cents loses nothing when at most two decimals were written. */
  lemma CentsAreExact(s: string)
    requires IsAmount(s) && |Decimals(s)| <= 2
    ensures ToCents(s) as real == AmountValue(s) * 100.0
  {
    var whole, mantissa, places := Natural(s[..Point(s)]), Natural(Decimals(s)), |Decimals(s)|;
    FractionInCents(mantissa, places);
    RoundsToItself(AmountValue(s), whole, Fraction(mantissa, places), mantissa * Scale(places));
  }

  lemma RoundsToItself(value: real, whole: int, fraction: real, cents: int)
    requires value == whole as real + fraction && fraction * 100.0 == cents as real
    ensures (value * 100.0 + 0.5).Floor as real == value * 100.0
  {
    var n := whole * 100 + cents;
    assert n as real == whole as real * 100.0 + cents as real;
    HalfUp(value * 100.0, n);
  }

  lemma HalfUp(x: real, n: int)
    requires x == n as real
    ensures (x + 0.5).Floor == n
  {
  }

  /** Cents per unit of the last decimal place. */
  function Scale(places: nat): int {
    if places == 0 then 100 else if places == 1 then 10 else 1
  }

  lemma FractionInCents(mantissa: nat, places: nat)
    requires places <= 2
    ensures Fraction(mantissa, places) * 100.0 == (mantissa * Scale(places)) as real
  {
  }

  // ---------------------------------------------------------------- what a decimal string is worth

  function Digit(d: nat): char
    requires d < 10
  {
    ('0' as int + d) as char
  }

  /** The decimal text of a number. */
  function Digits(n: nat): string {
    if n < 10 then [Digit(n)] else Digits(n / 10) + [Digit(n % 10)]
  }

  lemma {:induction false} DigitsAreDigits(n: nat)
    ensures AllDigits(Digits(n))
  {
    if n >= 10 {
      DigitsAreDigits(n / 10);
    }
  }

  /** Round trip: the text of a number reads as that number. */
  lemma {:induction false} NaturalRoundTrip(n: nat)
    ensures AllDigits(Digits(n)) && Natural(Digits(n)) == n
  {
    var s := Digits(n);
    DigitsAreDigits(n);
    if n < 10 {
      assert s[..0] == "" && s[0] == Digit(n);
    } else {
      NaturalRoundTrip(n / 10);
      assert s[..|s| - 1] == Digits(n / 10) && s[|s| - 1] == Digit(n % 10);
    }
  }

  lemma {:induction false} PointAfterDigits(s: string, rest: string)
    requires forall i :: 0 <= i < |s| ==> '0' <= s[i] <= '9'
    ensures Point(s) == |s| && Point(s + "." + rest) == |s|
  {
    if s != "" {
      PointAfterDigits(s[1..], rest);
      assert (s + "." + rest)[1..] == s[1..] + "." + rest;
    }
  }

  lemma PointSplits(whole: string, decimals: string)
    requires AllDigits(whole) && AllDigits(decimals)
    ensures var s := whole + "." + decimals;
            IsAmount(s) && s[..Point(s)] == whole && Decimals(s) == decimals
  {
    PointAfterDigits(whole, decimals);
  }

  /** A whole number of units is worth a hundred cents each. */
  lemma WholeAmount(n: nat)
    ensures IsAmount(Digits(n)) && AmountValue(Digits(n)) == n as real && ToCents(Digits(n)) == 100 * n
  {
    var s := Digits(n);
    NaturalRoundTrip(n);
    PointAfterDigits(s, "");
    assert s[..|s|] == s && Decimals(s) == "";
    HalfUp(AmountValue(s) * 100.0, 100 * n);
  }

  /** Two decimals are cents. */
  lemma CentAmount(n: nat, d: nat)
    requires d < 100
    ensures var s := Digits(n) + "." + [Digit(d / 10), Digit(d % 10)];
            IsAmount(s) && AmountValue(s) == n as real + d as real / 100.0 && ToCents(s) == 100 * n + d
  {
    var decimals := [Digit(d / 10), Digit(d % 10)];
    NaturalRoundTrip(n);
    TwoDigits(d);
    ValueInCents(Digits(n), decimals, n, d);
  }

  lemma ValueInCents(whole: string, decimals: string, n: nat, d: nat)
    requires AllDigits(whole) && AllDigits(decimals) && |decimals| == 2 && Natural(whole) == n && Natural(decimals) == d
    ensures var s := whole + "." + decimals;
            IsAmount(s) && AmountValue(s) == n as real + d as real / 100.0 && ToCents(s) == 100 * n + d
  {
    var s := whole + "." + decimals;
    PointSplits(whole, decimals);
    Hundredths(d);
    HalfUp(AmountValue(s) * 100.0, 100 * n + d);
  }

  lemma Hundredths(d: nat)
    ensures Fraction(d, 2) == d as real / 100.0
  {
    assert Pow10(1) == 10 && Pow10(2) == 100;
  }

  lemma TwoDigits(d: nat)
    requires d < 100
    ensures var s := [Digit(d / 10), Digit(d % 10)]; |s| == 2 && AllDigits(s) && Natural(s) == d
  {
    var s := [Digit(d / 10), Digit(d % 10)];
    assert s[..1] == [Digit(d / 10)] && s[..1][..0] == "";
    assert Natural(s[..1]) == d / 10;
  }

  /** An amount is digits, at least one; or digits, a point and digits, at least one on each side. Nothing else is. */
  lemma AmountForm(s: string)
    ensures IsAmount(s)
            <==> || (|s| > 0 && forall i :: 0 <= i < |s| ==> '0' <= s[i] <= '9')
                 || exists k :: 0 < k < |s| - 1 && s[k] == '.' && AllDigits(s[..k]) && AllDigits(s[k + 1..])
    ensures AllDigits(s) <==> |s| > 0 && forall i :: 0 <= i < |s| ==> '0' <= s[i] <= '9'
  {
    assert s[..|s|] == s;
    if AllDigits(s) {
      PointAfterDigits(s, "");
    } else if k :| 0 < k < |s| - 1 && s[k] == '.' && AllDigits(s[..k]) && AllDigits(s[k + 1..]) {
      assert s == s[..k] + "." + s[k + 1..];
      PointAfterDigits(s[..k], s[k + 1..]);
    }
  }

  lemma {:induction false} PositiveDigits(s: string)
    requires forall i :: 0 <= i < |s| ==> '0' <= s[i] <= '9'
    ensures Natural(s) > 0 <==> exists i :: 0 <= i < |s| && s[i] != '0'
  {
    if s != "" {
      PositiveDigits(s[..|s| - 1]);
      if Natural(s) > 0 && Natural(s[..|s| - 1]) == 0 {
        assert s[|s| - 1] != '0';
      }
    }
  }

  lemma FractionIsPositive(mantissa: nat, places: nat)
    ensures Fraction(mantissa, places) >= 0.0
    ensures Fraction(mantissa, places) > 0.0 <==> mantissa > 0
  {
    Pow10Positive(places);
  }

  /** An amount is worth something exactly when some digit of it is not zero. */
  lemma PositiveIff(s: string)
    ensures IsValidPositiveNumeric(s) <==> IsAmount(s) && exists i :: 0 <= i < |s| && '1' <= s[i] <= '9'
  {
    if IsAmount(s) {
      var whole, decimals := s[..Point(s)], Decimals(s);
      PositiveDigits(whole);
      PositiveDigits(decimals);
      FractionIsPositive(Natural(decimals), |decimals|);
      if i :| 0 <= i < |whole| && whole[i] != '0' {
        assert s[i] == whole[i];
      }
      if i :| 0 <= i < |decimals| && decimals[i] != '0' {
        assert s[Point(s) + 1 + i] == decimals[i];
      }
      forall i | 0 <= i < |s| && '1' <= s[i] <= '9'
        ensures (exists k :: 0 <= k < |whole| && whole[k] != '0') || (exists k :: 0 <= k < |decimals| && decimals[k] != '0')
      {
        if i < Point(s) {
          assert whole[i] != '0';
        } else {
          assert i != Point(s);
          assert decimals[i - Point(s) - 1] != '0';
        }
      }
    }
  }

  // ---------------------------------------------------------------- totals

  datatype Milestone = Milestone(description: Option<string>, amount: Option<string>)

  predicate Priced(m: Milestone) {
    m.amount.Some? && IsValidPositiveNumeric(m.amount.value)
  }

  predicate AllPriced(ms: seq<Milestone>) {
    forall i :: 0 <= i < |ms| ==> Priced(ms[i])
  }

  function SumCents(ms: seq<Milestone>): int
    requires AllPriced(ms)
  {
    if ms == [] then 0 else SumCents(ms[..|ms| - 1]) + ToCents(ms[|ms| - 1].amount.value)
  }

  function SumAmounts(ms: seq<Milestone>): real
    requires AllPriced(ms)
  {
    if ms == [] then 0.0 else SumAmounts(ms[..|ms| - 1]) + AmountValue(ms[|ms| - 1].amount.value)
  }

  lemma {:induction false} SumIsClose(ms: seq<Milestone>)
    requires AllPriced(ms)
    ensures -(|ms| as real) * 0.5 <= SumAmounts(ms) * 100.0 - SumCents(ms) as real <= |ms| as real * 0.5
    ensures (forall i :: 0 <= i < |ms| ==> |Decimals(ms[i].amount.value)| <= 2)
            ==> SumCents(ms) as real == SumAmounts(ms) * 100.0
  {
    if ms != [] {
      var last := ms[|ms| - 1].amount.value;
      SumIsClose(ms[..|ms| - 1]);
      CentsAreClose(last);
      if |Decimals(last)| <= 2 {
        CentsAreExact(last);
      }
    }
  }

  /** The amounts of an agreement with milestones, as every validator wants them. */
  predicate Balanced(amount: string, ms: seq<Milestone>) {
    IsValidPositiveNumeric(amount) && AllPriced(ms) && (ms != [] ==> ToCents(amount) == SumCents(ms))
  }

  /**
   * A balanced agreement is worth what its milestones are worth, to within half a
   * cent for the total and half a cent for each milestone; exactly, when no amount
   * is written with more than two decimals.
   */
  lemma BalancedWithinCents(amount: string, ms: seq<Milestone>)
    requires Balanced(amount, ms) && ms != []
    ensures -((|ms| + 1) as real) / 2.0 <= (AmountValue(amount) - SumAmounts(ms)) * 100.0 <= (|ms| + 1) as real / 2.0
    ensures |Decimals(amount)| <= 2 && (forall i :: 0 <= i < |ms| ==> |Decimals(ms[i].amount.value)| <= 2)
            ==> AmountValue(amount) == SumAmounts(ms)
  {
    CentsAreClose(amount);
    SumIsClose(ms);
    if |Decimals(amount)| <= 2 {
      CentsAreExact(amount);
    }
  }

  // ---------------------------------------------------------------- validation at creation

  datatype AgreementInput = AgreementInput(
    title: string, description: Option<string>, amount: string, asset: Option<string>,
    agreementType: Option<string>, milestones: seq<Milestone>, participants: seq<string>)

  datatype Fault =
    | TitleRequired | BlankDescription | InvalidAmount | InvalidAsset
    | MilestoneDescriptionRequired(index: nat)
    | MilestoneAmountRequired(index: nat)
    | MilestoneAmountInvalid(index: nat)
    | SumMismatch
    | MustBeMulti | MustBeSingle
    | ParticipantsRequired
    | ParticipantBlank(index: nat)

  predicate Blank(s: string) {
    Trim(s) == ""
  }

  predicate Described(m: Milestone) {
    m.description.Some? && !Blank(m.description.value)
  }

  predicate HeaderFine(input: AgreementInput) {
    && !Blank(input.title)
    && (input.description.Some? ==> !Blank(input.description.value))
    && IsValidPositiveNumeric(input.amount)
    && (input.asset.Some? ==> input.asset.value == "USDC")
  }

  predicate TypeFine(input: AgreementInput) {
    && (|input.milestones| > 1 ==> input.agreementType == Some("multi"))
    && (|input.milestones| == 1 ==> input.agreementType != Some("multi"))
  }

  /** What an agreement must satisfy to be created. */
  predicate Accepts(input: AgreementInput) {
    && HeaderFine(input)
    && (forall i :: 0 <= i < |input.milestones| ==> Described(input.milestones[i]))
    && Balanced(input.amount, input.milestones)
    && TypeFine(input)
    && input.participants != []
    && (forall i :: 0 <= i < |input.participants| ==> !Blank(input.participants[i]))
  }

  lemma BlankIsSpace(s: string)
    ensures Blank(s) <==> AllSpace(s)
  {
    var lead, tail := TrimDropsSpace(s);
  }

  lemma HeaderMeans(input: AgreementInput)
    ensures HeaderFine(input) <==>
              && !AllSpace(input.title)
              && (input.description == None || !AllSpace(input.description.value))
              && IsValidPositiveNumeric(input.amount)
              && (input.asset == None || input.asset.value == "USDC")
  {
    BlankIsSpace(input.title);
    if input.description.Some? {
      BlankIsSpace(input.description.value);
    }
  }

  lemma MilestoneMeans(m: Milestone)
    ensures Described(m) <==> m.description.Some? && !AllSpace(m.description.value)
    ensures Priced(m) <==> m.amount.Some? && IsValidPositiveNumeric(m.amount.value)
  {
    if m.description.Some? {
      BlankIsSpace(m.description.value);
    }
  }

  lemma MilestonesMean(ms: seq<Milestone>)
    ensures AllPriced(ms) && (forall i :: 0 <= i < |ms| ==> Described(ms[i]))
            <==> forall i :: 0 <= i < |ms| ==>
                   && ms[i].description.Some? && !AllSpace(ms[i].description.value)
                   && ms[i].amount.Some? && IsValidPositiveNumeric(ms[i].amount.value)
  {
    forall i | 0 <= i < |ms|
      ensures Described(ms[i]) <==> ms[i].description.Some? && !AllSpace(ms[i].description.value)
      ensures Priced(ms[i]) <==> ms[i].amount.Some? && IsValidPositiveNumeric(ms[i].amount.value)
    {
      MilestoneMeans(ms[i]);
    }
  }

  /** In so many words what a request must say to be accepted; only an absent asset, type or description is excused. */
  lemma AcceptsMeans(input: AgreementInput)
    ensures Accepts(input) <==>
              && !AllSpace(input.title)
              && (input.description == None || !AllSpace(input.description.value))
              && IsValidPositiveNumeric(input.amount)
              && (input.asset == None || input.asset.value == "USDC")
              && (forall i :: 0 <= i < |input.milestones| ==>
                    var m := input.milestones[i];
                    && m.description.Some? && !AllSpace(m.description.value)
                    && m.amount.Some? && IsValidPositiveNumeric(m.amount.value))
              && (input.milestones != [] ==> AllPriced(input.milestones) && ToCents(input.amount) == SumCents(input.milestones))
              && (|input.milestones| >= 2 ==> input.agreementType == Some("multi"))
              && (|input.milestones| == 1 ==> input.agreementType != Some("multi"))
              && |input.participants| >= 1
              && (forall i :: 0 <= i < |input.participants| ==> !AllSpace(input.participants[i]))
  {
    HeaderMeans(input);
    MilestonesMean(input.milestones);
    forall i | 0 <= i < |input.participants| ensures Blank(input.participants[i]) <==> AllSpace(input.participants[i]) {
      BlankIsSpace(input.participants[i]);
    }
  }

  method HeaderFaults(input: AgreementInput) returns (errors: seq<Fault>)
    ensures errors == [] <==> HeaderFine(input)
    ensures SumMismatch !in errors
  {
    errors := [];
    if Blank(input.title) {
      errors := errors + [TitleRequired];
    }
    if input.description.Some? && Blank(input.description.value) {
      errors := errors + [BlankDescription];
    }
    if !IsValidPositiveNumeric(input.amount) {
      errors := errors + [InvalidAmount];
    }
    if input.asset.Some? && input.asset.value != "USDC" {
      errors := errors + [InvalidAsset];
    }
  }

  method MilestoneFaults(ms: seq<Milestone>) returns (errors: seq<Fault>)
    ensures errors == [] <==> AllPriced(ms) && forall i :: 0 <= i < |ms| ==> Described(ms[i])
    ensures SumMismatch !in errors
  {
    errors := [];
    for i := 0 to |ms|
      invariant errors == [] <==> forall k :: 0 <= k < i ==> Priced(ms[k]) && Described(ms[k])
      invariant SumMismatch !in errors
    {
      if !Described(ms[i]) {
        errors := errors + [MilestoneDescriptionRequired(i)];
      }
      if ms[i].amount.None? {
        errors := errors + [MilestoneAmountRequired(i)];
      } else if !IsValidPositiveNumeric(ms[i].amount.value) {
        errors := errors + [MilestoneAmountInvalid(i)];
      }
    }
  }

  method ParticipantFaults(participants: seq<string>) returns (errors: seq<Fault>)
    ensures errors == [] <==> participants != [] && forall i :: 0 <= i < |participants| ==> !Blank(participants[i])
    ensures SumMismatch !in errors
  {
    if participants == [] {
      return [ParticipantsRequired];
    }
    errors := [];
    for i := 0 to |participants|
      invariant errors == [] <==> forall k :: 0 <= k < i ==> !Blank(participants[k])
      invariant SumMismatch !in errors
    {
      if Blank(participants[i]) {
        errors := errors + [ParticipantBlank(i)];
      }
    }
  }

  /** No complaint exactly when the agreement may be created; the sum is compared only once everything before it is fine. */
  method ValidateAgreement(input: AgreementInput) returns (errors: seq<Fault>)
    ensures errors == [] <==> Accepts(input)
    ensures SumMismatch in errors <==>
              && HeaderFine(input) && input.milestones != [] && AllPriced(input.milestones)
              && (forall i :: 0 <= i < |input.milestones| ==> Described(input.milestones[i]))
              && ToCents(input.amount) != SumCents(input.milestones)
  {
    var ms := input.milestones;
    errors := HeaderFaults(input);
    if ms != [] {
      var faults := MilestoneFaults(ms);
      errors := errors + faults;
      if errors == [] && ToCents(input.amount) != SumCents(ms) {
        errors := errors + [SumMismatch];
      }
      if |ms| > 1 {
        if input.agreementType != Some("multi") {
          errors := errors + [MustBeMulti];
        }
      } else if input.agreementType == Some("multi") {
        errors := errors + [MustBeSingle];
      }
    }
    var faults := ParticipantFaults(input.participants);
    errors := errors + faults;
  }

  // ---------------------------------------------------------------- consistency of a stored agreement

  predicate NotBlanked(m: Milestone) {
    m.description.Some? ==> !Blank(m.description.value)
  }

  predicate Consistent(amount: string, ms: seq<Milestone>) {
    Balanced(amount, ms) && forall i :: 0 <= i < |ms| ==> NotBlanked(ms[i])
  }

  /** A stored agreement may have milestones without a description, but none with a blank one. */
  lemma ConsistentMeans(amount: string, ms: seq<Milestone>)
    ensures Consistent(amount, ms) <==>
              && IsValidPositiveNumeric(amount)
              && (forall m :: m in ms ==>
                    && (m.description == None || !AllSpace(m.description.value))
                    && m.amount.Some? && IsValidPositiveNumeric(m.amount.value))
              && (ms != [] ==> AllPriced(ms) && ToCents(amount) == SumCents(ms))
  {
    forall s ensures Blank(s) <==> AllSpace(s) {
      BlankIsSpace(s);
    }
    assert forall i :: 0 <= i < |ms| ==> ms[i] in ms;
  }

  method ValidateAgreementConsistency(amount: string, ms: seq<Milestone>) returns (errors: seq<Fault>)
    ensures errors == [] <==> Consistent(amount, ms)
  {
    errors := [];
    if !IsValidPositiveNumeric(amount) {
      errors := errors + [InvalidAmount];
    }
    for i := 0 to |ms|
      invariant errors == [] <==> IsValidPositiveNumeric(amount) && forall k :: 0 <= k < i ==> Priced(ms[k]) && NotBlanked(ms[k])
    {
      if !NotBlanked(ms[i]) {
        errors := errors + [MilestoneDescriptionRequired(i)];
      }
      if ms[i].amount.None? {
        errors := errors + [MilestoneAmountRequired(i)];
      } else if !IsValidPositiveNumeric(ms[i].amount.value) {
        errors := errors + [MilestoneAmountInvalid(i)];
      }
    }
    if errors == [] && ms != [] && ToCents(amount) != SumCents(ms) {
      errors := errors + [SumMismatch];
    }
  }

  predicate SameAmounts(ms: seq<Milestone>, later: seq<Milestone>) {
    |later| == |ms| && forall i :: 0 <= i < |ms| ==> later[i].amount == ms[i].amount
  }

  lemma {:induction false} SameAmountsSameSum(ms: seq<Milestone>, later: seq<Milestone>)
    requires SameAmounts(ms, later) && AllPriced(ms)
    ensures AllPriced(later) && SumCents(later) == SumCents(ms) && SumAmounts(later) == SumAmounts(ms)
  {
    if ms != [] {
      SameAmountsSameSum(ms[..|ms| - 1], later[..|ms| - 1]);
    }
  }
}
