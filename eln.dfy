/**
 * Equity-linked note arithmetic: the strike, the final outcome on the
 * valuation date (the three ELN calculators), the payoff curves and the
 * solve-for-strike / solve-for-coupon formulas (the structured-product
 * scripts). Prices are exact reals. Where a script raises (an empty
 * price series, a division by zero in the solve-for formulas) the model
 * gives an error value; a zero strike in the calculators, where numpy
 * division yields an infinite or undefined share count instead, is also
 * given no outcome.
 */
module Eln {
  import opened Wrappers

  /** A percentage typed by the user, as a fraction. */
  function PercentInput(p: real): real { p / 100.0 }

  /** calculate_strike_price: the initial share price scaled by the strike
      fraction. */
  function StrikePrice(initialSharePrice: real, strikeFraction: real): (strike: real)
    ensures strikeFraction == 1.0 ==> strike == initialSharePrice
    ensures initialSharePrice > 0.0 ==> (strike < initialSharePrice <==> strikeFraction < 1.0)
  {
    initialSharePrice * strikeFraction
  }

  /** A strike typed as a percentage is that percentage of the initial
      price: 100 gives the initial price, 80 gives four fifths of it. */
  lemma StrikeFromPercent(initialSharePrice: real, percent: real)
    ensures StrikePrice(initialSharePrice, PercentInput(percent)) * 100.0 == initialSharePrice * percent
    ensures StrikePrice(initialSharePrice, PercentInput(100.0)) == initialSharePrice
  {
  }

  /** `int(tenor_years * 12)`: the months looked back, truncated towards
      zero. */
  function TenorMonths(tenorYears: real): (months: int)
    ensures tenorYears >= 0.0 ==> months >= 0 && months as real <= tenorYears * 12.0 < months as real + 1.0
    ensures tenorYears < 0.0 ==> months <= 0 && months as real - 1.0 < tenorYears * 12.0 <= months as real
  {
    var m := tenorYears * 12.0;
    if m >= 0.0 then m.Floor else -((-m).Floor)
  }

  /** A tenor of one and a half years looks back 18 months; 1.99 years
      still looks back only 23. */
  lemma TenorExamples()
    ensures TenorMonths(1.5) == 18 && TenorMonths(1.99) == 23 && TenorMonths(2.0) == 24
  {
  }

  // ---------------------------------------------------------------------
  // ELN_Calculator_v1.py and ELN_Calculator_v2.py
  // ---------------------------------------------------------------------

  /** What calculate_final_outcome returns (the valuation date aside). */
  datatype Outcome = Outcome(spot: real, investorReceive: real, profit: real, loss: real)

  /** The outcome at or above the strike: the full notional back, profit is
      the notional less the issue price, no loss. */
  function AboveOutcome(spot: real, notional: real, issuerPrice: real): Outcome {
    Outcome(spot, notional, notional - notional * issuerPrice, 0.0)
  }

  /** The outcome below the strike: notional / strike shares, no profit. */
  function BelowOutcome(spot: real, strike: real, notional: real): Outcome
    requires strike != 0.0
  {
    Outcome(spot, notional / strike, 0.0, notional - notional * strike)
  }

  /** calculate_final_outcome (V1 and V2): the valuation spot is the last
      price; at or above the strike (`>=`) the note pays back, below it
      delivers shares. `None` for an empty series, where the script raises,
      and for a zero strike above the spot, where the script's numpy
      division gives an infinite share count rather than a number. */
  function FinalOutcome(prices: seq<real>, strike: real, notional: real, issuerPrice: real): (r: Option<Outcome>)
    ensures r.None? <==> prices == [] || (prices[|prices| - 1] < strike && strike == 0.0)
    ensures r.Some? ==> r.value.spot == prices[|prices| - 1]
    ensures r.Some? && r.value.spot >= strike ==>
      r.value.investorReceive == notional && r.value.loss == 0.0 && r.value.profit == notional * (1.0 - issuerPrice)
    ensures r.Some? && r.value.spot < strike ==>
      r.value.investorReceive * strike == notional && r.value.profit == 0.0 && r.value.loss == notional * (1.0 - strike)
  {
    if prices == [] then None
    else
      var spot := prices[|prices| - 1];
      if spot >= strike then Some(AboveOutcome(spot, notional, issuerPrice))
      else if strike == 0.0 then None
      else Some(BelowOutcome(spot, strike, notional))
  }

  /** The ABOVE/BELOW line of the report. */
  function Label(spot: real, strike: real): string {
    if spot >= strike then "ABOVE" else "BELOW"
  }

  /** The label and the outcome use the same test, so they always agree. */
  lemma LabelAgreesWithOutcome(prices: seq<real>, strike: real, notional: real, issuerPrice: real)
    requires FinalOutcome(prices, strike, notional, issuerPrice).Some?
    ensures var o := FinalOutcome(prices, strike, notional, issuerPrice).value;
      && (Label(o.spot, strike) == "ABOVE" ==> o == AboveOutcome(o.spot, notional, issuerPrice))
      && (Label(o.spot, strike) == "BELOW" ==> o == BelowOutcome(o.spot, strike, notional))
  {
  }

  // ---------------------------------------------------------------------
  // CommandLine/ELN_Calculator.py
  // ---------------------------------------------------------------------

  datatype Case = ProfitCase | LossCase

  /** What the command-line calculate_final_outcome returns: the spot, the
      shares delivered, the profit and which case the report describes. */
  datatype StrictOutcome = StrictOutcome(spot: real, numShares: real, profit: real, outcome: Case)

  /** calculate_final_outcome (command line): profit only strictly above the
      strike (`>`). `None` for an empty series and, as in V1 and V2, for a
      zero strike at or above the spot. */
  function FinalOutcomeStrict(prices: seq<real>, strike: real, notional: real, issuerPercent: real): (r: Option<StrictOutcome>)
    ensures r.None? <==> prices == [] || (prices[|prices| - 1] <= strike && strike == 0.0)
    ensures r.Some? ==> r.value.spot == prices[|prices| - 1]
    ensures r.Some? ==> (r.value.outcome == ProfitCase <==> r.value.spot > strike)
    ensures r.Some? && r.value.outcome == ProfitCase ==>
      r.value.profit == notional * (1.0 - issuerPercent) && r.value.numShares == 0.0
    ensures r.Some? && r.value.outcome == LossCase ==>
      r.value.numShares * strike == notional && r.value.profit == 0.0
  {
    if prices == [] then None
    else
      var spot := prices[|prices| - 1];
      if spot > strike then Some(StrictOutcome(spot, 0.0, notional - notional * issuerPercent, ProfitCase))
      else if strike == 0.0 then None
      else Some(StrictOutcome(spot, notional / strike, 0.0, LossCase))
  }

  function StrictLabel(spot: real, strike: real): string {
    if spot > strike then "ABOVE" else "BELOW"
  }

  /** The command-line label uses the same strict test as its branch. */
  lemma StrictLabelAgrees(prices: seq<real>, strike: real, notional: real, issuerPercent: real)
    requires FinalOutcomeStrict(prices, strike, notional, issuerPercent).Some?
    ensures var o := FinalOutcomeStrict(prices, strike, notional, issuerPercent).value;
      StrictLabel(o.spot, strike) == "ABOVE" <==> o.outcome == ProfitCase
  {
  }

  /** A spot exactly at a non-zero strike: V1 and V2 pay back the notional,
      the command-line calculator delivers shares. */
  lemma SpotAtStrike(prices: seq<real>, strike: real, notional: real, issuer: real)
    requires prices != [] && prices[|prices| - 1] == strike && strike != 0.0
    ensures FinalOutcome(prices, strike, notional, issuer) == Some(AboveOutcome(strike, notional, issuer))
    ensures Label(strike, strike) == "ABOVE" && StrictLabel(strike, strike) == "BELOW"
    ensures FinalOutcomeStrict(prices, strike, notional, issuer).value.outcome == LossCase
  {
  }

  /** Away from the strike the two variants take the same branch. */
  lemma VariantsAgreeOffStrike(prices: seq<real>, strike: real, notional: real, issuer: real)
    requires prices != [] && prices[|prices| - 1] != strike && strike != 0.0
    ensures FinalOutcome(prices, strike, notional, issuer).Some?
    ensures FinalOutcomeStrict(prices, strike, notional, issuer).Some?
    ensures (FinalOutcomeStrict(prices, strike, notional, issuer).value.outcome == ProfitCase) ==
      (FinalOutcome(prices, strike, notional, issuer).value.loss == 0.0 &&
       FinalOutcome(prices, strike, notional, issuer).value.investorReceive == notional &&
       Label(prices[|prices| - 1], strike) == "ABOVE")
  {
  }

  // ---------------------------------------------------------------------
  // 4_StructuredProducts/2_ELN-Plot.py
  // ---------------------------------------------------------------------

  /** calculate_payoff (ELN plot): the price grown by the coupon at or above
      the strike, nothing below it. */
  function CouponPayoff(sharePrice: real, strike: real, coupon: real): (payoff: real)
    ensures sharePrice >= strike ==> payoff == sharePrice * (1.0 + coupon)
    ensures sharePrice < strike ==> payoff == 0.0
  {
    if sharePrice >= strike then sharePrice * (1.0 + coupon) else 0.0
  }

  /** For a non-negative strike and a coupon of at least -100%, the payoff
      never falls as the share price rises. */
  lemma CouponPayoffMonotone(p1: real, p2: real, strike: real, coupon: real)
    requires strike >= 0.0 && coupon >= -1.0 && p1 <= p2
    ensures CouponPayoff(p1, strike, coupon) <= CouponPayoff(p2, strike, coupon)
  {
    if p1 >= strike {
      assert p1 * (1.0 + coupon) <= p2 * (1.0 + coupon);
    }
  }

  /** The payoff list: one payoff per price, in the same order. */
  function CouponPayoffs(prices: seq<real>, strike: real, coupon: real): (payoffs: seq<real>)
    ensures |payoffs| == |prices|
    ensures forall i :: 0 <= i < |prices| ==> payoffs[i] == CouponPayoff(prices[i], strike, coupon)
  {
    seq(|prices|, i requires 0 <= i < |prices| => CouponPayoff(prices[i], strike, coupon))
  }

  datatype SolveError = InvalidSolveFor | DivisionByZero

  /** The solve-for branch of main: the typed rate is the coupon fraction
      when solving for the strike (the strike-percentage prompt's answer is
      never used when solving for the coupon). Yields (strike, coupon). */
  function SolveFor(solveFor: string, notional: real, upfront: real, rate: real): (r: Result<(real, real), SolveError>)
    ensures solveFor != "strike" && solveFor != "coupon" ==> r == Err(InvalidSolveFor)
    ensures solveFor == "strike" ==>
      (r.Err? <==> notional * (1.0 + rate) == 0.0) &&
      (r.Ok? ==> r.value.1 == rate * notional && r.value.0 * (notional * (1.0 + rate)) == upfront)
    ensures solveFor == "coupon" ==>
      (r.Err? <==> notional == 0.0 || upfront == 0.0) &&
      (r.Ok? ==> r.value.0 * notional == upfront && r.value.1 == upfront / r.value.0 - 1.0)
  {
    if solveFor == "strike" then
      var coupon := rate * notional;
      var d := notional * (1.0 + rate);
      if d == 0.0 then Err(DivisionByZero) else Ok((upfront / d, coupon))
    else if solveFor == "coupon" then
      if notional == 0.0 then Err(DivisionByZero)
      else
        var strike := upfront / notional;
        if strike == 0.0 then Err(DivisionByZero) else Ok((strike, upfront / strike - 1.0))
    else Err(InvalidSolveFor)
  }

  /** Solving for the coupon gives notional - 1 whatever the upfront
      payment: the strike is upfront / notional, so upfront / strike is the
      notional again. */
  lemma SolvedCouponIsNotionalLessOne(notional: real, upfront: real, rate: real)
    requires notional != 0.0 && upfront != 0.0
    ensures SolveFor("coupon", notional, upfront, rate).Ok?
    ensures SolveFor("coupon", notional, upfront, rate).value.1 == notional - 1.0
  {
    DivideByQuotient(upfront, notional);
  }

  lemma DivideByQuotient(u: real, n: real)
    requires u != 0.0 && n != 0.0
    ensures u / n != 0.0 && u / (u / n) == n
  {
    var q := u / n;
    assert q * n == u;
    var c := u / q;
    assert c * q == u;
    assert (c - n) * q == 0.0;
  }

  // ---------------------------------------------------------------------
  // 4_StructuredProducts/4_ELN-Evaluate.py
  // ---------------------------------------------------------------------

  /** calculate_payoff (evaluation): the share price itself at or above the
      strike, nothing below it. */
  function SharePayoff(sharePrice: real, strike: real): (payoff: real)
    ensures sharePrice >= strike ==> payoff == sharePrice
    ensures sharePrice < strike ==> payoff == 0.0
  {
    if sharePrice >= strike then sharePrice else 0.0
  }

  function SharePayoffs(prices: seq<real>, strike: real): (payoffs: seq<real>)
    ensures |payoffs| == |prices|
    ensures forall i :: 0 <= i < |prices| ==> payoffs[i] == SharePayoff(prices[i], strike)
  {
    seq(|prices|, i requires 0 <= i < |prices| => SharePayoff(prices[i], strike))
  }

  /** The evaluation payoff is the plot payoff with a zero coupon. */
  lemma SharePayoffIsZeroCoupon(price: real, strike: real)
    ensures SharePayoff(price, strike) == CouponPayoff(price, strike, 0.0)
  {
  }

  /** The evaluation strike: the initial price raised by the strike
      fraction. */
  function EvaluationStrike(initialSharePrice: real, strikePercent: real): (strike: real)
    ensures strikePercent == 0.0 ==> strike == initialSharePrice
    ensures initialSharePrice > 0.0 ==> (strike > initialSharePrice <==> strikePercent > 0.0)
  {
    initialSharePrice * (1.0 + strikePercent)
  }

  datatype Evaluation = AtOrAbove | DropsToZero | Below

  /** The final evaluation of the last price against the strike. */
  function Classify(finalPrice: real, strike: real): (e: Evaluation)
    ensures e == AtOrAbove <==> finalPrice >= strike
    ensures e == DropsToZero <==> finalPrice == 0.0 && strike > 0.0
    ensures e == Below <==> finalPrice < strike && finalPrice != 0.0
  {
    if finalPrice >= strike then AtOrAbove
    else if finalPrice == 0.0 then DropsToZero
    else Below
  }

  /** The evaluation script end to end: the strike from the first price, the
      payoff series, and the classification of the last price; `None` for
      an empty series. */
  function Evaluate(prices: seq<real>, strikePercent: real): (r: Option<(real, seq<real>, Evaluation)>)
    ensures r.None? <==> prices == []
    ensures r.Some? ==> r.value.0 == EvaluationStrike(prices[0], strikePercent)
    ensures r.Some? ==> r.value.1 == SharePayoffs(prices, r.value.0)
    ensures r.Some? ==> r.value.2 == Classify(prices[|prices| - 1], r.value.0)
  {
    if prices == [] then None
    else
      var strike := EvaluationStrike(prices[0], strikePercent);
      Some((strike, SharePayoffs(prices, strike), Classify(prices[|prices| - 1], strike)))
  }

  /** The classification names the payoff of the last price: at or above
      the strike it is paid, otherwise the payoff is zero. */
  lemma ClassificationMatchesLastPayoff(prices: seq<real>, strikePercent: real)
    requires prices != []
    ensures var (strike, payoffs, e) := Evaluate(prices, strikePercent).value;
      (e == AtOrAbove <==> payoffs[|payoffs| - 1] == prices[|prices| - 1] && prices[|prices| - 1] >= strike) &&
      (e != AtOrAbove ==> payoffs[|payoffs| - 1] == 0.0)
  {
  }
}
