/** The one-sided z-test of the realised win rate against the break-even
    rate, and the verdict drawn from its p-value and the expected value. */
module Significance {

  /** The p-value below which a positive method counts as validated. */
  const P_THRESHOLD: real := 0.05

  datatype Verdict =
    | Validated    // statistically validated
    | PositiveEv   // positive EV, but possibly still variance
    | Negative     // negative in the long run

  /** The square of the standard error of the win rate over n wagers. */
  function SquaredStandardError(winRate: real, n: nat): (v: real)
    requires n > 0
    ensures 0.0 <= winRate <= 1.0 ==> v >= 0.0
    ensures 0.0 <= winRate <= 1.0 ==> (v > 0.0 <==> 0.0 < winRate < 1.0)
  {
    var q := winRate * (1.0 - winRate);
    assert 0.0 < winRate < 1.0 ==> q > 0.0;
    assert winRate == 0.0 || winRate == 1.0 ==> q == 0.0;
    q / (n as real)
  }

  /** z = (win rate - break-even) / se, and 0 when se is 0. */
  function ZScore(winRate: real, breakeven: real, se: real): (z: real)
    ensures se > 0.0 ==> z * se == winRate - breakeven
    ensures se <= 0.0 ==> z == 0.0
  {
    if se > 0.0 then (winRate - breakeven) / se else 0.0
  }

  /** With se the square root of the squared standard error, se vanishes
      exactly at win rates 0 and 1, where z is 0; elsewhere z has the sign
      of win rate minus break-even. */
  lemma ZScoreSign(winRate: real, breakeven: real, se: real, n: nat)
    requires n > 0 && 0.0 <= winRate <= 1.0
    requires se >= 0.0 && se * se == SquaredStandardError(winRate, n)
    ensures se > 0.0 <==> 0.0 < winRate < 1.0
    ensures winRate == 0.0 || winRate == 1.0 ==> ZScore(winRate, breakeven, se) == 0.0
    ensures se > 0.0 ==> (ZScore(winRate, breakeven, se) > 0.0 <==> winRate > breakeven)
    ensures se > 0.0 ==> (ZScore(winRate, breakeven, se) < 0.0 <==> winRate < breakeven)
  {
    var z := ZScore(winRate, breakeven, se);
    var v := SquaredStandardError(winRate, n);
    if se > 0.0 {
      assert v / se == se;
    }
    if se > 0.0 {
      assert z * se == winRate - breakeven;
      if z > 0.0 { assert z * se > 0.0; }
      if z < 0.0 {
        assert (-z) * se > 0.0;
        assert (-z) * se == -(z * se);
      }
      if z == 0.0 { assert z * se == 0.0; }
    }
  }

  /** The verdict on the method, from the p-value and the expected value. */
  function Classify(pValue: real, ev: real): (v: Verdict)
    ensures v == Validated <==> pValue < P_THRESHOLD && ev > 0.0
    ensures v == PositiveEv <==> ev > 0.0 && pValue >= P_THRESHOLD
    ensures v == Negative <==> ev <= 0.0
  {
    if pValue < P_THRESHOLD && ev > 0.0 then Validated
    else if ev > 0.0 then PositiveEv
    else Negative
  }

  function Rank(v: Verdict): nat {
    match v
    case Negative => 0
    case PositiveEv => 1
    case Validated => 2
  }

  /** A smaller p-value or a larger expected value never worsens the verdict. */
  lemma ClassifyIsMonotone(p1: real, ev1: real, p2: real, ev2: real)
    requires p2 <= p1 && ev1 <= ev2
    ensures Rank(Classify(p1, ev1)) <= Rank(Classify(p2, ev2))
  {
  }
}
