/** The drawdown of the bankroll curve: the bankroll is the running sum of
    the profits (cumsum), the peak its running maximum starting from the
    first bankroll value (cummax), and the drawdown the least value of
    bankroll minus peak. */
module DrawdownTracker {
  import opened Metrics

  function Max(a: real, b: real): real { if a >= b then a else b }

  function Min(a: real, b: real): real { if a <= b then a else b }

  /** Bankroll after the first t + 1 wagers, for each t: the curve the
      overview tab charts. */
  function Bankroll(ps: seq<real>): seq<real> {
    seq(|ps|, t requires 0 <= t < |ps| => Total(ps[..t + 1]))
  }

  /** The curve is a running sum: it starts at the first profit and each
      later point adds that wager's profit to the previous point. */
  lemma BankrollIsRunningSum(ps: seq<real>)
    ensures |Bankroll(ps)| == |ps|
    ensures |ps| > 0 ==> Bankroll(ps)[0] == ps[0]
    ensures forall t :: 0 < t < |ps| ==> Bankroll(ps)[t] == Bankroll(ps)[t - 1] + ps[t]
  {
    if |ps| > 0 {
      assert ps[..1][..0] == [];
      assert Total(ps[..1]) == ps[0];
    }
    forall t | 0 < t < |ps|
      ensures Bankroll(ps)[t] == Bankroll(ps)[t - 1] + ps[t]
    {
      assert ps[..t + 1][..t] == ps[..t];
    }
  }

  /** The running peak after the whole of `ps`: the running maximum of
      the bankroll, which starts at the first bankroll value. */
  function Peak(ps: seq<real>): (m: real)
    requires |ps| > 0
    ensures m >= Total(ps)
  {
    if |ps| == 1 then Total(ps) else Max(Peak(ps[..|ps| - 1]), Total(ps))
  }

  /** The worst bankroll-minus-peak over the whole history. */
  function Drawdown(ps: seq<real>): (d: real)
    requires |ps| > 0
    ensures d <= 0.0
  {
    var here := Total(ps) - Peak(ps);
    if |ps| == 1 then here else Min(Drawdown(ps[..|ps| - 1]), here)
  }

  /** The peak is the largest bankroll seen, and it is one of them. */
  lemma {:induction false} PeakIsLargestBankroll(ps: seq<real>)
    requires |ps| > 0
    ensures forall k :: 1 <= k <= |ps| ==> Total(ps[..k]) <= Peak(ps)
    ensures exists k :: 1 <= k <= |ps| && Total(ps[..k]) == Peak(ps)
  {
    assert ps[..|ps|] == ps;
    if |ps| > 1 {
      var init := ps[..|ps| - 1];
      PeakIsLargestBankroll(init);
      assert forall k :: 1 <= k < |ps| ==> init[..k] == ps[..k];
    }
  }

  /** The drawdown is the least bankroll-minus-peak, and it is attained. */
  lemma {:induction false} DrawdownIsWorstGap(ps: seq<real>)
    requires |ps| > 0
    ensures forall k :: 1 <= k <= |ps| ==> Drawdown(ps) <= Total(ps[..k]) - Peak(ps[..k])
    ensures exists k :: 1 <= k <= |ps| && Drawdown(ps) == Total(ps[..k]) - Peak(ps[..k])
  {
    assert ps[..|ps|] == ps;
    if |ps| > 1 {
      var init := ps[..|ps| - 1];
      DrawdownIsWorstGap(init);
      assert forall k :: 1 <= k < |ps| ==> init[..k] == ps[..k];
    }
  }

  /** The single forward pass: bankroll, peak and worst decline so far. */
  method MaxDrawdown(ps: seq<real>) returns (worst: real)
    requires |ps| > 0
    ensures worst == Drawdown(ps)
  {
    var bankroll := ps[0];
    var peak := bankroll;
    worst := 0.0;
    assert ps[..1] == [ps[0]] && [ps[0]][..0] == [];
    var i := 1;
    while i < |ps|
      invariant 1 <= i <= |ps|
      invariant bankroll == Total(ps[..i])
      invariant peak == Peak(ps[..i])
      invariant worst == Drawdown(ps[..i])
    {
      assert ps[..i + 1][..i] == ps[..i];
      bankroll := bankroll + ps[i];
      if bankroll > peak {
        peak := bankroll;
      }
      if bankroll - peak < worst {
        worst := bankroll - peak;
      }
      i := i + 1;
    }
    assert ps[..|ps|] == ps;
  }

  /** The bankroll never goes down from one wager to the next. */
  ghost predicate NeverDecreases(ps: seq<real>) {
    forall k :: 1 <= k < |ps| ==> Total(ps[..k]) <= Total(ps[..k + 1])
  }

  /** The drawdown is 0 exactly when the bankroll never decreases. */
  lemma {:induction false} DrawdownZeroIffNeverDecreases(ps: seq<real>)
    requires |ps| > 0
    ensures Drawdown(ps) == 0.0 <==> NeverDecreases(ps)
  {
    if |ps| > 1 {
      var n := |ps| - 1;
      var init := ps[..n];
      assert forall k :: 1 <= k <= n ==> init[..k] == ps[..k];
      assert ps[..n + 1] == ps;
      DrawdownZeroIffNeverDecreases(init);
      if Drawdown(ps) == 0.0 {
        assert Drawdown(init) == 0.0 && Total(init) - Peak(init) >= 0.0;
        assert Total(init) <= Total(ps);
      }
      if NeverDecreases(ps) {
        assert NeverDecreases(init);
        assert Total(init) - Peak(init) >= 0.0;
        assert Total(init) <= Total(ps);
      }
    }
  }

  /** The peak starts at the first bankroll value, not at 0: a lone losing
      first wager is no drawdown at all. */
  lemma FirstLossIsNoDrawdown(x: real)
    ensures Drawdown([x]) == 0.0
  {
  }

  /** Profits [5, -3, -4, 2] give bankroll [5, 2, -2, 0] and drawdown -7. */
  lemma FourWagerExample()
    ensures Bankroll([5.0, -3.0, -4.0, 2.0]) == [5.0, 2.0, -2.0, 0.0]
    ensures Drawdown([5.0, -3.0, -4.0, 2.0]) == -7.0
  {
    var ps := [5.0, -3.0, -4.0, 2.0];
    assert ps[..1] == [5.0] && ps[..1][..0] == [];
    assert ps[..2][..1] == ps[..1];
    assert ps[..3][..2] == ps[..2];
    assert ps[..4][..3] == ps[..3];
    assert ps[..4] == ps;
    assert Total(ps[..1]) == 5.0;
    assert Total(ps[..2]) == 2.0;
    assert Total(ps[..3]) == -2.0;
    assert Total(ps) == 0.0;
    assert Peak(ps[..1]) == 5.0;
    assert Peak(ps[..2]) == 5.0;
    assert Peak(ps[..3]) == 5.0;
    assert Peak(ps) == 5.0;
    assert Drawdown(ps[..1]) == 0.0;
    assert Drawdown(ps[..2]) == -3.0;
    assert Drawdown(ps[..3]) == -7.0;
  }

  /** Unlike ROI, the drawdown depends on the order of the profits: the
      same two profits give 0 when the loss comes first and -1 otherwise. */
  lemma DrawdownDependsOnOrder()
    ensures multiset([-1.0, 1.0]) == multiset([1.0, -1.0])
    ensures Drawdown([-1.0, 1.0]) == 0.0
    ensures Drawdown([1.0, -1.0]) == -1.0
  {
    var up, down := [-1.0, 1.0], [1.0, -1.0];
    assert up[..1] == [-1.0] && down[..1] == [1.0];
    assert up[..2] == up && down[..2] == down;
    assert [-1.0][..0] == [] && [1.0][..0] == [];
    assert Total(up) == 0.0 && Total(down) == 0.0;
  }

  /** The last point of the bankroll curve is the total profit. */
  lemma BankrollEndsAtTotal(ps: seq<real>)
    requires |ps| > 0
    ensures Bankroll(ps)[|ps| - 1] == Total(ps)
  {
    assert ps[..|ps|] == ps;
  }
}
