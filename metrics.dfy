/** Aggregate metrics over a sequence of wagers: total profit, total stake,
    guarded ROI, win rate, expected value (mean profit), mean odds and the
    break-even win rate. Each pandas column reduction (sum, mean) is a
    reduction of the projected column. */
module Metrics {
  import opened Wagers

  /** Sum of a column, as pandas `Series.sum()` computes it over reals. */
  function Total(xs: seq<real>): real {
    if xs == [] then 0.0 else Total(xs[..|xs| - 1]) + xs[|xs| - 1]
  }

  /** Arithmetic mean of a non-empty column. */
  function Mean(xs: seq<real>): real
    requires |xs| > 0
  {
    Total(xs) / (|xs| as real)
  }

  /** The column `f` of a table of rows. */
  function Project<T>(xs: seq<T>, f: T -> real): seq<real> {
    seq(|xs|, i requires 0 <= i < |xs| => f(xs[i]))
  }

  /** Entry i of a projected column is `f` of row i. */
  lemma ProjectEntries<T>(xs: seq<T>, f: T -> real)
    ensures |Project(xs, f)| == |xs|
    ensures forall i :: 0 <= i < |xs| ==> Project(xs, f)[i] == f(xs[i])
  {
  }

  /** Total profit: what the bookmaker paid back minus what was staked. */
  function TotalProfit(rs: seq<Wager>): (r: real)
    ensures r == Total(Project(rs, Payout)) - TotalStake(rs)
  {
    ProfitsArePayoutsMinusStakes(rs);
    Total(Project(rs, Profit))
  }

  /** Total stake: positive exactly when there is a record, as long as
      every stake is positive. */
  function TotalStake(rs: seq<Wager>): (r: real)
    ensures (forall i :: 0 <= i < |rs| ==> rs[i].stake > 0.0) ==> (r > 0.0 <==> rs != [])
  {
    TotalOfPositives(Project(rs, StakeOf));
    Total(Project(rs, StakeOf))
  }

  /** Return on investment: total profit over total stake, and 0 when
      nothing (or a non-positive amount) was staked. */
  function Roi(rs: seq<Wager>): (r: real)
    ensures TotalStake(rs) > 0.0 ==> r * TotalStake(rs) == TotalProfit(rs)
    ensures TotalStake(rs) <= 0.0 ==> r == 0.0
  {
    var stakeTotal := TotalStake(rs);
    if stakeTotal > 0.0 then TotalProfit(rs) / stakeTotal else 0.0
  }

  /** Win rate: the mean of the (outcome == "Win") column, so the
      denominator counts every record, Void included. */
  function WinRate(rs: seq<Wager>): (r: real)
    requires |rs| > 0
    ensures 0.0 <= r <= 1.0
  {
    ProjectEntries(rs, Hit);
    BoundedTotal(Project(rs, Hit), 0.0, 1.0);
    Mean(Project(rs, Hit))
  }

  /** Expected value per wager: the mean profit, so the wagers together
      earn it once each. */
  function ExpectedValue(rs: seq<Wager>): (r: real)
    requires |rs| > 0
    ensures r * (|rs| as real) == TotalProfit(rs)
    ensures r > 0.0 <==> TotalProfit(rs) > 0.0
  {
    Mean(Project(rs, Profit))
  }

  /** Mean odds; at least 1 when every record's odds are. */
  function MeanOdd(rs: seq<Wager>): (r: real)
    requires |rs| > 0
    ensures r * (|rs| as real) == Total(Project(rs, OddOf))
    ensures (forall i :: 0 <= i < |rs| ==> rs[i].odd >= 1.0) ==> r >= 1.0
  {
    ProjectEntries(rs, OddOf);
    TotalAtLeast(Project(rs, OddOf), 1.0);
    Mean(Project(rs, OddOf))
  }

  /** The break-even win rate implied by the mean odds, guarded when the
      mean is not positive. */
  function Breakeven(meanOdd: real): (b: real)
    ensures meanOdd > 0.0 ==> b > 0.0 && b * meanOdd == 1.0
    ensures meanOdd <= 0.0 ==> b == 0.0
    ensures meanOdd >= 1.0 ==> b <= 1.0
  {
    if meanOdd > 0.0 then 1.0 / meanOdd else 0.0
  }

  // ---------------------------------------------------------------------
  // Properties of the reductions
  // ---------------------------------------------------------------------

  lemma {:induction false} TotalConcat(xs: seq<real>, ys: seq<real>)
    ensures Total(xs + ys) == Total(xs) + Total(ys)
    decreases |ys|
  {
    if ys != [] {
      var n := |ys| - 1;
      assert (xs + ys)[..|xs + ys| - 1] == xs + ys[..n];
      TotalConcat(xs, ys[..n]);
    } else {
      assert xs + ys == xs;
    }
  }

  /** A column whose entries all lie in [lo, hi] sums to between |xs|*lo and |xs|*hi. */
  lemma {:induction false} BoundedTotal(xs: seq<real>, lo: real, hi: real)
    requires forall i :: 0 <= i < |xs| ==> lo <= xs[i] <= hi
    ensures (|xs| as real) * lo <= Total(xs) <= (|xs| as real) * hi
  {
    if xs != [] {
      var n := |xs| - 1;
      BoundedTotal(xs[..n], lo, hi);
      assert (n as real) * lo + lo == (|xs| as real) * lo;
      assert (n as real) * hi + hi == (|xs| as real) * hi;
    }
  }

  /** A column whose entries are all at least `lo` sums to at least |xs|*lo. */
  lemma {:induction false} TotalAtLeast(xs: seq<real>, lo: real)
    ensures (forall i :: 0 <= i < |xs| ==> xs[i] >= lo) ==> Total(xs) >= (|xs| as real) * lo
  {
    if xs != [] && forall i :: 0 <= i < |xs| ==> xs[i] >= lo {
      var n := |xs| - 1;
      TotalAtLeast(xs[..n], lo);
      assert (n as real) * lo + lo == (|xs| as real) * lo;
    }
  }

  /** A column of positive entries has a positive sum exactly when it is non-empty. */
  lemma {:induction false} TotalOfPositives(xs: seq<real>)
    ensures (forall i :: 0 <= i < |xs| ==> xs[i] > 0.0) ==> (Total(xs) > 0.0 <==> xs != [])
  {
    if xs != [] && forall i :: 0 <= i < |xs| ==> xs[i] > 0.0 {
      var n := |xs| - 1;
      TotalOfPositives(xs[..n]);
      assert n > 0 ==> Total(xs[..n]) > 0.0;
    }
  }

  /** Summed over the records, profit is payout minus stake. */
  lemma {:induction false} ProfitsArePayoutsMinusStakes(rs: seq<Wager>)
    ensures Total(Project(rs, Profit)) == Total(Project(rs, Payout)) - Total(Project(rs, StakeOf))
  {
    if rs != [] {
      var n := |rs| - 1;
      ProfitsArePayoutsMinusStakes(rs[..n]);
      assert Project(rs, Profit)[..n] == Project(rs[..n], Profit);
      assert Project(rs, Payout)[..n] == Project(rs[..n], Payout);
      assert Project(rs, StakeOf)[..n] == Project(rs[..n], StakeOf);
      ProjectEntries(rs, Profit);
      ProjectEntries(rs, Payout);
      ProjectEntries(rs, StakeOf);
      ProfitIsPayoutMinusStake(rs[n]);
    }
  }

  lemma ProjectConcat<T>(xs: seq<T>, ys: seq<T>, f: T -> real)
    ensures Project(xs + ys, f) == Project(xs, f) + Project(ys, f)
  {
  }

  /** Taking row i out of a table takes its entry out of the column total. */
  lemma TotalProjectRemove<T>(ys: seq<T>, i: nat, f: T -> real)
    requires i < |ys|
    ensures Total(Project(ys, f)) == Total(Project(ys[..i] + ys[i + 1..], f)) + f(ys[i])
  {
    var a, b := Project(ys[..i], f), Project(ys[i + 1..], f);
    assert Project(ys, f) == (a + [f(ys[i])]) + b;
    assert Project(ys[..i] + ys[i + 1..], f) == a + b;
    TotalConcat(a + [f(ys[i])], b);
    TotalConcat(a, b);
    assert (a + [f(ys[i])])[..|a|] == a;
  }

  lemma MultisetRemove<T>(ys: seq<T>, i: nat)
    requires i < |ys|
    ensures multiset(ys[..i] + ys[i + 1..]) == multiset(ys) - multiset{ys[i]}
  {
    assert ys == ys[..i] + [ys[i]] + ys[i + 1..];
  }

  /** Summing a column does not depend on the order of the rows. */
  lemma {:induction false} TotalProjectPermutation<T>(xs: seq<T>, ys: seq<T>, f: T -> real)
    requires multiset(xs) == multiset(ys)
    ensures Total(Project(xs, f)) == Total(Project(ys, f))
    decreases |xs|
  {
    if xs == [] {
      assert |ys| == |multiset(ys)| == 0;
    } else {
      var n := |xs| - 1;
      assert xs[n] in multiset(ys);
      var i :| 0 <= i < |ys| && ys[i] == xs[n];
      MultisetRemove(ys, i);
      MultisetRemove(xs, n);
      assert xs[..n] + xs[n + 1..] == xs[..n];
      TotalProjectPermutation(xs[..n], ys[..i] + ys[i + 1..], f);
      TotalProjectRemove(ys, i, f);
      TotalProjectRemove(xs, n, f);
    }
  }

  /** ROI, win rate and expected value are aggregates: permuting the
      records leaves them unchanged. */
  lemma AggregatesIgnoreOrder(rs: seq<Wager>, qs: seq<Wager>)
    requires multiset(rs) == multiset(qs)
    ensures Roi(rs) == Roi(qs)
    ensures |rs| == |qs|
    ensures |rs| > 0 ==> WinRate(rs) == WinRate(qs) && ExpectedValue(rs) == ExpectedValue(qs)
  {
    assert |rs| == |multiset(rs)| == |multiset(qs)| == |qs|;
    TotalProjectPermutation(rs, qs, Profit);
    TotalProjectPermutation(rs, qs, StakeOf);
    TotalProjectPermutation(rs, qs, Hit);
  }

  /** Nobody loses more than they staked: on well-formed records ROI is at least -1. */
  lemma {:induction false} RoiAtLeastMinusOne(rs: seq<Wager>)
    requires forall i :: 0 <= i < |rs| ==> WellFormed(rs[i])
    ensures Roi(rs) >= -1.0
  {
    ProfitCoversStake(rs);
    var stake, roi := TotalStake(rs), Roi(rs);
    if stake > 0.0 {
      assert (roi + 1.0) * stake == TotalProfit(rs) + stake >= 0.0;
      ProductSign(-(roi + 1.0), stake);
      assert -(roi + 1.0) * stake == -((roi + 1.0) * stake);
    }
  }

  lemma {:induction false} ProfitCoversStake(rs: seq<Wager>)
    requires forall i :: 0 <= i < |rs| ==> WellFormed(rs[i])
    ensures TotalProfit(rs) >= -TotalStake(rs)
    ensures TotalStake(rs) > 0.0 <==> rs != []
  {
    if rs != [] {
      var n := |rs| - 1;
      ProfitCoversStake(rs[..n]);
      assert Project(rs, Profit)[..n] == Project(rs[..n], Profit);
      assert Project(rs, StakeOf)[..n] == Project(rs[..n], StakeOf);
    }
  }

  /** On a non-empty set with positive total stake, EV and ROI have the same sign. */
  lemma EvAndRoiAgreeInSign(rs: seq<Wager>)
    requires |rs| > 0 && TotalStake(rs) > 0.0
    ensures ExpectedValue(rs) > 0.0 <==> Roi(rs) > 0.0
    ensures ExpectedValue(rs) == 0.0 <==> Roi(rs) == 0.0
  {
    var n := |rs| as real;
    assert ExpectedValue(rs) * n == TotalProfit(rs);
  }

  /** A Void record counts in the win-rate denominator, so appending one
      never raises the win rate, and lowers it whenever there was a win. */
  lemma VoidDilutesWinRate(rs: seq<Wager>, v: Wager)
    requires |rs| > 0 && v.outcome == "Void"
    ensures WinRate(rs + [v]) <= WinRate(rs)
    ensures WinRate(rs) > 0.0 ==> WinRate(rs + [v]) < WinRate(rs)
    ensures TotalProfit(rs + [v]) == TotalProfit(rs)
  {
    ProjectConcat(rs, [v], Hit);
    ProjectConcat(rs, [v], Profit);
    TotalConcat(Project(rs, Hit), [0.0]);
    TotalConcat(Project(rs, Profit), [0.0]);
    ProjectEntries(rs, Hit);
    ProjectEntries([v], Hit);
    ProjectEntries([v], Profit);
    assert Project([v], Hit) == [0.0];
    assert Project([v], Profit) == [0.0];
    var wins := Total(Project(rs, Hit));
    var n := |rs| as real;
    assert wins >= 0.0 by { BoundedTotal(Project(rs, Hit), 0.0, 1.0); }
    assert WinRate(rs) == wins / n;
    assert WinRate(rs + [v]) == wins / (n + 1.0);
    ShareShrinks(wins, n, n + 1.0);
  }

  /** A fixed amount shared among more parts gives each part less. */
  lemma ShareShrinks(a: real, n: real, m: real)
    requires a >= 0.0 && 0.0 < n < m
    ensures a / m <= a / n
    ensures a > 0.0 ==> a / m < a / n
  {
    assert a / n == a * m / (n * m);
    assert a / m == a * n / (n * m);
    assert a / n - a / m == a * (m - n) / (n * m);
    ProductSign(a, m - n);
    ProductSign(n, m);
  }

  /** The break-even rate is the win rate at which a bet at those odds has
      zero expected profit per unit staked; above it the expectation is
      positive, below it negative. */
  lemma BreakevenZeroesExpectation(meanOdd: real, p: real)
    requires meanOdd > 0.0
    ensures var edge := p * (meanOdd - 1.0) - (1.0 - p);
      && (edge == 0.0 <==> p == Breakeven(meanOdd))
      && (edge > 0.0 <==> p > Breakeven(meanOdd))
  {
    var b := Breakeven(meanOdd);
    assert p * (meanOdd - 1.0) - (1.0 - p) == p * meanOdd - 1.0;
    assert meanOdd * b == 1.0;
    assert meanOdd * (p - b) == meanOdd * p - meanOdd * b;
    ProductSign(meanOdd, p - b);
    ProductSign(meanOdd, b - p);
  }

  /** Outcomes [Win, Loss, Win] at odds 2.0 and stake 1 give profits
      [1, -1, 1], ROI 1/3 and win rate 2/3. */
  lemma ThreeWagerExample()
    ensures var w := Wager("Over", 9.5, 2.0, 1.0, "Jogo equilibrado", "Alta", "Win");
      var l := w.(outcome := "Loss");
      var rs := [w, l, w];
      && Project(rs, Profit) == [1.0, -1.0, 1.0]
      && Roi(rs) == 1.0 / 3.0
      && WinRate(rs) == 2.0 / 3.0
  {
    var w := Wager("Over", 9.5, 2.0, 1.0, "Jogo equilibrado", "Alta", "Win");
    var l := w.(outcome := "Loss");
    var rs := [w, l, w];
    ProjectEntries(rs, Profit);
    ProjectEntries(rs, StakeOf);
    ProjectEntries(rs, Hit);
    assert Project(rs, Profit) == [1.0, -1.0, 1.0];
    assert Project(rs, StakeOf) == [1.0, 1.0, 1.0];
    assert Project(rs, Hit) == [1.0, 0.0, 1.0];
    assert [1.0, -1.0, 1.0][..2] == [1.0, -1.0];
    assert [1.0, 1.0, 1.0][..2] == [1.0, 1.0];
    assert [1.0, 0.0, 1.0][..2] == [1.0, 0.0];
    assert Total([1.0, -1.0, 1.0]) == 1.0 by {
      assert [1.0, -1.0][..1] == [1.0];
      assert Total([1.0]) == 1.0 by { assert [1.0][..0] == []; }
    }
    assert Total([1.0, 1.0, 1.0]) == 3.0 by {
      assert [1.0, 1.0][..1] == [1.0];
      assert Total([1.0]) == 1.0 by { assert [1.0][..0] == []; }
    }
    assert Total([1.0, 0.0, 1.0]) == 2.0 by {
      assert [1.0, 0.0][..1] == [1.0];
      assert Total([1.0]) == 1.0 by { assert [1.0][..0] == []; }
    }
  }
}
