/** The two analysis tabs of the page: the overview, shown as soon as there
    is any record, and the deep analysis, gated on a minimum sample. The
    square root and the standard normal distribution function are foreign
    numerics and enter as parameters. */
module Analysis {
  import opened Wagers
  import opened Metrics
  import opened DrawdownTracker
  import opened Segmentation
  import opened Significance

  /** Below this many records the deep analysis is refused. */
  const MIN_SAMPLE: nat := 100

  datatype Option<T> = None | Some(value: T)

  /** The overview: entries, ROI, win rate and the bankroll curve. */
  datatype Overview = Overview(entries: nat, roi: real, winRate: real, bankroll: seq<real>)

  /** The deep-analysis report, with the four segment tables. */
  datatype Report = Report(
    total: nat,
    winRate: real,
    meanOdd: real,
    breakeven: real,
    ev: real,
    z: real,
    pValue: real,
    drawdown: real,
    verdict: Verdict,
    byBetType: seq<Row>,
    byLine: seq<Row>,
    byContext: seq<Row>,
    byConfidence: seq<Row>
  )

  /** The overview tab: nothing for an empty store. */
  function OverviewOf(rs: seq<Wager>): (o: Option<Overview>)
    ensures o.None? <==> rs == []
    ensures o.Some? ==>
      && o.value.entries == |rs|
      && o.value.roi == Roi(rs)
      && o.value.winRate == WinRate(rs) && 0.0 <= o.value.winRate <= 1.0
      && o.value.bankroll == Bankroll(Project(rs, Profit))
      && |o.value.bankroll| == |rs|
      && o.value.bankroll[|rs| - 1] == TotalProfit(rs)
  {
    if rs == [] then None
    else
      var profits := Project(rs, Profit);
      BankrollEndsAtTotal(profits);
      Some(Overview(|rs|, Roi(rs), WinRate(rs), Bankroll(profits)))
  }

  /** The deep-analysis tab. */
  method DeepAnalysis(rs: seq<Wager>, sqrt: real -> real, normCdf: real -> real)
    returns (report: Option<Report>)
    ensures report.None? <==> |rs| < MIN_SAMPLE
    ensures report.Some? ==>
      var r := report.value;
      && r.total == |rs|
      && r.winRate == WinRate(rs) && 0.0 <= r.winRate <= 1.0
      && r.meanOdd == MeanOdd(rs)
      && r.breakeven == Breakeven(r.meanOdd)
      && r.ev == ExpectedValue(rs)
      && r.z == ZScore(r.winRate, r.breakeven, sqrt(SquaredStandardError(r.winRate, r.total)))
      && r.pValue == 1.0 - normCdf(r.z)
      && r.drawdown == Drawdown(Project(rs, Profit)) && r.drawdown <= 0.0
      && r.verdict == Classify(r.pValue, r.ev)
      && (TotalStake(rs) > 0.0 ==> (r.verdict != Negative <==> Roi(rs) > 0.0))
      && r.byBetType == Segments(rs, BetType)
      && r.byLine == Segments(rs, Line)
      && r.byContext == Segments(rs, Context)
      && r.byConfidence == Segments(rs, Confidence)
  {
    if |rs| < MIN_SAMPLE {
      return None;
    }
    var profits := Project(rs, Profit);
    var total := |rs|;
    var winRate := WinRate(rs);
    var meanOdd := MeanOdd(rs);
    var breakeven := Breakeven(meanOdd);
    var ev := ExpectedValue(rs);

    var se := sqrt(SquaredStandardError(winRate, total));
    var z := ZScore(winRate, breakeven, se);
    var pValue := 1.0 - normCdf(z);

    var drawdown := MaxDrawdown(profits);

    var verdict := Classify(pValue, ev);
    if TotalStake(rs) > 0.0 {
      EvAndRoiAgreeInSign(rs);
    }

    var byBetType := SegmentedAnalysis(rs, BetType);
    var byLine := SegmentedAnalysis(rs, Line);
    var byContext := SegmentedAnalysis(rs, Context);
    var byConfidence := SegmentedAnalysis(rs, Confidence);
    report := Some(Report(total, winRate, meanOdd, breakeven, ev, z, pValue, drawdown,
                          verdict, byBetType, byLine, byContext, byConfidence));
  }
}
