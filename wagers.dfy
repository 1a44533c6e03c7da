/** The wager record and the per-wager profit model (calcular_lucro). */
module Wagers {

  /** One settled wager. Only the fields the analytics read are kept; the
      date, competition and match labels are never used by the analytics.
      The outcome is the free string stored in the record store. */
  datatype Wager = Wager(
    betType: string,     // "tipo": "Over" or "Under"
    line: real,          // "linha"
    odd: real,           // "odd", decimal odds
    stake: real,         // "stake"
    context: string,     // "ritmo": match state at minute 60
    confidence: string,  // "confianca"
    outcome: string      // "resultado": "Win", "Loss" or "Void"
  )

  /** The categorical columns the segmented analysis groups by. */
  datatype Column = BetType | Line | Context | Confidence

  /** The value of one cell of such a column: text, or the numeric line. */
  datatype Cell = Label(text: string) | Number(value: real)

  function ValueAt(w: Wager, c: Column): Cell {
    match c
    case BetType => Label(w.betType)
    case Line => Number(w.line)
    case Context => Label(w.context)
    case Confidence => Label(w.confidence)
  }

  /** What the bookmaker hands back when the wager settles: stake times odds
      on a win, nothing on a loss, the stake itself otherwise (a refund). */
  function Payout(w: Wager): real {
    if w.outcome == "Win" then w.odd * w.stake
    else if w.outcome == "Loss" then 0.0
    else w.stake
  }

  /** Realised profit of one wager. Every outcome other than "Win" and
      "Loss" (a Void, or any unrecognised string) is worth nothing. */
  function Profit(w: Wager): (r: real)
    ensures w.outcome != "Win" && w.outcome != "Loss" ==> r == 0.0
    ensures w.stake >= 0.0 && w.odd >= 0.0 ==> r >= -w.stake
    ensures w.stake > 0.0 && w.odd > 0.0 ==> (r == -w.stake <==> w.outcome == "Loss")
    ensures w.stake > 0.0 && w.odd > 1.0 ==> (r > 0.0 <==> w.outcome == "Win")
  {
    if w.outcome == "Win" then WinGain(w.odd, w.stake)
    else if w.outcome == "Loss" then -w.stake
    else 0.0
  }

  /** The profit of a winning wager: the odds less the returned stake,
      times the stake. */
  function WinGain(odd: real, stake: real): (g: real)
    ensures stake >= 0.0 && odd >= 0.0 ==> g >= -stake
    ensures stake > 0.0 && odd > 0.0 ==> g != -stake
    ensures stake > 0.0 && odd > 1.0 ==> g > 0.0
  {
    assert (odd - 1.0) * stake == odd * stake - stake;
    ProductSign(odd, stake);
    ProductSign(odd - 1.0, stake);
    (odd - 1.0) * stake
  }

  lemma ProductSign(a: real, b: real)
    ensures a > 0.0 && b > 0.0 ==> a * b > 0.0
    ensures a >= 0.0 && b >= 0.0 ==> a * b >= 0.0
  {
  }

  /** Profit is what comes back minus what was risked. */
  lemma ProfitIsPayoutMinusStake(w: Wager)
    ensures Profit(w) == Payout(w) - w.stake
  {
  }

  /** 1 for a winning wager, 0 otherwise: the boolean column
      (resultado == "Win") whose mean is the win rate. */
  function Hit(w: Wager): (r: real)
    ensures r == 0.0 || r == 1.0
    ensures r == 1.0 <==> w.outcome == "Win"
  {
    if w.outcome == "Win" then 1.0 else 0.0
  }

  function StakeOf(w: Wager): real { w.stake }

  function OddOf(w: Wager): real { w.odd }

  /** The records a well-formed store holds: positive stake, odds at least 1. */
  predicate WellFormed(w: Wager) {
    w.stake > 0.0 && w.odd >= 1.0
  }
}
