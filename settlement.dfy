/** The settlement of one bet against the round's crash point: the checks of
    the command-line driver without their console input and output. */
module Settlement {
  import Crash

  datatype BetResult =
    | BadMultiplier      // the cash-out multiplier is below 1
    | BadCashIn          // the stake is not positive
    | Lose               // the game crashed before the multiplier was reached
    | Win(payout: real)  // the stake times the multiplier

  /** The multiplier is checked before the stake; a valid bet wins exactly
      when its multiplier does not exceed the crash point. */
  function Settle(crashPoint: real, cashIn: real, multiplier: real): (r: BetResult)
    ensures r == BadMultiplier <==> multiplier < 1.0
    ensures r == BadCashIn <==> multiplier >= 1.0 && cashIn <= 0.0
    ensures r == Lose <==> multiplier >= 1.0 && cashIn > 0.0 && multiplier > crashPoint
    ensures r.Win? <==> multiplier >= 1.0 && cashIn > 0.0 && multiplier <= crashPoint
    ensures r.Win? ==> r.payout == cashIn * multiplier
  {
    if multiplier < 1.0 then BadMultiplier
    else if cashIn <= 0.0 then BadCashIn
    else if multiplier > crashPoint then Lose
    else Win(cashIn * multiplier)
  }

  /** A win never returns less than the stake nor more than the stake times
      the crash point. */
  lemma WinBounds(crashPoint: real, cashIn: real, multiplier: real)
    requires Settle(crashPoint, cashIn, multiplier).Win?
    ensures cashIn <= Settle(crashPoint, cashIn, multiplier).payout <= cashIn * crashPoint
  {
    assert cashIn * 1.0 <= cashIn * multiplier <= cashIn * crashPoint;
  }

  /** A bet that wins still wins with any smaller valid multiplier. */
  lemma SmallerMultiplierStillWins(crashPoint: real, cashIn: real, m1: real, m2: real)
    requires 1.0 <= m1 <= m2
    requires Settle(crashPoint, cashIn, m2).Win?
    ensures Settle(crashPoint, cashIn, m1) == Win(cashIn * m1)
  {
  }

  /** Because every crash point is at least 1, cashing out at 1 wins back the
      stake in every round. */
  lemma CashOutAtOneAlwaysWins(n: nat, rtp: real, cashIn: real)
    requires cashIn > 0.0
    ensures Settle(Crash.CrashFormula(n, rtp), cashIn, 1.0) == Win(cashIn)
  {
  }
}
