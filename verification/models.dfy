/** The record a round produces (Models/BaccaratResult.cs), with the money
    amounts held as integer hundredths. */
module Models {
  import opened Numerics
  import opened Cards

  /** `BaccaratBetType`: the three outcomes a bet can name. */
  datatype BetType = Player | Banker | Tie

  /** An amount of money in hundredths of a unit: the service's `decimal`
      amounts all have at most two decimal places. */
  type Money = int

  /** One unit of money. */
  const Unit: Money := 100

  datatype BaccaratResult = BaccaratResult(
    id: string,
    wager: Money,
    payout: Money,
    netGain: Money,
    videoFile: string,
    win: bool,
    betType: BetType,
    playerCards: seq<Card>,
    bankerCards: seq<Card>,
    playerTotal: int,
    bankerTotal: int,
    winner: BetType,
    gameSessionId: int32)

  /** The winner of a round with the given final totals: the strictly higher
      total, or a tie. */
  function Winner(playerTotal: int, bankerTotal: int): (w: BetType)
    ensures w == Player <==> playerTotal > bankerTotal
    ensures w == Banker <==> bankerTotal > playerTotal
    ensures w == Tie <==> playerTotal == bankerTotal
  {
    if playerTotal > bankerTotal then Player
    else if bankerTotal > playerTotal then Banker
    else Tie
  }

  /** Swapping the two totals swaps a player win and a banker win and keeps a
      tie. */
  lemma WinnerSwap(playerTotal: int, bankerTotal: int)
    ensures Winner(playerTotal, bankerTotal) == Player <==> Winner(bankerTotal, playerTotal) == Banker
    ensures Winner(playerTotal, bankerTotal) == Tie <==> Winner(bankerTotal, playerTotal) == Tie
  {
  }

  /** What every result of a completed round satisfies: each hand holds two or
      three cards, the totals are the hands' totals, the winner follows from
      the totals, the net gain is the payout less the wager, the win flag says
      whether the net gain is positive, and a payout is only made on a bet that
      names the winner. */
  predicate WellFormed(r: BaccaratResult) {
    && 2 <= |r.playerCards| <= 3
    && 2 <= |r.bankerCards| <= 3
    && r.playerTotal == CalcTotal(r.playerCards)
    && r.bankerTotal == CalcTotal(r.bankerCards)
    && r.winner == Winner(r.playerTotal, r.bankerTotal)
    && r.netGain == r.payout - r.wager
    && r.win == (r.netGain > 0)
    && (r.payout != 0 ==> r.betType == r.winner)
  }
}
