/** The round engine of Services/BaccaratGameService.cs (`PlayBaccarat`): deal
    from a shuffled deck, apply the player's and the banker's third-card rules,
    pick the winner and settle the bet. The random shuffle is not part of the
    engine: the deck arrives already ordered. */
module Engine {
  import opened Wrappers
  import opened Numerics
  import opened Text
  import opened Cards
  import opened Models

  /** The spelling the engine uses for an outcome when it compares it with the
      bet. */
  function BetName(b: BetType): (s: string)
    ensures s in {"player", "banker", "tie"}
  {
    match b
    case Player => "player"
    case Banker => "banker"
    case Tie => "tie"
  }

  /** `Enum.TryParse<BaccaratBetType>(bet, ignoreCase: true)`: the bet, without
      surrounding white space and compared case-insensitively, names one of
      the three members. */
  function ParseBetType(bet: string): (r: Option<BetType>)
    ensures r.Some? <==> ToLowerInvariant(Trim(bet)) in {"player", "banker", "tie"}
  {
    var key := ToLowerInvariant(Trim(bet));
    if key == "player" then Some(Player)
    else if key == "banker" then Some(Banker)
    else if key == "tie" then Some(Tie)
    else None
  }

  /** Parsing the engine's own spelling of an outcome gives that outcome back,
      so no two outcomes share a spelling. */
  lemma ParseBetName(b: BetType)
    ensures ParseBetType(BetName(b)) == Some(b)
  {
    NormalName(b);
    ParseNormalName(BetName(b), b);
  }

  /** The engine's spellings are already trimmed and lower-case. */
  lemma NormalName(b: BetType)
    ensures ToLowerInvariant(Trim(BetName(b))) == BetName(b)
  {
    match b
    case Player => LowerLettersAreNormal("player");
    case Banker => LowerLettersAreNormal("banker");
    case Tie => LowerLettersAreNormal("tie");
  }

  lemma ParseNormalName(s: string, b: BetType)
    requires s == BetName(b) && ToLowerInvariant(Trim(s)) == s
    ensures ParseBetType(s) == Some(b)
  {
    match b
    case Player =>
    case Banker =>
      assert s[0] != "player"[0];
    case Tie =>
      assert |s| != |"player"| && |s| != |"banker"|;
  }

  /** The player takes a third card when the two-card total is at most 5; the
      banker's hand plays no part. */
  predicate PlayerDraws(playerTotal: int) {
    playerTotal <= 5
  }

  /** The banker's rule once the player has drawn a third card worth
      `thirdValue`. */
  predicate BankerDrawsAfter(bankerTotal: int, thirdValue: int) {
    if bankerTotal <= 2 then true
    else if bankerTotal == 3 then thirdValue != 8
    else if bankerTotal == 4 then 2 <= thirdValue <= 7
    else if bankerTotal == 5 then 4 <= thirdValue <= 7
    else if bankerTotal == 6 then thirdValue == 6 || thirdValue == 7
    else false
  }

  /** Whether the banker takes a third card: by its own total alone when the
      player stood, by the tableau when the player drew `playerThird`. */
  predicate BankerDraws(bankerTotal: int, playerThird: Option<Card>) {
    match playerThird
    case None => bankerTotal <= 5
    case Some(card) => BankerDrawsAfter(bankerTotal, CardValue(card))
  }

  /** The banker's drawing tableau as printed for the game: row = banker's
      total 0..9, column = value 0..9 of the player's third card, `D` = draw,
      `S` = stand. */
  const Tableau: seq<string> := [
    "DDDDDDDDDD", // 0
    "DDDDDDDDDD", // 1
    "DDDDDDDDDD", // 2
    "DDDDDDDDSD", // 3
    "SSDDDDDDSS", // 4
    "SSSSDDDDSS", // 5
    "SSSSSSDDSS", // 6
    "SSSSSSSSSS", // 7
    "SSSSSSSSSS", // 8
    "SSSSSSSSSS"  // 9
  ]

  /** On every total and card value a real hand can have, the banker's rule
      agrees with the printed tableau. */
  lemma BankerRuleIsTableau(bankerTotal: int, thirdValue: int)
    requires 0 <= bankerTotal <= 9 && 0 <= thirdValue <= 9
    ensures BankerDrawsAfter(bankerTotal, thirdValue) <==> Tableau[bankerTotal][thirdValue] == 'D'
  {
    var row := Tableau[bankerTotal];
    if bankerTotal <= 2 {
      assert row == "DDDDDDDDDD";
    } else if bankerTotal == 3 {
      assert row == "DDDDDDDDSD";
    } else if bankerTotal == 4 {
      assert row == "SSDDDDDDSS";
    } else if bankerTotal == 5 {
      assert row == "SSSSDDDDSS";
    } else if bankerTotal == 6 {
      assert row == "SSSSSSDDSS";
    } else {
      assert row == "SSSSSSSSSS";
    }
  }

  /** The two hands after the deal and the draws. */
  datatype Hands = Hands(player: seq<Card>, banker: seq<Card>, playerTotal: int, bankerTotal: int)

  /** The order in which the cards leave the deck: player, banker, player,
      banker, then the player's third card and then the banker's. */
  function DealOrder(player: seq<Card>, banker: seq<Card>): seq<Card>
    requires 2 <= |player| && 2 <= |banker|
  {
    [player[0], banker[0], player[1], banker[1]] + player[2..] + banker[2..]
  }

  /** The deal of `PlayBaccarat`: the player gets deck positions 0 and 2 and
      the banker 1 and 3; each third card is the next unused position, so
      only positions below 6 are ever read. */
  function Deal(deck: seq<Card>): (h: Hands)
    requires |deck| >= 6
    ensures 2 <= |h.player| <= 3 && 2 <= |h.banker| <= 3
    ensures h.player[0] == deck[0] && h.player[1] == deck[2]
    ensures h.banker[0] == deck[1] && h.banker[1] == deck[3]
    ensures |h.player| == 3 <==> PlayerDraws(CalcTotal([deck[0], deck[2]]))
    ensures |h.player| == 3 ==> h.player[2] == deck[4]
    ensures |h.banker| == 3 <==>
      BankerDraws(CalcTotal([deck[1], deck[3]]), if |h.player| == 3 then Some(deck[4]) else None)
    ensures |h.banker| == 3 ==> h.banker[2] == deck[|h.player| + 2]
    ensures h.playerTotal == CalcTotal(h.player) && h.bankerTotal == CalcTotal(h.banker)
  {
    var player := [deck[0], deck[2]];
    var banker := [deck[1], deck[3]];
    var bankerTotal := CalcTotal(banker);
    var playerThird := if PlayerDraws(CalcTotal(player)) then Some(deck[4]) else None;
    var next := if playerThird.Some? then 5 else 4;
    var player' := if playerThird.Some? then player + [deck[4]] else player;
    var banker' := if BankerDraws(bankerTotal, playerThird) then banker + [deck[next]] else banker;
    Hands(player', banker', CalcTotal(player'), CalcTotal(banker'))
  }

  /** The cards leave the deck in deal order: the dealt cards are exactly the
      first `k` cards of the deck, `k` being four plus the number of third
      cards. */
  lemma DealOrderIsDeckPrefix(deck: seq<Card>)
    requires |deck| >= 6
    ensures var h := Deal(deck);
      DealOrder(h.player, h.banker) == deck[..4 + (|h.player| - 2) + (|h.banker| - 2)]
  {
    var h := Deal(deck);
    DealtInOrder(h.player, h.banker, deck);
  }

  /** Two hands whose cards sit at the deal positions of `deck` form, in deal
      order, a prefix of `deck`. */
  lemma DealtInOrder(p: seq<Card>, b: seq<Card>, deck: seq<Card>)
    requires |deck| >= 6 && 2 <= |p| <= 3 && 2 <= |b| <= 3
    requires p[0] == deck[0] && p[1] == deck[2] && b[0] == deck[1] && b[1] == deck[3]
    requires |p| == 3 ==> p[2] == deck[4]
    requires |b| == 3 ==> b[2] == deck[|p| + 2]
    ensures DealOrder(p, b) == deck[..|p| + |b|]
  {
    var order := DealOrder(p, b);
    assert |order| == |p| + |b|;
    forall i | 0 <= i < |order|
      ensures order[i] == deck[i]
    {
      if i >= 4 {
        if |p| == 3 && i == 4 {
          assert order[i] == p[2];
        } else {
          assert order[i] == b[2];
        }
      }
    }
  }

  /** Payout rate in hundredths per unit wagered: 1:1 on the player, 0.95:1
      on the banker, 8:1 on a tie. */
  function Rate(b: BetType): (cents: nat)
  {
    match b
    case Player => 100
    case Banker => 95
    case Tie => 800
  }

  /** The payout, in hundredths, for a bet spelled `bet` when `winner` won.
      The comparison is with the bet string exactly as given. The banker's
      `Math.Round(wager * 0.95m, 2)` is exact for an integer wager. The tie's
      `wager * 8` is a 32-bit `int` product and wraps. */
  function Payout(winner: BetType, bet: string, wager: int32): (cents: Money)
    ensures BetName(winner) != bet ==> cents == 0
  {
    if BetName(winner) == bet then
      match winner
      case Player => wager * Unit
      case Banker => 95 * wager
      case Tie => Wrap32(wager * 8) * Unit
    else 0
  }

  /** The payout is the winner's rate times the wager on a bet that names the
      winner, and nothing otherwise; for a tie this needs `8 * wager` to fit an
      `int`, while player and banker payouts never wrap. */
  lemma PayoutLaw(winner: BetType, bet: string, wager: int32)
    requires winner == Tie ==> MinInt32 <= 8 * wager <= MaxInt32
    ensures Payout(winner, bet, wager) == if BetName(winner) == bet then Rate(winner) * wager else 0
  {
  }

  /** Above that bound a winning tie bet of `2^28` pays a negative amount. */
  lemma TiePayoutWraps()
    ensures Payout(Tie, "tie", 0x1000_0000) == MinInt32 * Unit
  {
  }

  /** The bet type is parsed leniently but the payout compares the bet text
      exactly: a bet such as `Player` or ` tie` is recorded as the outcome it
      names and still pays nothing when that outcome wins. */
  lemma UnnormalizedBetPaysNothing(winner: BetType, bet: string, wager: int32)
    requires ToLowerInvariant(Trim(bet)) == BetName(winner) && bet != BetName(winner)
    ensures ParseBetType(bet) == Some(winner)
    ensures Payout(winner, bet, wager) == 0
  {
    ParseBetName(winner);
    NormalName(winner);
  }

  datatype EngineError = NotEnoughCards | UnknownBetType(bet: string)

  /** The text of the exception each error is thrown with. */
  function Message(e: EngineError): string {
    match e
    case NotEnoughCards => "Not enough cards in deck."
    case UnknownBetType(bet) => "Unknown bet type '" + bet + "'"
  }

  /** `PlayBaccarat` on a deck already shuffled. A deck of fewer than six
      cards fails before anything is dealt; a bet that does not parse fails
      after the round is played; otherwise the result records the round. The
      video file name is left empty. */
  function PlayBaccarat(spinId: string, bet: string, wager: int32, gameSessionId: int32, deck: seq<Card>)
    : (r: Result<BaccaratResult, EngineError>)
    ensures |deck| < 6 ==> r == Failure(NotEnoughCards)
    ensures |deck| >= 6 && ParseBetType(bet).None? ==> r == Failure(UnknownBetType(bet))
    ensures r.Success? <==> |deck| >= 6 && ParseBetType(bet).Some?
    ensures r.Success? ==>
      && WellFormed(r.value)
      && r.value.id == spinId
      && r.value.wager == wager * Unit
      && r.value.videoFile == ""
      && r.value.gameSessionId == gameSessionId
      && Some(r.value.betType) == ParseBetType(bet)
      && r.value.playerCards == Deal(deck).player
      && r.value.bankerCards == Deal(deck).banker
      && r.value.payout == Payout(r.value.winner, bet, wager)
  {
    if |deck| < 6 then Failure(NotEnoughCards)
    else
      var h := Deal(deck);
      var winner := Winner(h.playerTotal, h.bankerTotal);
      var payout := Payout(winner, bet, wager);
      match ParseBetType(bet)
      case None => Failure(UnknownBetType(bet))
      case Some(betType) =>
        assert payout != 0 ==> betType == winner by {
          if payout != 0 { ParseBetName(winner); }
        }
        var netGain := payout - wager * Unit;
        Success(BaccaratResult(
          spinId, wager * Unit, payout, netGain, "", netGain > 0, betType,
          h.player, h.banker, h.playerTotal, h.bankerTotal, winner, gameSessionId))
  }

  /** A round that fails throws "Not enough cards in deck." on a short deck
      and names the rejected bet otherwise. */
  lemma FailureMessage(spinId: string, bet: string, wager: int32, gameSessionId: int32, deck: seq<Card>)
    ensures var r := PlayBaccarat(spinId, bet, wager, gameSessionId, deck);
      r.Failure? ==>
        Message(r.error) == if |deck| < 6 then "Not enough cards in deck." else "Unknown bet type '" + bet + "'"
  {
  }

  /** Every card dealt comes from the catalog, none is the face-down `back`,
      and no card is dealt twice. */
  lemma DealtCardsFromCatalog(deck: seq<Card>, catalog: set<Card>)
    requires IsShuffleOf(deck, catalog) && |deck| >= 6
    ensures var h := Deal(deck);
      var order := DealOrder(h.player, h.banker);
      && Distinct(order)
      && (forall i :: 0 <= i < |order| ==> order[i] in catalog && order[i] != Back)
  {
    var h := Deal(deck);
    DealOrderIsDeckPrefix(deck);
    ShufflePrefix(deck, catalog, |h.player| + |h.banker|);
  }

  lemma ShufflePrefix(deck: seq<Card>, catalog: set<Card>, k: nat)
    requires IsShuffleOf(deck, catalog) && k <= |deck|
    ensures Distinct(deck[..k])
    ensures forall i :: 0 <= i < k ==> deck[..k][i] in catalog && deck[..k][i] != Back
  {
    forall i | 0 <= i < k
      ensures deck[..k][i] in catalog && deck[..k][i] != Back
    {
      assert deck[i] in (set c | c in deck);
      assert deck[i] in catalog - {Back};
    }
  }

  /** A catalog with fewer than six cards besides `back` cannot deal a round,
      whatever order the shuffle picks. */
  lemma SmallCatalogFails(spinId: string, bet: string, wager: int32, gameSessionId: int32,
                          deck: seq<Card>, catalog: set<Card>)
    requires IsShuffleOf(deck, catalog) && |catalog - {Back}| < 6
    ensures PlayBaccarat(spinId, bet, wager, gameSessionId, deck) == Failure(NotEnoughCards)
  {
    ShuffleSize(deck, catalog);
  }

  /** For a positive wager whose tie payout does not overflow, the round
      counts as a win exactly when a tie bet meets a tie: a winning player bet
      only returns the stake (net gain 0) and a winning banker bet loses the
      five per cent commission. */
  lemma WinOnlyOnTie(spinId: string, bet: string, wager: int32, gameSessionId: int32, deck: seq<Card>)
    requires 0 < wager && 8 * wager <= MaxInt32
    requires PlayBaccarat(spinId, bet, wager, gameSessionId, deck).Success?
    ensures var r := PlayBaccarat(spinId, bet, wager, gameSessionId, deck).value;
      r.win <==> bet == "tie" && r.winner == Tie
  {
    var r := PlayBaccarat(spinId, bet, wager, gameSessionId, deck).value;
    PayoutLaw(r.winner, bet, wager);
  }

  /** The player's hand depends on the player's own cards alone: two decks
      that agree at positions 0, 2 and 4 give the player the same hand, so a
      banker natural does not stop the player from drawing. */
  lemma PlayerIgnoresBanker(deck: seq<Card>, other: seq<Card>)
    requires |deck| >= 6 && |other| >= 6
    requires deck[0] == other[0] && deck[2] == other[2] && deck[4] == other[4]
    ensures Deal(deck).player == Deal(other).player
  {
    assert [deck[0], deck[2]] == [other[0], other[2]];
  }

  /** When the player stands, the banker draws on a total of at most 5 and
      stands otherwise, even against a player natural. */
  lemma BankerAfterPlayerStands(deck: seq<Card>)
    requires |deck| >= 6
    requires !PlayerDraws(CalcTotal([deck[0], deck[2]]))
    ensures |Deal(deck).banker| == 3 <==> CalcTotal([deck[1], deck[3]]) <= 5
    ensures |Deal(deck).banker| == 3 ==> Deal(deck).banker[2] == deck[4]
  {
  }
}
