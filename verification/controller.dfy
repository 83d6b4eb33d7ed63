/** The request validation of `PlayGame` in Controllers/BaccaratController.cs,
    and a whole round as a request sees it: validation, then the engine. */
module Controller {
  import opened Wrappers
  import opened Numerics
  import opened Text
  import opened Cards
  import opened Models
  import opened Engine

  /** What `PlayGame` does with a request: answer 400 with a message, or call
      the service with these arguments. */
  datatype Response =
    | BadRequest(message: string)
    | Play(wager: int32, bet: string, gameSessionId: int32)

  const WagerMessage := "Wager must be either 1, 2, or 5."
  const MissingBetMessage := "You must specify a bet type (player, banker, tie)."
  const BetMessage := "Bet type must be 'player', 'banker', or 'tie'."

  /** The wagers the controller accepts. */
  predicate ValidWager(wager: int) {
    wager == 1 || wager == 2 || wager == 5
  }

  /** The bet spellings the controller accepts once normalised. */
  predicate AllowedBet(bet: string) {
    bet == "player" || bet == "banker" || bet == "tie"
  }

  /** `bet.Trim().ToLowerInvariant()`. */
  function Normalize(bet: string): (key: string)
    ensures |key| <= |bet|
  {
    ToLowerInvariant(Trim(bet))
  }

  /** `PlayGame`: the wager is checked first, then that a bet is given, then
      that the normalised bet is allowed. `None` stands for a missing (null)
      bet. */
  function PlayGame(wager: int32, bet: Option<string>, gameSessionId: int32): (resp: Response)
    ensures !ValidWager(wager) ==> resp == BadRequest(WagerMessage)
    ensures ValidWager(wager) && IsNullOrWhiteSpace(bet) ==> resp == BadRequest(MissingBetMessage)
    ensures ValidWager(wager) && !IsNullOrWhiteSpace(bet) && !AllowedBet(Normalize(bet.value)) ==>
      resp == BadRequest(BetMessage)
    ensures resp.Play? ==> bet.Some? && resp == Play(wager, Normalize(bet.value), gameSessionId)
    ensures resp.Play? ==> ValidWager(resp.wager) && AllowedBet(resp.bet)
  {
    if !ValidWager(wager) then BadRequest(WagerMessage)
    else if IsNullOrWhiteSpace(bet) then BadRequest(MissingBetMessage)
    else if !AllowedBet(Normalize(bet.value)) then BadRequest(BetMessage)
    else Play(wager, Normalize(bet.value), gameSessionId)
  }

  /** A wager outside {1, 2, 5} is rejected whatever the bet and the session. */
  lemma WagerCheckedFirst(wager: int32, bet: Option<string>, otherBet: Option<string>,
                          gameSessionId: int32, otherSessionId: int32)
    requires !ValidWager(wager)
    ensures PlayGame(wager, bet, gameSessionId) == PlayGame(wager, otherBet, otherSessionId)
    ensures PlayGame(wager, bet, gameSessionId).BadRequest?
  {
  }

  /** A request is accepted exactly when its wager is valid and its bet, once
      trimmed and lower-cased, is `player`, `banker` or `tie`; a blank bet never
      normalises to one of those. */
  lemma AcceptIff(wager: int32, bet: Option<string>, gameSessionId: int32)
    ensures PlayGame(wager, bet, gameSessionId).Play? <==>
      ValidWager(wager) && bet.Some? && AllowedBet(Normalize(bet.value))
  {
    if bet.Some? && AllowedBet(Normalize(bet.value)) {
      BlankIffTrimEmpty(bet.value);
      assert |Normalize(bet.value)| > 0;
    }
  }

  /** Normalising a normalised bet changes nothing. */
  lemma NormalizeIdempotent(bet: string)
    ensures Normalize(Normalize(bet)) == Normalize(bet)
  {
    var t := Trim(bet);
    LowerKeepsTrimmed(t);
    TrimmedIsFixedPoint(ToLowerInvariant(t), CharWhiteSpace);
    LowerIdempotent(t);
  }

  /** The bet the controller passes on is the engine's own spelling of an
      outcome, so the engine parses it to that outcome. */
  lemma AcceptedBetParses(wager: int32, bet: Option<string>, gameSessionId: int32)
    requires PlayGame(wager, bet, gameSessionId).Play?
    ensures var key := PlayGame(wager, bet, gameSessionId).bet;
      exists b :: BetName(b) == key && ParseBetType(key) == Some(b)
  {
    var key := PlayGame(wager, bet, gameSessionId).bet;
    var b := if key == "player" then Player else if key == "banker" then Banker else Tie;
    ParseBetName(b);
  }

  /** Why a request produced no result. */
  datatype RoundError =
    | Rejected(message: string)
    | ServiceFailed(error: EngineError)

  /** A request from validation to result, with the round played on `deck`
      (the shuffle the service would have drawn) under the identifier
      `spinId`. The service is called only for an accepted request. */
  function PlayRound(wager: int32, bet: Option<string>, gameSessionId: int32, spinId: string, deck: seq<Card>)
    : (r: Result<BaccaratResult, RoundError>)
    ensures PlayGame(wager, bet, gameSessionId).BadRequest? ==>
      r == Failure(Rejected(PlayGame(wager, bet, gameSessionId).message))
  {
    match PlayGame(wager, bet, gameSessionId)
    case BadRequest(message) => Failure(Rejected(message))
    case Play(w, key, sid) =>
      match PlayBaccarat(spinId, key, w, sid, deck)
      case Success(result) => Success(result)
      case Failure(e) => Failure(ServiceFailed(e))
  }

  /** A rejected request gets the same answer whatever the deck: no card is
      dealt for it. */
  lemma RejectionIgnoresDeck(wager: int32, bet: Option<string>, gameSessionId: int32,
                             spinId: string, deck: seq<Card>, otherDeck: seq<Card>)
    requires PlayGame(wager, bet, gameSessionId).BadRequest?
    ensures PlayRound(wager, bet, gameSessionId, spinId, deck)
         == PlayRound(wager, bet, gameSessionId, spinId, otherDeck)
  {
  }

  /** An accepted request gets the engine's answer for the normalised bet. */
  lemma AcceptedRoundIsEngineRound(wager: int32, bet: Option<string>, gameSessionId: int32,
                                   spinId: string, deck: seq<Card>)
    requires PlayGame(wager, bet, gameSessionId).Play?
    ensures var e := PlayBaccarat(spinId, Normalize(bet.value), wager, gameSessionId, deck);
      PlayRound(wager, bet, gameSessionId, spinId, deck)
        == if e.Success? then Success(e.value) else Failure(ServiceFailed(e.error))
  {
  }

  /** Once a request is accepted the engine never fails on the bet: the only
      failure left is a deck of fewer than six cards. */
  lemma AcceptedFailsOnlyOnShortDeck(wager: int32, bet: Option<string>, gameSessionId: int32,
                                     spinId: string, deck: seq<Card>)
    requires PlayGame(wager, bet, gameSessionId).Play?
    ensures PlayRound(wager, bet, gameSessionId, spinId, deck).Failure? <==> |deck| < 6
    ensures |deck| < 6 ==> PlayRound(wager, bet, gameSessionId, spinId, deck) == Failure(ServiceFailed(NotEnoughCards))
  {
    AcceptedBetParses(wager, bet, gameSessionId);
    AcceptedRoundIsEngineRound(wager, bet, gameSessionId, spinId, deck);
  }

  /** An accepted round records the wager, the session and the bet as given,
      pays the winner's rate on a bet that names the winner and nothing
      otherwise, and counts as a win exactly when a tie bet meets a tie. */
  lemma AcceptedRoundSettles(wager: int32, bet: Option<string>, gameSessionId: int32,
                             spinId: string, deck: seq<Card>)
    requires PlayGame(wager, bet, gameSessionId).Play? && |deck| >= 6
    ensures var key := Normalize(bet.value);
      var r := PlayRound(wager, bet, gameSessionId, spinId, deck);
      && r.Success?
      && r.value.wager == wager * Unit
      && r.value.gameSessionId == gameSessionId
      && BetName(r.value.betType) == key
      && r.value.payout == (if key == BetName(r.value.winner) then Rate(r.value.winner) * wager else 0)
      && (r.value.win <==> key == "tie" && r.value.winner == Tie)
  {
    var key := Normalize(bet.value);
    AcceptedBetParses(wager, bet, gameSessionId);
    AcceptedRoundIsEngineRound(wager, bet, gameSessionId, spinId, deck);
    EngineSettles(spinId, key, wager, gameSessionId, deck);
  }

  /** The engine's settlement of a bet spelled the engine's way, for a wager
      the controller accepts. */
  lemma EngineSettles(spinId: string, key: string, wager: int32, gameSessionId: int32, deck: seq<Card>)
    requires |deck| >= 6 && ValidWager(wager)
    requires exists b :: BetName(b) == key && ParseBetType(key) == Some(b)
    ensures var r := PlayBaccarat(spinId, key, wager, gameSessionId, deck);
      && r.Success?
      && r.value.wager == wager * Unit
      && r.value.gameSessionId == gameSessionId
      && BetName(r.value.betType) == key
      && r.value.payout == (if key == BetName(r.value.winner) then Rate(r.value.winner) * wager else 0)
      && (r.value.win <==> key == "tie" && r.value.winner == Tie)
  {
    var r := PlayBaccarat(spinId, key, wager, gameSessionId, deck);
    PayoutLaw(r.value.winner, key, wager);
    WinOnlyOnTie(spinId, key, wager, gameSessionId, deck);
  }
}
