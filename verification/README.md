# Baccarat round engine: a Dafny model

This project models the baccarat game service of the TeleCasino back end.
A play request arrives at `BaccaratController.PlayGame`. The controller checks
the wager and the bet, then asks `BaccaratGameService` to play one round. The
service does the following:

- deals from a shuffled deck of card names;
- applies the player's and the banker's third-card rules;
- picks the winner;
- settles the bet in a `BaccaratResult`;
- plans the frames of the round's video.

The model covers the deterministic core of that path:

- the controller's validation and normalisation;
- the service's `PlayBaccarat`, `CardValue` and `CalcTotal`;
- the frame plan of `GenerateFrames`;
- the slot arithmetic of `DrawTable`.

Everything is a pure function over immutable datatypes. Money is counted in
integer hundredths.

Modules, one per file:

- `Wrappers`: the `Option` and `Result` types.
- `Numerics`: C#'s `int`. This covers the 32-bit wrap-around of an unchecked
  product and the `%` that truncates toward zero.
- `Text`: the .NET string primitives the code calls: `Trim`,
  `IsNullOrWhiteSpace`, `ToLowerInvariant`, `StartsWith`, `Split(c)[0]` and
  `int.TryParse`.
- `Cards`: card values, hand totals, and the deck as a shuffle of the card
  catalog.
- `Models`: the `BaccaratResult` record, the winner rule and the invariant
  every round result keeps.
- `Engine`: the deal, the draw rules, the payout and `PlayBaccarat`.
- `Frames`: the frames of the video, where `DrawTable` puts each card, which
  card stays visible, and the frame file names.
- `Controller`: `PlayGame`, and a whole round as one request sees it.

How the model treats the code:

- **The deck is an argument.** The service shuffles the catalog keys other
  than `back` with `Random`. Here that shuffle is the `deck` argument.
  `IsShuffleOf` states what any shuffle satisfies.
- **No natural short-circuit.** The code has no rule that a natural 8 or 9
  ends the round, and neither does the model. The player draws on any
  two-card total of at most 5, even when the banker holds a natural
  (`Engine.PlayerIgnoresBanker`). When the player stands, the banker draws on
  a total of at most 5, even against a player natural
  (`Engine.BankerAfterPlayerStands`). Standard baccarat ends the round on a
  natural 8 or 9; this code has no such rule, and the model follows the code.
- **The video file stays empty.** The controller's doc comment
  (Controllers/BaccaratController.cs:19) promises a generated video file
  path. `PlayBaccarat` sets `VideoFile` to the empty string
  (Services/BaccaratGameService.cs:174) and `PlayGameAsync` never sets it,
  so the model returns `""`.
- **The bet is checked two different ways.** `Enum.TryParse` reads the bet
  type leniently: surrounding white space is ignored and letter case does
  not matter. The payout, however, compares the bet text exactly with
  `player`, `banker` or `tie`. So a bet spelled `Player` is recorded as a
  player bet but never pays (`Engine.UnnormalizedBetPaysNothing`). Requests
  through the controller are normalised first and always pay correctly
  (`Controller.AcceptedRoundSettles`).
- **Tie payouts wrap.** The tie payout `wager * 8` is a 32-bit `int` product.
  It wraps for wagers of 2^28 and above (`Engine.TiePayoutWraps`). The
  controller only lets 1, 2 and 5 through.
- **Third-round cards paint over earlier ones.** `DrawTable` has only four
  slots, so in a frame of five or six cards the card at position 4 lands on
  the slot of position 2, and the card at position 5 on that of position 3
  (`Frames.OverpaintedSlots`). When the player draws, every later table
  frame paints the banker's second card over the player's third card, which
  therefore never shows (`Frames.PlayerThirdCardHidden`). When the banker
  draws, the last table frame paints the banker's third card over the
  banker's first (`Frames.BankerFirstCardHidden`). When only the banker
  draws, it is thus the banker's first card that disappears, and the
  player's hand stays in view.

## Model

| member | source | states |
|---|---|---|
| Numerics.Wrap32 | Services/BaccaratGameService.cs:151 | the unchecked `int` product agrees with the exact product modulo 2^32, and equals it whenever the product fits an `int` |
| Numerics.Rem10 | Services/BaccaratGameService.cs:186-191 | C#'s `% 10`: differs from the dividend by a multiple of 10, in 0..9 for a non-negative dividend and in -9..0 for a non-positive one |
| Numerics.Rem10Unique | Services/BaccaratGameService.cs:186-191 | those three facts pin the remainder: any value meeting them is `Rem10` of the dividend |
| Numerics.Rem10Negate | Services/BaccaratGameService.cs:186-191 | negating the dividend negates the remainder, as truncation toward zero gives |
| Text.TrimBy | Controllers/BaccaratController.cs:40 | the trimmed text is the infix of the input that starts after the leading white space, and it neither starts nor ends with white space |
| Text.TrimDropsOnlyWhite | Controllers/BaccaratController.cs:40 | everything outside the trimmed infix is white space, and trimming leaves nothing exactly when the whole text is white |
| Text.TrimmedIsFixedPoint | Controllers/BaccaratController.cs:40 | trimming text that is already trimmed returns it unchanged |
| Text.Trim | Controllers/BaccaratController.cs:40 | `Trim()` leaves no white space at either end and never lengthens the text |
| Text.BlankIffTrimEmpty | Controllers/BaccaratController.cs:36-40 | a non-null bet is null-or-white-space exactly when trimming leaves nothing of it |
| Text.ToLowerInvariant | Controllers/BaccaratController.cs:40 | lower-casing keeps the length and maps every character through the invariant lower-case mapping |
| Text.LowerKeepsWhiteSpace | Controllers/BaccaratController.cs:40 | lower-casing a character neither creates nor removes white space |
| Text.LowerIdempotent | Controllers/BaccaratController.cs:40 | lower-casing twice is the same as lower-casing once |
| Text.LowerKeepsTrimmed | Controllers/BaccaratController.cs:40 | lower-casing trimmed text leaves it trimmed |
| Text.LowerLettersAreNormal | Controllers/BaccaratController.cs:39-40 | a word of lower-case letters, such as each allowed bet, is unchanged by trim plus lower-case |
| Text.FirstField | Services/BaccaratGameService.cs:188 | `Split('_')[0]` is the longest prefix without `_`: it contains no `_`, and the input continues with `_` if it is longer |
| Text.ParseInt32 | Services/BaccaratGameService.cs:188 | `int.TryParse` yields a negative number only for text that contains a minus sign |
| Text.ParseInt32OfNatToString | Services/BaccaratGameService.cs:188 | `int.TryParse` reads back the decimal spelling of every non-negative `int` as that number |
| Text.NoDigitsNoNumber | Services/BaccaratGameService.cs:188 | text without a decimal digit never parses as a number |
| Cards.CardValue | Services/BaccaratGameService.cs:186-188 | a card is worth between -9 and 9, and between 0 and 9 when its rank field has no minus sign |
| Cards.AceValue | Services/BaccaratGameService.cs:187 | every name starting with `ace_` is worth 1 |
| Cards.NumberedValue | Services/BaccaratGameService.cs:188 | a name `<n>_...` with a decimal rank `n` is worth `n % 10`, so a ten is worth 0 |
| Cards.CourtValue | Services/BaccaratGameService.cs:186-188 | a name that is not an ace and has no digit in its rank field, like a court card, is worth 0 |
| Cards.SumValues | Services/BaccaratGameService.cs:191 | the sum of card values lies within 9 times the hand size either way, and is non-negative for plain names |
| Cards.SumAfterDraw | Services/BaccaratGameService.cs:191 | adding a card to a hand adds exactly its value to the sum |
| Cards.CalcTotal | Services/BaccaratGameService.cs:190-191 | a hand total lies in -9..9, and in 0..9 for plain names |
| Cards.TotalAfterDraw | Services/BaccaratGameService.cs:116-118 | after a draw the recomputed total equals the old total plus the new card's value, modulo 10 |
| Cards.ShuffleSize | Services/BaccaratGameService.cs:98-101 | a shuffle of the catalog holds exactly as many cards as the catalog has keys other than `back` |
| Models.Winner | Services/BaccaratGameService.cs:140-144 | the player wins exactly on a higher total, the banker exactly on a higher total, and the round ties exactly on equal totals |
| Models.WinnerSwap | Services/BaccaratGameService.cs:140-144 | exchanging the two totals exchanges a player win and a banker win and keeps a tie |
| Engine.BetName | Services/BaccaratGameService.cs:140-144 | the winner is always spelled `player`, `banker` or `tie` |
| Engine.ParseBetType | Services/BaccaratGameService.cs:156-159 | `Enum.TryParse` with `ignoreCase` succeeds exactly when the trimmed, lower-cased bet is one of the three names |
| Engine.ParseBetName | Services/BaccaratGameService.cs:161-164 | the winner's spelling always parses back to that winner, so this second parse never throws |
| Engine.BankerRuleIsTableau | Services/BaccaratGameService.cs:121-131 | after a player draw, the banker's rule agrees with the standard ten-by-ten drawing tableau on every reachable total and card value |
| Engine.Deal | Services/BaccaratGameService.cs:106-138 | the player gets deck positions 0 and 2 and the banker 1 and 3; the player draws position 4 exactly when its two-card total is at most 5; the banker draws exactly under its rule; the banker's third card is position 4 or 5; totals are recomputed over the final hands |
| Engine.DealOrderIsDeckPrefix | Services/BaccaratGameService.cs:106-138 | the dealt cards, in dealing order, are exactly the first 4, 5 or 6 deck positions |
| Engine.PlayerIgnoresBanker | Services/BaccaratGameService.cs:113-119 | the player's hand depends only on deck positions 0, 2 and 4, so a banker natural does not stop the player from drawing |
| Engine.BankerAfterPlayerStands | Services/BaccaratGameService.cs:121-122 | when the player stands, the banker draws deck position 4 exactly when its total is at most 5 |
| Engine.Payout | Services/BaccaratGameService.cs:146-154 | a bet whose text is not the winner's name pays nothing |
| Engine.PayoutLaw | Services/BaccaratGameService.cs:146-154 | a winning bet pays 1, 0.95 or 8 times the wager for player, banker or tie, the tie only while `8 * wager` fits an `int`; any other bet pays 0 |
| Engine.TiePayoutWraps | Services/BaccaratGameService.cs:151 | a winning tie bet of 2^28 pays `int.MinValue` units |
| Engine.UnnormalizedBetPaysNothing | Services/BaccaratGameService.cs:146-159 | a bet that names the winner only after trimming or lower-casing parses as that winner yet pays nothing |
| Engine.PlayBaccarat | Services/BaccaratGameService.cs:96-184 | a deck of fewer than six cards fails with "Not enough cards in deck."; an unparseable bet fails; otherwise the result carries the dealt hands, their totals, the winner, the exact payout, net gain = payout - wager, win = net gain > 0, the id, the session and an empty video file |
| Engine.FailureMessage | Services/BaccaratGameService.cs:103-158 | a failed round carries "Not enough cards in deck." for a short deck, and otherwise the text `Unknown bet type '<bet>'` thrown at line 158 |
| Engine.DealtCardsFromCatalog | Services/BaccaratGameService.cs:98-138 | every dealt card is a catalog key other than `back`, and no card is dealt twice |
| Engine.SmallCatalogFails | Services/BaccaratGameService.cs:98-104 | a catalog with fewer than six keys besides `back` makes every round fail, whatever the shuffle |
| Engine.WinOnlyOnTie | Services/BaccaratGameService.cs:146-175 | for a positive wager with `8 * wager` at most `int.MaxValue` the win flag is set exactly when a tie bet meets a tie, since a winning player bet nets 0 and a winning banker bet nets a loss |
| Frames.Take | Services/BaccaratGameService.cs:197 | `Take(n)` gives the first `n` cards, or all of them when there are fewer |
| Frames.FramePlan | Services/BaccaratGameService.cs:193-201 | there are 3 frames plus one per third card; frame 0 shows four `back` cards; frame 1 shows the first two cards of each hand; the last frame is the summary of totals and winner; every other frame is a table |
| Frames.FramesRevealDealOrder | Services/BaccaratGameService.cs:193-201 | frame 1 shows the first four cards dealt, grouped by hand; each later table frame adds the next card dealt to the previous frame; the last table frame shows both complete hands |
| Frames.SlotOf | Services/BaccaratGameService.cs:226-227 | even positions go left and odd ones right; positions 0 and 1 go on the top row and all others on the bottom row |
| Frames.FirstFourSlotsDistinct | Services/BaccaratGameService.cs:226-227 | the first four positions occupy four different slots |
| Frames.SlotReused | Services/BaccaratGameService.cs:226-227 | from position 4 on, each card lands on the slot of the card two positions earlier |
| Frames.Placements | Services/BaccaratGameService.cs:218-232 | only catalog cards are painted, and no more placements than cards |
| Frames.PlacementsAreTheCatalogCards | Services/BaccaratGameService.cs:219-227 | the card at position `i` is painted at that position's slot exactly when it is in the catalog, and every painted card comes from some position at that position's slot |
| Frames.Visible | Services/BaccaratGameService.cs:231 | a slot shows a card exactly when something is painted there, and what it shows was painted there |
| Frames.OverpaintedSlots | Services/BaccaratGameService.cs:218-231 | with five or six cards, the card at position 4 is what shows on position 2's slot and the card at position 5 on position 3's |
| Frames.PlayerThirdCardHidden | Services/BaccaratGameService.cs:196-231 | when the player draws, every table frame after frame 1 has the player's third card at position 2 and shows the banker's second card on its slot |
| Frames.BankerFirstCardHidden | Services/BaccaratGameService.cs:196-231 | when the banker draws, the last table frame has the banker's first card at position 2 or 3 and shows the banker's third card on its slot |
| Frames.PadDigits | Services/BaccaratGameService.cs:234 | the `D3` format gives the index's decimal spelling with leading zeros up to exactly three digits, or the plain spelling when it is longer, and it reads back as the index |
| Frames.ThreeDigitsBelow1000 | Services/BaccaratGameService.cs:234 | `D3` writes every index below 1000 with exactly three digits |
| Frames.FrameFileName | Services/BaccaratGameService.cs:234 | a frame file is named `frame_<digits>.png` with digits that read back as the index, and is 13 characters long for an index below 1000, the `frame_%03d.png` pattern of line 265 |
| Frames.FrameFileNamesDistinct | Services/BaccaratGameService.cs:234 | different frame indices give different file names, so no frame overwrites another |
| Controller.Normalize | Controllers/BaccaratController.cs:40 | the normalised bet is never longer than the bet |
| Controller.PlayGame | Controllers/BaccaratController.cs:27-46 | a wager outside {1, 2, 5} is refused with the wager message; a valid wager with a blank bet is refused with the missing-bet message; a valid wager with a non-blank bet that does not normalise to an allowed name is refused with the bet-type message; an accepted request passes the unchanged wager and session and the normalised bet, which is an allowed name |
| Controller.WagerCheckedFirst | Controllers/BaccaratController.cs:32-34 | a bad wager is refused the same way whatever the bet and the session |
| Controller.AcceptIff | Controllers/BaccaratController.cs:32-41 | a request is accepted exactly when the wager is 1, 2 or 5 and the trimmed, lower-cased bet is `player`, `banker` or `tie` |
| Controller.NormalizeIdempotent | Controllers/BaccaratController.cs:40-43 | normalising the normalised bet again changes nothing |
| Controller.AcceptedBetParses | Controllers/BaccaratController.cs:39-43 | the bet passed to the service is the service's own spelling of some outcome, and parses as that outcome |
| Controller.PlayRound | Controllers/BaccaratController.cs:32-45 | a refused request ends with the controller's message and no round |
| Controller.RejectionIgnoresDeck | Controllers/BaccaratController.cs:32-45 | a refused request gets the same answer for every deck, because the service is never invoked |
| Controller.AcceptedFailsOnlyOnShortDeck | Controllers/BaccaratController.cs:43 | after acceptance the round fails exactly when the deck has fewer than six cards, never on the bet |
| Controller.AcceptedRoundSettles | Controllers/BaccaratController.cs:43 | an accepted round records the wager and the session; it pays the winner's rate exactly when the normalised bet names the winner; it is a win exactly when a tie bet meets a tie |

## Left out

- `PlayGameAsync` (Services/BaccaratGameService.cs:27-66) creates the result id with Nanoid and prepares, moves and deletes directories and files. All of that is file-system I/O and randomness. The model takes the id as the `spinId` argument.
- `LoadSvgsAsync` parses SVG files with a foreign library. The model keeps only the catalog's set of keys.
- The random shuffle (`OrderBy(_ => Rand.Next())`) is randomness. The deck is an argument, and `IsShuffleOf` says what any shuffle satisfies.
- The pixel work of `DrawTable` and `DrawSummary` is left out: canvas size, margins, float scaling, colours, text drawing and PNG encoding are graphics-library calls and floating point. The model keeps where each card goes, what shows, and each frame's file name.
- `AssembleVideoAsync` runs an external `ffmpeg` process asynchronously and is left out. Its exit-code check is not modelled either.
- Exceptions are modelled as `Failure` values carrying the thrown message. The second `Enum.TryParse`, on the winner, is shown never to fail (`Engine.ParseBetName`) rather than modelled as an error.
- `BaccaratResult` keeps the totals as `int`, not `decimal`. Every total is an integer.
- Hosting, dependency injection, the health endpoint and ASP.NET result types are plumbing and are left out.
- LINQ's `Sum` in `CalcTotal` is checked arithmetic. With at most three cards each worth -9..9 it cannot overflow, so it is modelled with unbounded integers.
- Text.ParseInt32: models `NumberStyles.Integer` under the invariant culture. That means white space U+0009..U+000D and U+0020 at either end, one optional `+` or `-`, ASCII digits, and the `int` range. Trailing NUL characters and culture-specific sign symbols are not modelled. Its own contract only says that a negative result needs a minus sign. What it reads is stated by `Text.ParseInt32OfNatToString` and `Text.NoDigitsNoNumber`.
- Text.ToLowerInvariant: maps only ASCII `A`..`Z` and keeps every other character. .NET also lower-cases the Kelvin sign U+212A to `k` (U+0130 it keeps unchanged). So a bet such as `BAN\u212AER` is accepted by the controller but refused by the model. No other bet is affected.
- Engine.ParseBetType: models `Enum.TryParse` by name only. Numeric strings such as `"0"` and comma-separated lists of names are also accepted by .NET but not by the model. The enum's members are taken to be `Player`, `Banker` and `Tie`.
- Cards.CardValue: its contract bounds the value. The exact values for aces, numbered cards and court cards are stated by `Cards.AceValue`, `Cards.NumberedValue` and `Cards.CourtValue`, not for every possible string.
- Text.StartsWith: compares ordinally, character by character. The code's `name.StartsWith("ace_")` uses the culture-sensitive overload, which skips ignorable characters, so a card name that begins with a soft hyphen U+00AD before `ace_` counts as an ace there but not in the model.
- Frames.Visible: takes the card painted last at a slot to be the only one showing there. That assumes every card picture is opaque and has the same shape, so that a later card covers an earlier one at the same slot completely.
- Frames are identified by their position in the plan. The running counter `f++` that numbers them is not modelled separately.
