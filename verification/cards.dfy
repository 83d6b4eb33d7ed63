/** Cards, their baccarat values, hand totals, and the deck a round is dealt
    from (Services/BaccaratGameService.cs, `CardValue`, `CalcTotal` and the
    deck built at the head of `PlayBaccarat`). */
module Cards {
  import opened Wrappers
  import opened Numerics
  import opened Text

  /** A card is named by the base name of its image file in the card catalog,
      for instance `ace_of_spades`, `7_of_clubs` or `king_of_hearts`. */
  type Card = string

  /** The catalog entry drawn for a face-down card; it is never dealt. */
  const Back: Card := "back"

  /** The part of a card name that `CardValue` reads as the rank. */
  function RankField(name: Card): (r: string)
    ensures '_' !in r
  {
    FirstField(name, '_')
  }

  /** A name whose rank field carries no minus sign, so that it cannot parse
      as a negative number. Every conventional card name is plain. */
  predicate IsPlain(name: Card) {
    '-' !in RankField(name)
  }

  /** The baccarat value of a card: 1 for an ace, the parsed rank modulo 10
      (with C#'s truncating `%`) when the rank field is a number, and 0 for
      every other name. */
  function CardValue(name: Card): (v: int)
    ensures -9 <= v <= 9
    ensures IsPlain(name) ==> 0 <= v <= 9
  {
    if StartsWith(name, "ace_") then 1
    else
      match ParseInt32(RankField(name))
      case Some(rank) => Rem10(rank)
      case None => 0
  }

  /** Every name of the form `ace_…` is worth 1. */
  lemma AceValue(rest: string)
    ensures CardValue("ace_" + rest) == 1
  {
    assert ("ace_" + rest)[..4] == "ace_";
  }

  /** A numbered card `<n>_…` is worth its rank modulo 10, so `10_of_…` is
      worth 0. */
  lemma NumberedValue(n: nat, rest: string)
    requires n <= MaxInt32
    ensures CardValue(NatToString(n) + "_" + rest) == n % 10
  {
    var digits := NatToString(n);
    var name := digits + "_" + rest;
    AllDigitsEach(digits);
    assert name[0] == digits[0];
    assert !StartsWith(name, "ace_");
    FieldOfDigits(digits, rest);
    ParseInt32OfNatToString(n);
  }

  lemma {:induction false} FieldOfDigits(digits: string, rest: string)
    requires forall i :: 0 <= i < |digits| ==> IsDigit(digits[i])
    ensures FirstField(digits + "_" + rest, '_') == digits
    decreases |digits|
  {
    if digits != [] {
      assert (digits + "_" + rest)[1..] == digits[1..] + "_" + rest;
      FieldOfDigits(digits[1..], rest);
    }
  }

  /** A court card or any other name whose rank field holds no digit, and that
      is not an ace, is worth 0. */
  lemma CourtValue(name: Card)
    requires !StartsWith(name, "ace_")
    requires forall i :: 0 <= i < |RankField(name)| ==> !IsDigit(RankField(name)[i])
    ensures CardValue(name) == 0
  {
    NoDigitsNoNumber(RankField(name));
  }

  /** `cards.Sum(CardValue)`. */
  function SumValues(cards: seq<Card>): (sum: int)
    ensures -9 * |cards| <= sum <= 9 * |cards|
    ensures (forall i :: 0 <= i < |cards| ==> IsPlain(cards[i])) ==> sum >= 0
  {
    if cards == [] then 0
    else SumValues(cards[..|cards| - 1]) + CardValue(cards[|cards| - 1])
  }

  /** The sum grows by the value of each card added to the hand. */
  lemma SumAfterDraw(hand: seq<Card>, card: Card)
    ensures SumValues(hand + [card]) == SumValues(hand) + CardValue(card)
  {
    assert (hand + [card])[..|hand|] == hand;
  }

  /** The baccarat total of a hand: the sum of its card values, reduced with
      C#'s `% 10`. */
  function CalcTotal(cards: seq<Card>): (total: int)
    ensures -9 <= total <= 9
    ensures (forall i :: 0 <= i < |cards| ==> IsPlain(cards[i])) ==> 0 <= total <= 9
  {
    Rem10(SumValues(cards))
  }

  /** For plain cards, adding a card to a hand adds its value to the total,
      modulo 10. */
  lemma TotalAfterDraw(hand: seq<Card>, card: Card)
    requires forall i :: 0 <= i < |hand| ==> IsPlain(hand[i])
    requires IsPlain(card)
    ensures CalcTotal(hand + [card]) == (CalcTotal(hand) + CardValue(card)) % 10
  {
    SumAfterDraw(hand, card);
    RemainderStep(SumValues(hand), CardValue(card), SumValues(hand + [card]),
      CalcTotal(hand), CalcTotal(hand + [card]));
  }

  /** The arithmetic behind `TotalAfterDraw`, kept apart from card names so
      that it is proved on bare integers. */
  lemma RemainderStep(sum: int, value: int, next: int, total: int, nextTotal: int)
    requires sum >= 0 && value >= 0 && next == sum + value
    requires total == Rem10(sum) && nextTotal == Rem10(next)
    ensures nextTotal == (total + value) % 10
  {
    var q := sum / 10;
    assert sum + value == 10 * q + (sum % 10 + value);
  }

  predicate Distinct(s: seq<Card>) {
    forall i, j :: 0 <= i < j < |s| ==> s[i] != s[j]
  }

  /** `deck` is an ordering of every catalog key except `back`, each once: what
      the service's random `OrderBy` over the catalog yields. */
  predicate IsShuffleOf(deck: seq<Card>, catalog: set<Card>) {
    Distinct(deck) && (set c | c in deck) == catalog - {Back}
  }

  lemma {:induction false} DistinctCardinality(s: seq<Card>)
    requires Distinct(s)
    ensures |set c | c in s| == |s|
    decreases |s|
  {
    if s != [] {
      var rest := s[..|s| - 1];
      assert (set c | c in s) == (set c | c in rest) + {s[|s| - 1]};
      assert s[|s| - 1] !in rest;
      DistinctCardinality(rest);
    }
  }

  /** A shuffle holds exactly as many cards as the catalog has keys other than
      `back`. */
  lemma ShuffleSize(deck: seq<Card>, catalog: set<Card>)
    requires IsShuffleOf(deck, catalog)
    ensures |deck| == |catalog - {Back}|
  {
    DistinctCardinality(deck);
  }
}
