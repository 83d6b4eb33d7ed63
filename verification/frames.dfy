/** The frame plan of a round (Services/BaccaratGameService.cs,
    `GenerateFrames` and the placement arithmetic of `DrawTable`): which
    picture each frame shows, where each card goes on the table, and the name
    of each frame's file. The pixels themselves are not modelled. */
module Frames {
  import opened Wrappers
  import opened Text
  import opened Cards
  import opened Models
  import opened Engine

  /** A frame of the round's video: the table with some cards laid out, or the
      closing summary of the totals and the winner. */
  datatype Frame =
    | Table(cards: seq<Card>)
    | Summary(playerTotal: int, bankerTotal: int, winner: BetType)

  /** LINQ's `Take(n)`: the first `n` elements, or all of them when there are
      fewer. */
  function Take(s: seq<Card>, n: nat): (r: seq<Card>)
    ensures |r| == if |s| < n then |s| else n
    ensures r == s[..|r|]
  {
    if |s| < n then s else s[..n]
  }

  /** The frames `GenerateFrames` draws for the result `r`, in order: four
      face-down cards, the first two cards of each hand, the player's third
      card if there is one, the banker's third card if there is one, and the
      summary. The position in the sequence is the frame's index. */
  function FramePlan(r: BaccaratResult): (plan: seq<Frame>)
    ensures |plan| == 3 + (if |r.playerCards| == 3 then 1 else 0) + (if |r.bankerCards| == 3 then 1 else 0)
    ensures plan[0] == Table([Back, Back, Back, Back])
    ensures plan[1] == Table(Take(r.playerCards, 2) + Take(r.bankerCards, 2))
    ensures plan[|plan| - 1] == Summary(r.playerTotal, r.bankerTotal, r.winner)
    ensures forall k :: 0 <= k < |plan| - 1 ==> plan[k].Table?
  {
    var p := r.playerCards;
    var b := r.bankerCards;
    [Table([Back, Back, Back, Back]), Table(Take(p, 2) + Take(b, 2))]
    + (if |p| == 3 then [Table(p + Take(b, 2))] else [])
    + (if |b| == 3 then [Table(p + b)] else [])
    + [Summary(r.playerTotal, r.bankerTotal, r.winner)]
  }

  /** `after` is `before` with `card` inserted at some position. */
  predicate InsertedInto(after: seq<Card>, before: seq<Card>, card: Card) {
    exists j :: 0 <= j <= |before| && after == before[..j] + [card] + before[j..]
  }

  /** Once the face-down frame is past, the table frames of a round with two or
      three cards per hand follow the deal: the first shows the first four
      cards dealt, regrouped by hand; each later one adds the next card dealt
      to the one before; and the last one shows every card of both hands. */
  lemma FramesRevealDealOrder(r: BaccaratResult)
    requires 2 <= |r.playerCards| <= 3 && 2 <= |r.bankerCards| <= 3
    ensures var plan := FramePlan(r);
      var order := DealOrder(r.playerCards, r.bankerCards);
      && |plan| == |order| - 1
      && plan[1].cards == [order[0], order[2], order[1], order[3]]
      && (forall k :: 1 <= k < |plan| - 2 ==> InsertedInto(plan[k + 1].cards, plan[k].cards, order[3 + k]))
      && plan[|plan| - 2].cards == r.playerCards + r.bankerCards
  {
    var p := r.playerCards;
    var b := r.bankerCards;
    var plan := FramePlan(r);
    var order := DealOrder(p, b);
    assert Take(p, 2) == p[..2] && Take(b, 2) == b[..2];
    assert plan[1].cards == [p[0], p[1], b[0], b[1]];
    forall k | 1 <= k < |plan| - 2
      ensures InsertedInto(plan[k + 1].cards, plan[k].cards, order[3 + k])
    {
      if k == 1 && |p| == 3 {
        // the player's third card goes after the player's first two
        assert plan[2].cards == p + b[..2];
        assert plan[2].cards == plan[1].cards[..2] + [p[2]] + plan[1].cards[2..];
      } else if k == 1 {
        // no player draw: the banker's third card goes at the end
        assert plan[2].cards == p + b;
        assert plan[2].cards == plan[1].cards[..4] + [b[2]] + plan[1].cards[4..];
      } else {
        // both drew: the banker's third card goes at the end
        assert plan[2].cards == p + b[..2] && plan[3].cards == p + b;
        assert plan[3].cards == plan[2].cards[..5] + [b[2]] + plan[2].cards[5..];
      }
    }
  }

  /** The two columns and the two rows of the table. */
  datatype Column = Left | Right
  datatype Row = Top | Bottom

  /** A place on the table a card can be drawn at. */
  datatype Slot = Slot(column: Column, row: Row)

  /** Where `DrawTable` puts the card at position `i` of its list: even
      positions on the left, odd on the right; the first two on the top row,
      all others on the bottom row. */
  function SlotOf(i: nat): (s: Slot)
    ensures s.column == Left <==> i % 2 == 0
    ensures s.row == Top <==> i < 2
  {
    Slot(if i % 2 == 0 then Left else Right, if i < 2 then Top else Bottom)
  }

  /** The first four positions fill the four slots, one each. */
  lemma FirstFourSlotsDistinct(i: nat, j: nat)
    requires i < 4 && j < 4 && i != j
    ensures SlotOf(i) != SlotOf(j)
  {
  }

  /** There are only four slots: from position 4 on, each card lands on the
      slot of the card two places before it. */
  lemma SlotReused(i: nat)
    requires i >= 4
    ensures SlotOf(i) == SlotOf(i - 2)
  {
  }

  /** One card drawn by `DrawTable`: the card and the slot it is painted on. */
  datatype Placement = Placement(card: Card, slot: Slot)

  /** The cards `DrawTable` paints, in painting order. A card whose name is not
      in the catalog is skipped, but it still takes up its position, so the
      cards after it keep their slots. */
  function Placements(catalog: set<Card>, cards: seq<Card>): (drawn: seq<Placement>)
    ensures |drawn| <= |cards|
    ensures forall k :: 0 <= k < |drawn| ==> drawn[k].card in catalog
    decreases |cards|
  {
    if cards == [] then []
    else
      var n := |cards| - 1;
      Placements(catalog, cards[..n])
      + (if cards[n] in catalog then [Placement(cards[n], SlotOf(n))] else [])
  }

  /** A card at position `i` is painted, at `SlotOf(i)`, exactly when its name
      is in the catalog, and only such cards are painted. */
  lemma {:induction false} PlacementsAreTheCatalogCards(catalog: set<Card>, cards: seq<Card>)
    ensures forall i :: 0 <= i < |cards| && cards[i] in catalog ==>
      Placement(cards[i], SlotOf(i)) in Placements(catalog, cards)
    ensures forall q :: q in Placements(catalog, cards) ==>
      exists i :: 0 <= i < |cards| && cards[i] == q.card && SlotOf(i) == q.slot
    decreases |cards|
  {
    if cards != [] {
      var n := |cards| - 1;
      var prefix := cards[..n];
      PlacementsAreTheCatalogCards(catalog, prefix);
      forall q | q in Placements(catalog, cards)
        ensures exists i :: 0 <= i < |cards| && cards[i] == q.card && SlotOf(i) == q.slot
      {
        if q in Placements(catalog, prefix) {
          var i :| 0 <= i < |prefix| && prefix[i] == q.card && SlotOf(i) == q.slot;
          assert cards[i] == prefix[i];
        } else {
          assert cards[n] == q.card && SlotOf(n) == q.slot;
        }
      }
      forall i | 0 <= i < |cards| && cards[i] in catalog
        ensures Placement(cards[i], SlotOf(i)) in Placements(catalog, cards)
      {
        if i < n {
          assert cards[i] == prefix[i];
        }
      }
    }
  }

  /** The card left showing at `slot` once every placement is painted: the one
      painted there last. */
  function Visible(drawn: seq<Placement>, slot: Slot): (shown: Option<Card>)
    ensures shown.Some? <==> exists k :: 0 <= k < |drawn| && drawn[k].slot == slot
    ensures shown.Some? ==> exists k :: 0 <= k < |drawn| && drawn[k] == Placement(shown.value, slot)
    decreases |drawn|
  {
    if drawn == [] then None
    else if drawn[|drawn| - 1].slot == slot then Some(drawn[|drawn| - 1].card)
    else
      var earlier := Visible(drawn[..|drawn| - 1], slot);
      assert forall k :: 0 <= k < |drawn| - 1 ==> drawn[..|drawn| - 1][k] == drawn[k];
      earlier
  }

  /** A placement painted after every other one at its slot is what shows
      there. */
  lemma {:induction false} LastPaintedShows(drawn: seq<Placement>, k: nat)
    requires k < |drawn|
    requires forall j :: k < j < |drawn| ==> drawn[j].slot != drawn[k].slot
    ensures Visible(drawn, drawn[k].slot) == Some(drawn[k].card)
    decreases |drawn|
  {
    if k < |drawn| - 1 {
      var earlier := drawn[..|drawn| - 1];
      assert earlier[k] == drawn[k];
      LastPaintedShows(earlier, k);
    }
  }

  /** With five or six cards on the table the four slots are shared: the card
      at position 4 is painted over the one at position 2, and the card at
      position 5 over the one at position 3. */
  lemma OverpaintedSlots(catalog: set<Card>, cards: seq<Card>)
    requires 5 <= |cards| <= 6
    ensures cards[4] in catalog ==>
      Visible(Placements(catalog, cards), SlotOf(2)) == Some(cards[4])
    ensures |cards| == 6 && cards[5] in catalog ==>
      Visible(Placements(catalog, cards), SlotOf(3)) == Some(cards[5])
  {
    if cards[4] in catalog {
      FifthCardShows(catalog, cards);
    }
    if |cards| == 6 && cards[5] in catalog {
      SixthCardShows(catalog, cards);
    }
  }

  lemma FifthCardShows(catalog: set<Card>, cards: seq<Card>)
    requires 5 <= |cards| <= 6 && cards[4] in catalog
    ensures Visible(Placements(catalog, cards), SlotOf(2)) == Some(cards[4])
  {
    var drawn := Placements(catalog, cards);
    var upTo5 := Placements(catalog, cards[..5]);
    assert cards[..5][..4] == cards[..4];
    assert upTo5 == Placements(catalog, cards[..4]) + [Placement(cards[4], SlotOf(4))];
    if |cards| == 6 {
      assert cards[..5] == cards[..|cards| - 1];
      assert drawn == upTo5 || drawn == upTo5 + [Placement(cards[5], SlotOf(5))];
    } else {
      assert cards[..5] == cards;
    }
    var k := |upTo5| - 1;
    assert drawn[k] == Placement(cards[4], SlotOf(2));
    LastPaintedShows(drawn, k);
  }

  lemma SixthCardShows(catalog: set<Card>, cards: seq<Card>)
    requires |cards| == 6 && cards[5] in catalog
    ensures Visible(Placements(catalog, cards), SlotOf(3)) == Some(cards[5])
  {
    var drawn := Placements(catalog, cards);
    assert drawn == Placements(catalog, cards[..5]) + [Placement(cards[5], SlotOf(5))];
    LastPaintedShows(drawn, |drawn| - 1);
  }

  /** When the player draws, every later table frame lays the player's third
      card at position 2 and the banker's second card at position 4, so the
      banker's second card is what shows on the player's third card's slot. */
  lemma PlayerThirdCardHidden(catalog: set<Card>, r: BaccaratResult, k: nat)
    requires |r.playerCards| == 3 && 2 <= |r.bankerCards| <= 3
    requires r.bankerCards[1] in catalog
    requires 2 <= k < |FramePlan(r)| - 1
    ensures FramePlan(r)[k].cards[2] == r.playerCards[2]
    ensures Visible(Placements(catalog, FramePlan(r)[k].cards), SlotOf(2)) == Some(r.bankerCards[1])
  {
    var p := r.playerCards;
    var b := r.bankerCards;
    var cards := FramePlan(r)[k].cards;
    assert Take(b, 2) == b[..2];
    assert cards == p + b[..2] || cards == p + b;
    OverpaintedSlots(catalog, cards);
  }

  /** When the banker draws, the last table frame lays the banker's first card
      at position 2 or 3 and the banker's third card two places later, on the
      same slot: what shows there is the banker's third card. */
  lemma BankerFirstCardHidden(catalog: set<Card>, r: BaccaratResult)
    requires 2 <= |r.playerCards| <= 3 && |r.bankerCards| == 3
    requires r.bankerCards[2] in catalog
    ensures var cards := FramePlan(r)[|FramePlan(r)| - 2].cards;
      && cards[|r.playerCards|] == r.bankerCards[0]
      && Visible(Placements(catalog, cards), SlotOf(|r.playerCards|)) == Some(r.bankerCards[2])
  {
    var p := r.playerCards;
    var b := r.bankerCards;
    var cards := FramePlan(r)[|FramePlan(r)| - 2].cards;
    assert cards == p + b;
    assert cards[|p| + 2] == b[2];
    OverpaintedSlots(catalog, cards);
  }

  /** `n` written with at least `width` digits, padded with leading zeros, as
      the format `D3` does for `width` 3. */
  function PadDigits(n: nat, width: nat): (s: string)
    ensures |s| == if |NatToString(n)| < width then width else |NatToString(n)|
    ensures AllDigits(s) && DigitsValue(s) == n
    ensures s[|s| - |NatToString(n)|..] == NatToString(n)
    ensures forall i :: 0 <= i < |s| - |NatToString(n)| ==> s[i] == '0'
  {
    var digits := NatToString(n);
    DigitsValueOfNatToString(n);
    ZerosKeepValue(width - |digits|, digits);
    Zeros(width - |digits|) + digits
  }

  function Zeros(count: int): (s: string)
    ensures |s| == if count < 0 then 0 else count
    ensures forall i :: 0 <= i < |s| ==> s[i] == '0'
    decreases count
  {
    if count <= 0 then [] else Zeros(count - 1) + ['0']
  }

  /** Leading zeros add nothing to the value of a string of digits. */
  lemma {:induction false} ZerosKeepValue(count: int, digits: string)
    requires AllDigits(digits)
    ensures AllDigits(Zeros(count) + digits)
    ensures DigitsValue(Zeros(count) + digits) == DigitsValue(digits)
    decreases |digits|, count
  {
    var s := Zeros(count) + digits;
    if digits == [] {
      assert s == Zeros(count);
      ZerosValue(count);
    } else {
      var init := digits[..|digits| - 1];
      assert s[..|s| - 1] == Zeros(count) + init;
      ZerosKeepValue(count, init);
    }
  }

  lemma {:induction false} ZerosValue(count: int)
    ensures AllDigits(Zeros(count)) && DigitsValue(Zeros(count)) == 0
    decreases count
  {
    if count > 0 {
      assert Zeros(count)[..|Zeros(count)| - 1] == Zeros(count - 1);
      ZerosValue(count - 1);
    }
  }

  /** A number below 1000 has at most three decimal digits. */
  lemma {:induction false} ShortSpelling(n: nat)
    requires n < 1000
    ensures |NatToString(n)| <= 3
  {
    if n >= 10 {
      assert |NatToString(n)| == |NatToString(n / 10)| + 1;
      if n / 10 >= 10 {
        assert |NatToString(n / 10)| == |NatToString(n / 100)| + 1;
        assert n / 10 / 10 == n / 100 < 10;
      }
    }
  }

  /** The name of the picture file of frame `index`, `frame_{index:D03}.png`:
      the index in decimal between `frame_` and `.png`, padded to exactly three
      digits below 1000, the pattern `frame_%03d.png` the video step reads. */
  function FrameFileName(index: nat): (name: string)
    ensures |name| >= 13
    ensures name[..6] == "frame_" && name[|name| - 4..] == ".png"
    ensures AllDigits(name[6..|name| - 4]) && DigitsValue(name[6..|name| - 4]) == index
    ensures index < 1000 ==> |name| == 13
  {
    var digits := PadDigits(index, 3);
    assert index < 1000 ==> |digits| == 3 by {
      if index < 1000 { ThreeDigitsBelow1000(index); }
    }
    FramedName(digits);
    "frame_" + digits + ".png"
  }

  /** `D3` writes every index below 1000 with exactly three digits. */
  lemma ThreeDigitsBelow1000(n: nat)
    requires n < 1000
    ensures |PadDigits(n, 3)| == 3
  {
    ShortSpelling(n);
  }

  /** Where the parts of a frame file name lie within it. */
  lemma FramedName(digits: string)
    ensures var name := "frame_" + digits + ".png";
      && |name| == |digits| + 10
      && name[..6] == "frame_" && name[|name| - 4..] == ".png"
      && name[6..|name| - 4] == digits
  {
    var name := "frame_" + digits + ".png";
    assert name[6..|name| - 4] == digits;
  }

  /** Different frames are written to different files. */
  lemma FrameFileNamesDistinct(i: nat, j: nat)
    requires i != j
    ensures FrameFileName(i) != FrameFileName(j)
  {
  }
}
