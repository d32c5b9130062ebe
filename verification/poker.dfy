/** The hand logic of simple-porker/src/main.rs: cards and the unshuffled
    deck, drawing and exchanging cards, the straight and pair checks with
    their `seen` tables, ranking, and the straight hands the tests build. */
module Poker {
  import opened Prelude

  datatype Suit = Clover | Diamond | Heart | Spade

  datatype Card = Card(suit: Suit, number: u8)

  /** A card `Card::new` accepts: Ace is 1, King 13. */
  predicate ValidCard(c: Card) {
    1 <= c.number <= 13
  }

  /** `Card::new`; `None` is its panic on a number outside 1..=13. */
  function NewCard(suit: Suit, number: u8): (r: Option<Card>)
    ensures r.Some? <==> 1 <= number <= 13
    ensures r.Some? ==> ValidCard(r.value) && r.value.suit == suit && r.value.number == number
  {
    if 1 <= number <= 13 then Some(Card(suit, number)) else None
  }

  /** The four cards of one number, in the order `Deck::new` lists them. */
  function FourOf(n: u8): seq<Card> {
    [Card(Clover, n), Card(Diamond, n), Card(Heart, n), Card(Spade, n)]
  }

  const SUITS: seq<Suit> := [Clover, Diamond, Heart, Spade]

  /** The cards of numbers 1..=n, number by number: the `flat_map` of
      `Deck::new` stopped at `n`. */
  function Numbers(n: nat): (cards: seq<Card>)
    requires n <= 13
    ensures |cards| == 4 * n
    ensures forall i :: 0 <= i < |cards| ==> cards[i] == Card(SUITS[i % 4], (i / 4 + 1) as u8)
  {
    if n == 0 then [] else Numbers(n - 1) + FourOf(n as u8)
  }

  /** `Deck::new` before the shuffle, which is not modelled. */
  function NewDeck(): (cards: seq<Card>)
    ensures |cards| == 52
    ensures forall i :: 0 <= i < 52 ==> ValidCard(cards[i])
  {
    Numbers(13)
  }

  /** Position of a valid card in the unshuffled deck. */
  function DeckIndex(c: Card): (i: nat)
    requires ValidCard(c)
    ensures i < 52 && NewDeck()[i] == c
  {
    var s := match c.suit case Clover => 0 case Diamond => 1 case Heart => 2 case Spade => 3;
    var i := 4 * (c.number as int - 1) + s;
    Slot(c.number as int - 1, s);
    assert Numbers(13)[i] == Card(SUITS[s], c.number);
    i
  }

  lemma {:induction false} Slot(q: int, s: int)
    requires 0 <= s < 4
    ensures (4 * q + s) / 4 == q && (4 * q + s) % 4 == s
  {
  }

  /** The deck holds each of the 52 valid cards exactly once. */
  lemma {:induction false} NewDeckComplete()
    ensures forall c :: ValidCard(c) ==> c in NewDeck()
    ensures forall i, j :: 0 <= i < j < 52 ==> NewDeck()[i] != NewDeck()[j]
  {
    forall c | ValidCard(c)
      ensures c in NewDeck()
    {
      var i := DeckIndex(c);
    }
    forall i, j | 0 <= i < j < 52
      ensures NewDeck()[i] != NewDeck()[j]
    {
      DistinctSlots(i, j);
    }
  }

  /** Two slots of the deck hold different numbers or different suits. */
  lemma {:induction false} DistinctSlots(i: nat, j: nat)
    requires i < j < 52
    ensures NewDeck()[i] != NewDeck()[j]
  {
    if i / 4 == j / 4 {
      assert i % 4 != j % 4;
    }
  }

  /** `Deck::draw`: the last card comes off; an empty deck panics. */
  function Draw(deck: seq<Card>): (r: (Card, seq<Card>))
    requires |deck| >= 1
    ensures |r.1| == |deck| - 1 && r.1 + [r.0] == deck
  {
    (deck[|deck| - 1], deck[..|deck| - 1])
  }

  /** `Hands::new_from_deck`: five draws, in the order they come off. */
  function NewHand(deck: seq<Card>): (r: (seq<Card>, seq<Card>))
    requires |deck| >= 5
    ensures |r.0| == 5 && |r.1| == |deck| - 5
    ensures forall k :: 0 <= k < 5 ==> r.0[k] == deck[|deck| - 1 - k]
    ensures r.1 == deck[..|deck| - 5]
  {
    var (a, d1) := Draw(deck);
    var (b, d2) := Draw(d1);
    var (c, d3) := Draw(d2);
    var (d, d4) := Draw(d3);
    var (e, d5) := Draw(d4);
    ([a, b, c, d, e], d5)
  }

  /** The first position of `x` in `s` (`iter().position`). */
  function FirstIndex(s: seq<Card>, x: Card): (i: nat)
    requires x in s
    ensures i < |s| && s[i] == x && forall j :: 0 <= j < i ==> s[j] != x
  {
    if s[0] == x then 0 else 1 + FirstIndex(s[1..], x)
  }

  /** `Hands::exchange`: the first position holding `card` gets the card
      drawn from the deck. The `unwrap`s panic when the card is not in the
      hand or the deck is empty. */
  function Exchange(hand: seq<Card>, deck: seq<Card>, card: Card): (r: (seq<Card>, seq<Card>))
    requires card in hand && |deck| >= 1
    ensures |r.0| == |hand| && r.1 == deck[..|deck| - 1]
    ensures var i := FirstIndex(hand, card);
            && r.0[i] == deck[|deck| - 1]
            && forall j :: 0 <= j < |hand| && j != i ==> r.0[j] == hand[j]
  {
    var i := FirstIndex(hand, card);
    var (drawn, rest) := Draw(deck);
    (hand[i := drawn], rest)
  }

  /** No card is lost or made up: the new hand, the rest of the deck and the
      discarded card are the old hand and deck. */
  lemma {:induction false} ExchangeKeepsCards(hand: seq<Card>, deck: seq<Card>, card: Card)
    requires card in hand && |deck| >= 1
    ensures var (h, d) := Exchange(hand, deck, card);
            multiset(h) + multiset(d) + multiset{card} == multiset(hand) + multiset(deck)
  {
    var i := FirstIndex(hand, card);
    var (h, d) := Exchange(hand, deck, card);
    assert h == hand[i := deck[|deck| - 1]];
    assert multiset(h) == multiset(hand) - multiset{card} + multiset{deck[|deck| - 1]};
    assert deck == d + [deck[|deck| - 1]];
    assert multiset(deck) == multiset(d) + multiset{deck[|deck| - 1]};
  }

  datatype Rank =
    | HighCard(high: u8) | OnePair | TwoPair | ThreeCard | Straight
    | Flush | FullHouse | FourCard | StraightFlush | RoyalStraightFlush

  /** No two cards of the hand share a number. */
  predicate DistinctNumbers(h: seq<Card>) {
    forall i, j :: 0 <= i < j < |h| ==> h[i].number != h[j].number
  }

  /** Some card of the hand stands for value `k`, where an Ace (1) also
      stands for 14. */
  predicate Covers(h: seq<Card>, k: int) {
    exists m :: 0 <= m < |h| && (h[m].number == k || (k == 14 && h[m].number == 1))
  }

  /** Five consecutive values from `w` on are all covered. */
  predicate RunFrom(h: seq<Card>, w: int) {
    forall k :: w <= k < w + 5 ==> Covers(h, k)
  }

  /** A straight: five different numbers that cover five consecutive values,
      the Ace counting low (A-2-3-4-5) or high (10-J-Q-K-A). */
  predicate IsStraightHand(h: seq<Card>) {
    DistinctNumbers(h) && exists w :: 1 <= w <= 10 && RunFrom(h, w)
  }

  /** Number of `true` entries of `s` in `[lo, hi)`. */
  function CountTrue(s: seq<bool>, lo: nat, hi: nat): (n: nat)
    requires lo <= hi <= |s|
    ensures n <= hi - lo
    ensures n == hi - lo <==> forall k :: lo <= k < hi ==> s[k]
    decreases hi - lo
  {
    if lo == hi then 0 else CountTrue(s, lo, hi - 1) + (if s[hi - 1] then 1 else 0)
  }

  /** Sliding the window one step: drop the entry at `lo`, add the one at
      `hi`. */
  lemma {:induction false} CountSlide(s: seq<bool>, lo: nat, hi: nat)
    requires lo < hi < |s|
    ensures CountTrue(s, lo + 1, hi + 1) == CountTrue(s, lo, hi) - (if s[lo] then 1 else 0) + (if s[hi] then 1 else 0)
    decreases hi - lo
  {
    if lo + 1 < hi {
      CountSlide(s, lo, hi - 1);
    }
  }

  /** The first loop of `Rank::is_straight`: it marks each card's number in
      `seen` and gives up on a repeated number. */
  method MarkNumbers(h: seq<Card>) returns (distinct: bool, seen: seq<bool>)
    requires |h| == 5 && forall i :: 0 <= i < 5 ==> ValidCard(h[i])
    ensures distinct <==> DistinctNumbers(h)
    ensures distinct ==> |seen| == 15 && forall k :: 0 <= k < 15 ==> (seen[k] <==> exists m :: 0 <= m < 5 && h[m].number == k)
  {
    seen := seq(15, _ => false);
    for j := 0 to 5
      invariant |seen| == 15
      invariant forall k :: 0 <= k < 15 ==> (seen[k] <==> exists m :: 0 <= m < j && h[m].number == k)
      invariant forall m, m' :: 0 <= m < m' < j ==> h[m].number != h[m'].number
    {
      var n := h[j].number;
      if seen[n] {
        assert !DistinctNumbers(h);
        return false, seen;
      }
      seen := seen[n := true];
    }
    return true, seen;
  }

  /** `Rank::is_straight`. After the first loop, Ace is copied to slot 14;
      the second loop slides a five-slot window over `seen[1..15]`, keeping
      `sum` equal to the number of seen values in it. */
  method IsStraight(h: seq<Card>) returns (b: bool)
    requires |h| == 5 && forall i :: 0 <= i < 5 ==> ValidCard(h[i])
    ensures b <==> IsStraightHand(h)
  {
    var distinct, seen := MarkNumbers(h);
    if !distinct {
      return false;
    }
    seen := seen[14 := seen[1]];
    assert forall k :: 1 <= k < 15 ==> (seen[k] <==> Covers(h, k));
    var sum: nat := CountTrue(seen, 0, 5);
    for i := 0 to 10
      invariant sum == CountTrue(seen, i, i + 5)
      invariant forall w :: 1 <= w <= i ==> !RunFrom(h, w)
    {
      CountSlide(seen, i, i + 5);
      sum := sum - (if seen[i] then 1 else 0);
      sum := sum + (if seen[i + 5] then 1 else 0);
      if sum == 5 {
        assert RunFrom(h, i + 1);
        return true;
      }
      assert !RunFrom(h, i + 1) by {
        var k :| i + 1 <= k < i + 6 && !seen[k];
        assert !Covers(h, k);
      }
    }
    return false;
  }

  /** Two cards of the hand share a number. */
  predicate HasPair(h: seq<Card>) {
    exists i, j :: 0 <= i < j < |h| && h[i].number == h[j].number
  }

  /** `Rank::is_one_pair`: `max_pair` records the highest number seen a
      second time and stays -1 while there is none. True for any hand with a
      repeated number, three or four of a kind included. */
  method IsOnePair(h: seq<Card>) returns (b: bool)
    requires |h| == 5 && forall i :: 0 <= i < 5 ==> ValidCard(h[i])
    ensures b <==> HasPair(h)
  {
    var seen: seq<bool> := seq(14, _ => false);
    var maxPair: int := -1;
    for j := 0 to 5
      invariant |seen| == 14 && -1 <= maxPair <= 13
      invariant forall k :: 0 <= k < 14 ==> (seen[k] <==> exists m :: 0 <= m < j && h[m].number == k)
      invariant maxPair >= 0 <==> exists m, m' :: 0 <= m < m' < j && h[m].number == h[m'].number
    {
      var n := h[j].number;
      if seen[n] {
        maxPair := if maxPair < n then n else maxPair;
      }
      seen := seen[n := true];
    }
    return maxPair >= 0;
  }

  /** The highest number in the hand. */
  function MaxNumber(h: seq<Card>): (n: u8)
    requires |h| >= 1
    ensures exists i :: 0 <= i < |h| && h[i].number == n
    ensures forall i :: 0 <= i < |h| ==> h[i].number <= n
  {
    if |h| == 1 then h[0].number
    else
      var m := MaxNumber(h[1..]);
      assert forall i :: 1 <= i < |h| ==> h[i] == h[1..][i - 1];
      if h[0].number < m then m else h[0].number
  }

  /** `Rank::evaluate`, where only the straight check is enabled: any other
      hand ranks as its highest card. */
  method Evaluate(h: seq<Card>) returns (r: Rank)
    requires |h| == 5 && forall i :: 0 <= i < 5 ==> ValidCard(h[i])
    ensures r == Straight <==> IsStraightHand(h)
    ensures r != Straight ==> r == HighCard(MaxNumber(h))
  {
    var straight := IsStraight(h);
    if straight {
      return Straight;
    }
    return HighCard(MaxNumber(h));
  }

  /** `wrap` inside `Hands::straight`: 14 becomes 1, so 10 starts the
      10-J-Q-K-A run. The `n - 1` underflows for 0. */
  function Wrap(n: u8): (r: u8)
    requires n >= 1
    ensures 1 <= r <= 13 && (r - n) % 13 == 0
  {
    ((n - 1) % 13) + 1
  }

  /** `Hands::straight`: five cards of one suit whose numbers count up from
      `start`, wrapping after the King. `start + 4` overflows a `u8` past 251. */
  function StraightHand(suit: Suit, start: u8): (h: seq<Card>)
    requires 1 <= start <= 251
    ensures |h| == 5
    ensures forall k :: 0 <= k < 5 ==> ValidCard(h[k]) && h[k] == Card(suit, Wrap(start + k))
  {
    [Card(suit, Wrap(start)), Card(suit, Wrap(start + 1)), Card(suit, Wrap(start + 2)),
     Card(suit, Wrap(start + 3)), Card(suit, Wrap(start + 4))]
  }

  /** `Hands::wheel`: A-2-3-4-5. */
  function Wheel(suit: Suit): (h: seq<Card>)
    ensures |h| == 5 && forall k :: 0 <= k < 5 ==> h[k] == Card(suit, k + 1)
  {
    StraightHand(suit, 1)
  }

  /** `Hands::royal`: 10-J-Q-K-A. */
  function Royal(suit: Suit): (h: seq<Card>)
    ensures |h| == 5 && forall k :: 0 <= k < 4 ==> h[k] == Card(suit, 10 + k)
    ensures h[4] == Card(suit, 1)
  {
    StraightHand(suit, 10)
  }

  /** Counting `k` further from `n` moves the wrapped number `k` further,
      back to the Ace after the King. */
  lemma {:induction false} WrapStep(n: u8, k: nat)
    requires 1 <= n && n + k < 0x100 && k < 13
    ensures Wrap(n + k) == if Wrap(n) + k <= 13 then Wrap(n) + k else Wrap(n) + k - 13
  {
    var q, r := (n - 1) / 13, (n - 1) % 13;
    assert n - 1 == 13 * q + r;
    if r + k < 13 {
      ModOf(q, r + k);
    } else {
      assert n - 1 + k == 13 * (q + 1) + (r + k - 13);
      ModOf(q + 1, r + k - 13);
    }
  }

  lemma {:induction false} ModOf(q: int, x: int)
    requires 0 <= x < 13
    ensures (13 * q + x) % 13 == x
  {
  }

  /** The five numbers of a straight hand that starts at `w` once wrapped
      (`w` in 1..13): `w` up to 13, then 1 on. */
  lemma {:induction false} StraightHandNumbers(suit: Suit, start: u8)
    requires 1 <= start <= 251
    ensures var w := Wrap(start);
            forall k :: 0 <= k < 5 ==>
              StraightHand(suit, start)[k].number == if w + k <= 13 then w + k else w + k - 13
  {
    var h := StraightHand(suit, start);
    var w := Wrap(start);
    forall k | 0 <= k < 5
      ensures h[k].number == if w + k <= 13 then w + k else w + k - 13
    {
      WrapStep(start, k);
    }
  }

  /** A hand built by `Hands::straight` is a straight exactly when it does
      not run past the Ace: it starts (after wrapping) at 10 or lower.
      Starting at J, Q or K gives J-Q-K-A-2 and the like, which are not. */
  lemma {:induction false} StraightHandIsStraight(suit: Suit, start: u8)
    requires 1 <= start <= 251
    ensures IsStraightHand(StraightHand(suit, start)) <==> Wrap(start) <= 10
  {
    var h := StraightHand(suit, start);
    var w := Wrap(start);
    StraightHandNumbers(suit, start);
    assert DistinctNumbers(h);
    if w <= 10 {
      forall k | w <= k < w + 5
        ensures Covers(h, k)
      {
        if k <= 13 {
          assert h[k - w].number == k;
        } else {
          assert h[4].number == 1;
        }
      }
      assert RunFrom(h, w);
    } else {
      forall v | 1 <= v <= 10
        ensures !RunFrom(h, v)
      {
        var k := if v <= w - 8 then w - 8 else v;
        assert !Covers(h, k);
      }
    }
  }

  /** The hand `[1, 2, 3, 4, 6]` of one suit. */
  function GapHand(suit: Suit): seq<Card> {
    [Card(suit, 1), Card(suit, 2), Card(suit, 3), Card(suit, 4), Card(suit, 6)]
  }

  /** A-2-3-4-5 ranks as a straight, the Ace counting low. */
  lemma WheelIsStraight(suit: Suit)
    ensures IsStraightHand(Wheel(suit))
  {
    StraightHandIsStraight(suit, 1);
  }

  /** 10-J-Q-K-A ranks as a straight, the Ace counting high. */
  lemma RoyalIsStraight(suit: Suit)
    ensures IsStraightHand(Royal(suit))
  {
    StraightHandIsStraight(suit, 10);
  }

  /** A-2-3-4-6 is not a straight: every five-value window misses 5 or the
      value after 6. */
  lemma {:induction false} GapHandNotStraight(suit: Suit)
    ensures !IsStraightHand(GapHand(suit))
  {
    var h := GapHand(suit);
    forall v | 1 <= v <= 10
      ensures !RunFrom(h, v)
    {
      var k := if v <= 5 then 5 else v + 1;
      assert !Covers(h, k);
    }
  }
}
