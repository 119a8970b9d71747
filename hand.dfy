/** A hand: the cards one party holds and the value they resolve to, with
    Aces lowered from 11 to 1 only as far as needed to stay at 21 or below. */
module Hands {
  import opened Cards
  import opened Shoe

  predicate AllWellFormed(cs: seq<Card>)
  {
    forall i :: 0 <= i < |cs| ==> cs[i].WellFormed()
  }

  /** The sum of the cards' current values. */
  function Sum(cs: seq<Card>): int
  {
    if cs == [] then 0 else cs[0].value + Sum(cs[1..])
  }

  /** The number of cards that still count high. */
  function HighCount(cs: seq<Card>): nat
  {
    if cs == [] then 0 else (if cs[0].aceHigh then 1 else 0) + HighCount(cs[1..])
  }

  /** The cards with the first `m` high Aces, in hand order, lowered to 1. */
  function LowerFirst(cs: seq<Card>, m: nat): seq<Card>
  {
    if cs == [] then []
    else if m > 0 && cs[0].aceHigh then [cs[0].AceLow()] + LowerFirst(cs[1..], m - 1)
    else [cs[0]] + LowerFirst(cs[1..], m)
  }

  function Min(a: int, b: int): int
  {
    if a <= b then a else b
  }

  /** The fewest Aces to lower so that a total of `total` with `high` high Aces
      reaches 21 or below, or all of them when that is not enough: each lowering
      takes 10 off the total. */
  function AcesToLower(total: int, high: nat): nat
  {
    if total <= 21 then 0 else Min(high, (total - 12) / 10)
  }

  /** No further lowering applies: the total is at most 21 or no card counts high. */
  predicate Settled(cs: seq<Card>)
  {
    !(Sum(cs) > 21 && HighCount(cs) > 0)
  }

  /** Hand value resolution: while the total is over 21 and some card counts high,
      lower the first such Ace in hand order and add up again. */
  function Resolve(cs: seq<Card>): (r: seq<Card>)
    requires AllWellFormed(cs)
    ensures |r| == |cs| && AllWellFormed(r)
    ensures Ranks(r) == Ranks(cs)
    ensures Settled(r)
    decreases HighCount(cs)
  {
    if Sum(cs) > 21 && HighCount(cs) > 0 then
      LowerFirstFacts(cs, 1);
      Resolve(LowerFirst(cs, 1))
    else
      cs
  }

  lemma {:induction false} SumAppend(a: seq<Card>, b: seq<Card>)
    ensures Sum(a + b) == Sum(a) + Sum(b)
  {
    if a != [] {
      assert (a + b)[1..] == a[1..] + b;
      calc {
        Sum(a + b);
        (a + b)[0].value + Sum((a + b)[1..]);
        a[0].value + Sum(a[1..] + b);
        { SumAppend(a[1..], b); }
        a[0].value + Sum(a[1..]) + Sum(b);
      }
    } else {
      assert a + b == b;
    }
  }

  /** Every well-formed card is worth at least 1, so a hand's total is at least its size. */
  lemma {:induction false} SumAtLeastSize(cs: seq<Card>)
    requires AllWellFormed(cs)
    ensures Sum(cs) >= |cs|
  {
    if cs != [] {
      WellFormedValue(cs[0]);
      SumAtLeastSize(cs[1..]);
    }
  }

  lemma {:induction false} HighCountPositive(cs: seq<Card>)
    ensures HighCount(cs) > 0 <==> exists k :: 0 <= k < |cs| && cs[k].aceHigh
  {
    if cs != [] {
      HighCountPositive(cs[1..]);
      if HighCount(cs[1..]) > 0 {
        var k :| 0 <= k < |cs[1..]| && cs[1..][k].aceHigh;
        assert cs[k + 1].aceHigh;
      }
      if !cs[0].aceHigh && exists k :: 0 <= k < |cs| && cs[k].aceHigh {
        var k :| 0 <= k < |cs| && cs[k].aceHigh;
        assert cs[1..][k - 1].aceHigh;
      }
    }
  }

  /** Lowering the first `m` high Aces keeps the hand's size, ranks and
      well-formedness, and takes 10 off the total for each Ace actually lowered. */
  lemma {:induction false} LowerFirstFacts(cs: seq<Card>, m: nat)
    requires AllWellFormed(cs)
    ensures |LowerFirst(cs, m)| == |cs| && AllWellFormed(LowerFirst(cs, m))
    ensures Ranks(LowerFirst(cs, m)) == Ranks(cs)
    ensures Sum(LowerFirst(cs, m)) == Sum(cs) - 10 * Min(m, HighCount(cs))
    ensures HighCount(LowerFirst(cs, m)) == HighCount(cs) - Min(m, HighCount(cs))
  {
    if cs != [] {
      WellFormedValue(cs[0]);
      AceLowSettles(cs[0]);
      if m > 0 && cs[0].aceHigh {
        LowerFirstFacts(cs[1..], m - 1);
      } else {
        LowerFirstFacts(cs[1..], m);
      }
      var l := LowerFirst(cs, m);
      assert l[1..] == LowerFirst(cs[1..], if m > 0 && cs[0].aceHigh then m - 1 else m);
    }
  }

  lemma {:induction false} LowerNone(cs: seq<Card>)
    ensures LowerFirst(cs, 0) == cs
  {
    if cs != [] {
      LowerNone(cs[1..]);
    }
  }

  /** Lowering the first high Ace and then the first `m` of those left is lowering
      the first `m + 1`. */
  lemma {:induction false} LowerFirstCompose(cs: seq<Card>, m: nat)
    requires AllWellFormed(cs)
    ensures LowerFirst(LowerFirst(cs, 1), m) == LowerFirst(cs, m + 1)
  {
    if cs != [] {
      AceLowSettles(cs[0]);
      if cs[0].aceHigh {
        LowerNone(cs[1..]);
        var low := [cs[0].AceLow()] + cs[1..];
        assert LowerFirst(cs, 1) == low;
        assert low[1..] == cs[1..];
      } else {
        LowerFirstCompose(cs[1..], m);
        var once := [cs[0]] + LowerFirst(cs[1..], 1);
        assert LowerFirst(cs, 1) == once;
        assert once[1..] == LowerFirst(cs[1..], 1);
      }
    }
  }

  /** When `j` is the first card that counts high, lowering it in place is
      lowering the first high Ace. */
  lemma {:induction false} FirstHighIsLowerFirst(cs: seq<Card>, j: nat)
    requires j < |cs| && cs[j].aceHigh
    requires forall k :: 0 <= k < j ==> !cs[k].aceHigh
    ensures cs[j := cs[j].AceLow()] == LowerFirst(cs, 1)
  {
    if j == 0 {
      LowerNone(cs[1..]);
      assert cs[0 := cs[0].AceLow()] == [cs[0].AceLow()] + cs[1..];
    } else {
      FirstHighIsLowerFirst(cs[1..], j - 1);
      assert cs[j := cs[j].AceLow()] == [cs[0]] + cs[1..][j - 1 := cs[j].AceLow()];
    }
  }

  /** Resolution lowers exactly the first `AcesToLower` high Aces in hand order:
      the fewest that bring the total to 21 or below, or every one of them. */
  lemma {:induction false} ResolveIsMinimalLowering(cs: seq<Card>)
    requires AllWellFormed(cs)
    ensures Resolve(cs) == LowerFirst(cs, AcesToLower(Sum(cs), HighCount(cs)))
    decreases HighCount(cs)
  {
    var s, h := Sum(cs), HighCount(cs);
    if s > 21 && h > 0 {
      var once := LowerFirst(cs, 1);
      LowerFirstFacts(cs, 1);
      ResolveIsMinimalLowering(once);
      assert AcesToLower(s - 10, h - 1) + 1 == AcesToLower(s, h);
      LowerFirstCompose(cs, AcesToLower(s - 10, h - 1));
    } else {
      LowerNone(cs);
    }
  }

  /** What the resolved total is: the raw total less 10 per lowered Ace, where no
      smaller number of lowerings would do; it exceeds 21 only once no card counts
      high, and it is never below the smaller of the raw total and 12. */
  lemma ResolvedTotal(cs: seq<Card>)
    requires AllWellFormed(cs)
    ensures var m := AcesToLower(Sum(cs), HighCount(cs));
      && m <= HighCount(cs)
      && Sum(Resolve(cs)) == Sum(cs) - 10 * m
      && HighCount(Resolve(cs)) == HighCount(cs) - m
      && (m > 0 ==> Sum(cs) - 10 * (m - 1) > 21)
    ensures Sum(Resolve(cs)) > 21 ==> HighCount(Resolve(cs)) == 0
    ensures Sum(Resolve(cs)) >= Min(Sum(cs), 12)
  {
    var m := AcesToLower(Sum(cs), HighCount(cs));
    ResolveIsMinimalLowering(cs);
    LowerFirstFacts(cs, m);
  }

  /** The result of evaluating a hand: its total, or the error for a total below 3. */
  datatype Evaluation = Total(total: int) | InvalidHand

  /** The hand has Blackjack: its value is exactly 21. Such a hand is neither
      bust nor soft. */
  predicate Blackjack(value: int): (b: bool)
    ensures b ==> !Bust(value) && !Soft(value)
  {
    value == 21
  }

  /** The hand is bust: its value is over 21. A bust hand is not soft. */
  predicate Bust(value: int): (b: bool)
    ensures b ==> !Soft(value)
  {
    value > 21
  }

  /** The hand is "soft" in the sense this game uses: below 17, the dealer's
      hit threshold (not the usual meaning of an Ace counted as 11). A soft
      hand is below 21, so it is neither Blackjack nor bust. */
  predicate Soft(value: int): (b: bool)
    ensures b ==> value < 21
  {
    value < 17
  }

  /** The accumulating pass of the evaluation: the total of the card values and
      the positions of the cards that count high, in hand order. */
  method AddUp(cs: seq<Card>) returns (total: int, acesHigh: seq<nat>)
    ensures total == Sum(cs)
    ensures forall k :: k in acesHigh <==> 0 <= k < |cs| && cs[k].aceHigh
    ensures forall a, b :: 0 <= a < b < |acesHigh| ==> acesHigh[a] < acesHigh[b]
    ensures acesHigh == [] <==> HighCount(cs) == 0
    ensures acesHigh != [] ==> forall k :: 0 <= k < |cs| && k < acesHigh[0] ==> !cs[k].aceHigh
  {
    total, acesHigh := 0, [];
    for i := 0 to |cs|
      invariant total == Sum(cs[..i])
      invariant forall k :: k in acesHigh <==> 0 <= k < i && cs[k].aceHigh
      invariant forall a, b :: 0 <= a < b < |acesHigh| ==> acesHigh[a] < acesHigh[b]
      invariant forall a :: 0 <= a < |acesHigh| ==> acesHigh[a] < i
    {
      assert cs[..i + 1] == cs[..i] + [cs[i]];
      SumAppend(cs[..i], [cs[i]]);
      total := total + cs[i].value;
      if cs[i].aceHigh {
        acesHigh := acesHigh + [i];
      }
    }
    assert cs[..|cs|] == cs;
    HighCountPositive(cs);
    if acesHigh != [] {
      assert acesHigh[0] in acesHigh;
      assert forall j :: 0 <= j < |acesHigh| ==> acesHigh[0] <= acesHigh[j];
    }
  }

  /** One party's hand. */
  class Hand {
    var cards: seq<Card>
    var value: int

    /** The cards are well formed and already resolved, and `value` is their total,
        which the evaluation accepted. */
    ghost predicate Valid()
      reads this
    {
      AllWellFormed(cards) && Settled(cards) && value == Sum(cards) && value >= 3
    }

    /** Deals two cards from the shoe and evaluates them. */
    constructor (deck: Deck)
      requires deck.Valid() && |deck.cards| >= 2
      modifies deck
      ensures Valid() && deck.Valid()
      ensures cards == Resolve(Dealt(old(deck.cards), 2)) && |cards| == 2
      ensures deck.cards == Remaining(old(deck.cards), 2)
    {
      var dealt := deck.DealCards(2);
      cards := dealt;
      value := 0;
      new;
      assert Sum(dealt) >= 4 by {
        assert Sum(dealt) == dealt[0].value + (dealt[1].value + Sum(dealt[1..][1..]));
      }
      ResolvedTotal(dealt);
      var r := GetValue();
      value := r.total;
    }

    /** Adds up the card values; while the total is over 21 and some card still
        counts high, lowers the first such Ace and adds up again. Reports
        `InvalidHand` when the final total is below 3. The stored value is not
        changed here. */
    method GetValue() returns (r: Evaluation)
      requires AllWellFormed(cards)
      modifies this
      ensures cards == Resolve(old(cards)) && value == old(value)
      ensures r == if Sum(cards) < 3 then InvalidHand else Total(Sum(cards))
    {
      ghost var target := Resolve(cards);
      while true
        invariant AllWellFormed(cards) && Resolve(cards) == target && value == old(value)
        decreases HighCount(cards)
      {
        var total, acesHigh := AddUp(cards);
        if total > 21 && |acesHigh| > 0 {
          assert acesHigh[0] in acesHigh;
          FirstHighIsLowerFirst(cards, acesHigh[0]);
          LowerFirstFacts(cards, 1);
          assert Resolve(cards) == Resolve(LowerFirst(cards, 1));
          cards := cards[acesHigh[0] := cards[acesHigh[0]].AceLow()];
        } else if total < 3 {
          assert Resolve(cards) == cards;
          return InvalidHand;
        } else {
          assert Resolve(cards) == cards;
          return Total(total);
        }
      }
    }

    /** Draws `cardsToDraw` cards from the shoe onto the end of the hand and
        re-evaluates it. */
    method DrawCards(deck: Deck, cardsToDraw: nat)
      requires Valid() && deck.Valid()
      requires cardsToDraw <= |deck.cards|
      modifies this, deck
      ensures Valid() && deck.Valid()
      ensures cards == Resolve(old(cards) + Dealt(old(deck.cards), cardsToDraw))
      ensures Ranks(cards) == Ranks(old(cards)) + Ranks(Dealt(old(deck.cards), cardsToDraw))
      ensures deck.cards == Remaining(old(deck.cards), cardsToDraw)
    {
      var dealt := deck.DealCards(cardsToDraw);
      RanksAppend(cards, dealt);
      SumAtLeastSize(dealt);
      SumAppend(cards, dealt);
      cards := cards + dealt;
      ResolvedTotal(cards);
      var r := GetValue();
      value := r.total;
    }
  }
}
