/** The round engine: the player's stand/hit/quit turn, the dealer's fixed
    hit-below-17 turn, and the outcome they lead to. The specification is a pair
    of functions over a table of card sequences; the methods play the round on
    the Deck and Hand objects and are proved to follow it. */
module Round {
  import opened Cards
  import opened Shoe
  import opened Hands

  datatype Option<T> = None | Some(value: T)

  /** How a round ends. `AwaitingDecision`: the decisions ran out before the round
      was over. `ShoeExhausted`: a card was to be drawn from an empty shoe. */
  datatype Outcome = PlayerWins | PlayerLoses | Draw | Quit | AwaitingDecision | ShoeExhausted

  /** The cards of a round: the player's hand, the dealer's hand and the shoe. */
  datatype Table = Table(player: seq<Card>, dealer: seq<Card>, shoe: seq<Card>)

  /** How the round ended and the table it left. */
  datatype RoundEnd = RoundEnd(outcome: Outcome, table: Table)

  predicate TableOK(t: Table)
  {
    AllWellFormed(t.player) && AllWellFormed(t.dealer) && AllWellFormed(t.shoe)
  }

  /** The player's Blackjack wins the round, the player's Bust loses it. */
  function PlayerOut(playerValue: int): (o: Option<Outcome>)
    ensures o.Some? <==> playerValue >= 21
    ensures o == Some(PlayerWins) <==> playerValue == 21
    ensures o == Some(PlayerLoses) <==> playerValue > 21
  {
    if Blackjack(playerValue) then Some(PlayerWins)
    else if Bust(playerValue) then Some(PlayerLoses)
    else None
  }

  /** The dealer's Blackjack loses the round for the player, the dealer's Bust wins it. */
  function DealerOut(dealerValue: int): (o: Option<Outcome>)
    ensures o.Some? <==> dealerValue >= 21
    ensures o == Some(PlayerLoses) <==> dealerValue == 21
    ensures o == Some(PlayerWins) <==> dealerValue > 21
  {
    if Blackjack(dealerValue) then Some(PlayerLoses)
    else if Bust(dealerValue) then Some(PlayerWins)
    else None
  }

  /** The comparison once the dealer stands. */
  function Showdown(dealerValue: int, playerValue: int): (o: Outcome)
    ensures Decided(o)
    ensures o == Draw <==> dealerValue == playerValue
    ensures o == PlayerWins <==> dealerValue < playerValue
  {
    if dealerValue == playerValue then Draw
    else if dealerValue < playerValue then PlayerWins
    else PlayerLoses
  }

  /** The dealer's out check is the player's with the winner swapped, and the
      showdown is symmetric: swapping the totals swaps the winner. */
  lemma OutcomeRules(value: int, dealerValue: int, playerValue: int)
    ensures DealerOut(value).Some? <==> PlayerOut(value).Some?
    ensures DealerOut(value) == Some(PlayerWins) <==> PlayerOut(value) == Some(PlayerLoses)
    ensures DealerOut(value) == Some(PlayerLoses) <==> PlayerOut(value) == Some(PlayerWins)
    ensures Showdown(dealerValue, playerValue) == PlayerWins <==>
            dealerValue != playerValue && Showdown(playerValue, dealerValue) == PlayerLoses
  {
  }

  /** One card from the end of the shoe onto the end of the hand, re-evaluated. */
  function DrawOne(hand: seq<Card>, shoe: seq<Card>): seq<Card>
    requires AllWellFormed(hand) && AllWellFormed(shoe) && |shoe| > 0
  {
    Resolve(hand + Dealt(shoe, 1))
  }

  function HitPlayer(t: Table): Table
    requires TableOK(t) && |t.shoe| > 0
  {
    Table(DrawOne(t.player, t.shoe), t.dealer, Remaining(t.shoe, 1))
  }

  function HitDealer(t: Table): Table
    requires TableOK(t) && |t.shoe| > 0
  {
    Table(t.player, DrawOne(t.dealer, t.shoe), Remaining(t.shoe, 1))
  }

  /** Taking the last card off a shoe leaves a well-formed shoe one card shorter
      whose ranks together with that card's are the shoe's. */
  lemma TakeLast(shoe: seq<Card>)
    requires AllWellFormed(shoe) && |shoe| > 0
    ensures AllWellFormed(Remaining(shoe, 1)) && |Remaining(shoe, 1)| == |shoe| - 1
    ensures multiset(Ranks(shoe)) == multiset(Ranks(Remaining(shoe, 1))) + multiset{shoe[|shoe| - 1].rank}
  {
    var last, rest := shoe[|shoe| - 1], Remaining(shoe, 1);
    assert rest == shoe[..|shoe| - 1];
    assert shoe == rest + [last];
    RanksAppend(rest, [last]);
    assert Ranks(shoe) == Ranks(rest) + [last.rank];
  }

  /** Drawing one card adds exactly that card, the last of the shoe, to the end of
      the hand (earlier cards keep their places and ranks), and takes it off the shoe. */
  lemma DrawOneFacts(hand: seq<Card>, shoe: seq<Card>)
    requires AllWellFormed(hand) && AllWellFormed(shoe) && |shoe| > 0
    ensures |DrawOne(hand, shoe)| == |hand| + 1 && AllWellFormed(DrawOne(hand, shoe))
    ensures Ranks(DrawOne(hand, shoe)) == Ranks(hand) + [shoe[|shoe| - 1].rank]
    ensures AllWellFormed(Remaining(shoe, 1)) && |Remaining(shoe, 1)| == |shoe| - 1
    ensures multiset(Ranks(shoe)) == multiset(Ranks(Remaining(shoe, 1))) + multiset{shoe[|shoe| - 1].rank}
  {
    var last := shoe[|shoe| - 1];
    assert Dealt(shoe, 1) == [last];
    assert AllWellFormed(hand + [last]);
    assert DrawOne(hand, shoe) == Resolve(hand + [last]);
    RanksAppend(hand, [last]);
    TakeLast(shoe);
  }

  /** The dealer's turn: out on Blackjack or Bust; otherwise hit while soft
      (below 17), and compare totals once standing. */
  function DealerSpec(t: Table): RoundEnd
    requires TableOK(t)
    decreases |t.shoe|
  {
    var dealerValue := Sum(t.dealer);
    match DealerOut(dealerValue)
    case Some(o) => RoundEnd(o, t)
    case None =>
      if !Soft(dealerValue) then RoundEnd(Showdown(dealerValue, Sum(t.player)), t)
      else if t.shoe == [] then RoundEnd(ShoeExhausted, t)
      else
        DrawOneFacts(t.dealer, t.shoe);
        DealerSpec(HitDealer(t))
  }

  /** The player's turn over a sequence of decisions: out on Blackjack or Bust;
      otherwise 1 stands (the dealer plays), 2 hits (one card, then the turn
      again), 3 quits, and anything else is asked again. */
  function PlayerSpec(t: Table, decisions: seq<int>): RoundEnd
    requires TableOK(t)
    decreases |decisions|
  {
    match PlayerOut(Sum(t.player))
    case Some(o) => RoundEnd(o, t)
    case None =>
      if decisions == [] then RoundEnd(AwaitingDecision, t)
      else if decisions[0] == 1 then DealerSpec(t)
      else if decisions[0] == 2 then
        if t.shoe == [] then RoundEnd(ShoeExhausted, t)
        else
          DrawOneFacts(t.player, t.shoe);
          PlayerSpec(HitPlayer(t), decisions[1..])
      else if decisions[0] == 3 then RoundEnd(Quit, t)
      else PlayerSpec(t, decisions[1..])
  }

  /** The outcome the final totals call for, stated in one place: the player's
      21 or bust first, then the dealer's, then the comparison. */
  function Verdict(playerValue: int, dealerValue: int): Outcome
  {
    if playerValue == 21 then PlayerWins
    else if playerValue > 21 then PlayerLoses
    else if dealerValue == 21 then PlayerLoses
    else if dealerValue > 21 then PlayerWins
    else if dealerValue == playerValue then Draw
    else if dealerValue < playerValue then PlayerWins
    else PlayerLoses
  }

  predicate Decided(o: Outcome)
  {
    o == PlayerWins || o == PlayerLoses || o == Draw
  }

  /** The total number of each rank over the two hands and the shoe. */
  function RankCount(t: Table): multiset<Rank>
  {
    multiset(Ranks(t.player)) + multiset(Ranks(t.dealer)) + multiset(Ranks(t.shoe))
  }

  /** Moving the shoe's last card onto the end of a hand keeps the rank count. */
  lemma MoveCount(hand: seq<Card>, newHand: seq<Card>, shoe: seq<Card>)
    requires |shoe| > 0
    requires Ranks(newHand) == Ranks(hand) + [shoe[|shoe| - 1].rank]
    ensures multiset(Ranks(newHand)) + multiset(Ranks(shoe[..|shoe| - 1]))
         == multiset(Ranks(hand)) + multiset(Ranks(shoe))
  {
    var last := shoe[|shoe| - 1];
    assert shoe == shoe[..|shoe| - 1] + [last];
    RanksAppend(shoe[..|shoe| - 1], [last]);
  }

  /** A player's hit moves one card from the end of the shoe to the player's hand:
      the table stays well formed, the shoe loses its last card, the dealer's hand
      is untouched, and the rank count is unchanged. */
  lemma HitPlayerConserves(t: Table)
    requires TableOK(t) && |t.shoe| > 0
    ensures TableOK(HitPlayer(t)) && HitPlayer(t).dealer == t.dealer
    ensures HitPlayer(t).shoe == t.shoe[..|t.shoe| - 1]
    ensures RankCount(HitPlayer(t)) == RankCount(t)
  {
    var h := HitPlayer(t);
    DrawOneFacts(t.player, t.shoe);
    assert h.shoe == t.shoe[..|t.shoe| - 1];
    MoveCount(t.player, h.player, t.shoe);
  }

  /** The same for the dealer's hit. */
  lemma HitDealerConserves(t: Table)
    requires TableOK(t) && |t.shoe| > 0
    ensures TableOK(HitDealer(t)) && HitDealer(t).player == t.player
    ensures HitDealer(t).shoe == t.shoe[..|t.shoe| - 1]
    ensures RankCount(HitDealer(t)) == RankCount(t)
  {
    var h := HitDealer(t);
    DrawOneFacts(t.dealer, t.shoe);
    assert h.shoe == t.shoe[..|t.shoe| - 1];
    MoveCount(t.dealer, h.dealer, t.shoe);
  }

  /** The shoe only ever loses cards from its end. */
  predicate ShoePrefix(later: Table, earlier: Table)
  {
    |later.shoe| <= |earlier.shoe| && later.shoe == earlier.shoe[..|later.shoe|]
  }

  /** The dealer's turn leaves the player's hand untouched, keeps the table well
      formed and only takes cards from the end of the shoe. */
  lemma {:induction false} DealerTurnKeepsTable(t: Table)
    requires TableOK(t)
    ensures var e := DealerSpec(t);
      e.table.player == t.player && TableOK(e.table) && ShoePrefix(e.table, t)
    decreases |t.shoe|
  {
    var dealerValue := Sum(t.dealer);
    if DealerOut(dealerValue).None? && Soft(dealerValue) && t.shoe != [] {
      var h := HitDealer(t);
      HitDealerConserves(t);
      DealerTurnKeepsTable(h);
      var e := DealerSpec(h).table;
      assert t.shoe[..|t.shoe| - 1][..|e.shoe|] == t.shoe[..|e.shoe|];
    }
  }

  /** The dealer's turn neither invents, loses nor duplicates a card. */
  lemma {:induction false} DealerTurnCountsRanks(t: Table)
    requires TableOK(t)
    ensures RankCount(DealerSpec(t).table) == RankCount(t)
    decreases |t.shoe|
  {
    var dealerValue := Sum(t.dealer);
    if DealerOut(dealerValue).None? && Soft(dealerValue) && t.shoe != [] {
      HitDealerConserves(t);
      DealerTurnCountsRanks(HitDealer(t));
    }
  }

  /** What the dealer's turn decides: the dealer only draws while soft, so a
      decided turn leaves the dealer at 17 or more with the outcome the verdict of
      the final totals; the shoe runs dry only while the dealer still had to hit. */
  lemma {:induction false} DealerTurnVerdict(t: Table)
    requires TableOK(t) && PlayerOut(Sum(t.player)).None?
    ensures var e := DealerSpec(t);
      && (Decided(e.outcome) || e.outcome == ShoeExhausted)
      && (Decided(e.outcome) ==>
            Sum(e.table.dealer) >= 17 && e.outcome == Verdict(Sum(t.player), Sum(e.table.dealer)))
      && (e.outcome == ShoeExhausted ==> e.table.shoe == [] && Soft(Sum(e.table.dealer)))
    decreases |t.shoe|
  {
    var dealerValue := Sum(t.dealer);
    if DealerOut(dealerValue).None? && Soft(dealerValue) && t.shoe != [] {
      HitDealerConserves(t);
      DealerTurnKeepsTable(HitDealer(t));
      DealerTurnVerdict(HitDealer(t));
    }
  }

  /** The dealer never draws once at 17 or more. */
  lemma DealerStandsFrom17(t: Table)
    requires TableOK(t)
    requires Sum(t.dealer) >= 17
    ensures DealerSpec(t).table == t
  {
  }

  /** A round, whatever the decisions, keeps the table well formed and only
      takes cards from the end of the shoe. */
  lemma {:induction false} RoundKeepsTable(t: Table, decisions: seq<int>)
    requires TableOK(t)
    ensures var e := PlayerSpec(t, decisions);
      TableOK(e.table) && ShoePrefix(e.table, t)
    decreases |decisions|
  {
    if PlayerOut(Sum(t.player)).None? && decisions != [] {
      if decisions[0] == 1 {
        DealerTurnKeepsTable(t);
      } else if decisions[0] == 2 {
        if t.shoe != [] {
          var h := HitPlayer(t);
          HitPlayerConserves(t);
          RoundKeepsTable(h, decisions[1..]);
          var e := PlayerSpec(h, decisions[1..]).table;
          assert t.shoe[..|t.shoe| - 1][..|e.shoe|] == t.shoe[..|e.shoe|];
        }
      } else if decisions[0] != 3 {
        RoundKeepsTable(t, decisions[1..]);
      }
    }
  }

  /** A round, whatever the decisions, neither invents, loses nor duplicates a card. */
  lemma {:induction false} RoundCountsRanks(t: Table, decisions: seq<int>)
    requires TableOK(t)
    ensures RankCount(PlayerSpec(t, decisions).table) == RankCount(t)
    decreases |decisions|
  {
    if PlayerOut(Sum(t.player)).None? && decisions != [] {
      if decisions[0] == 1 {
        DealerTurnCountsRanks(t);
      } else if decisions[0] == 2 {
        if t.shoe != [] {
          HitPlayerConserves(t);
          RoundCountsRanks(HitPlayer(t), decisions[1..]);
        }
      } else if decisions[0] != 3 {
        RoundCountsRanks(t, decisions[1..]);
      }
    }
  }

  /** What a round decides, whatever the decisions: a decided outcome is the
      verdict of the final totals, reached with the dealer at 17 or more unless the
      player's own Blackjack or Bust ended it first; quitting or running out of
      decisions leaves the dealer's hand untouched with the player below 21. */
  lemma {:induction false} RoundVerdict(t: Table, decisions: seq<int>)
    requires TableOK(t)
    ensures var e := PlayerSpec(t, decisions);
      var playerValue, dealerValue := Sum(e.table.player), Sum(e.table.dealer);
      && (Decided(e.outcome) ==> e.outcome == Verdict(playerValue, dealerValue))
      && (Decided(e.outcome) && PlayerOut(playerValue).None? ==> dealerValue >= 17)
      && (e.outcome == Quit || e.outcome == AwaitingDecision ==>
            playerValue < 21 && e.table.dealer == t.dealer)
    decreases |decisions|
  {
    if PlayerOut(Sum(t.player)).None? && decisions != [] {
      if decisions[0] == 1 {
        DealerTurnKeepsTable(t);
        DealerTurnVerdict(t);
      } else if decisions[0] == 2 {
        if t.shoe != [] {
          HitPlayerConserves(t);
          RoundVerdict(HitPlayer(t), decisions[1..]);
        }
      } else if decisions[0] != 3 {
        RoundVerdict(t, decisions[1..]);
      }
    }
  }

  /** The player's Blackjack or Bust ends the round at once, before any decision
      is read and without the dealer playing. */
  lemma PlayerOutEndsRound(t: Table, decisions: seq<int>)
    requires TableOK(t)
    ensures Blackjack(Sum(t.player)) ==> PlayerSpec(t, decisions) == RoundEnd(PlayerWins, t)
    ensures Bust(Sum(t.player)) ==> PlayerSpec(t, decisions) == RoundEnd(PlayerLoses, t)
  {
  }

  /** Each decision while the player is in: 1 hands over to the dealer, 2 draws
      exactly one card for the player and reads the next decision, 3 quits with
      nothing drawn, any other value is skipped with nothing changed. */
  lemma DecisionDispatch(t: Table, d: int, rest: seq<int>)
    requires TableOK(t) && PlayerOut(Sum(t.player)).None?
    ensures d == 1 ==> PlayerSpec(t, [d] + rest) == DealerSpec(t)
    ensures d == 2 && t.shoe != [] ==>
      && PlayerSpec(t, [d] + rest) == PlayerSpec(HitPlayer(t), rest)
      && Ranks(HitPlayer(t).player) == Ranks(t.player) + [t.shoe[|t.shoe| - 1].rank]
      && HitPlayer(t).shoe == t.shoe[..|t.shoe| - 1]
    ensures d == 3 ==> PlayerSpec(t, [d] + rest) == RoundEnd(Quit, t)
    ensures d !in {1, 2, 3} ==> PlayerSpec(t, [d] + rest) == PlayerSpec(t, rest)
  {
    assert ([d] + rest)[1..] == rest;
    if d == 2 && t.shoe != [] {
      DrawOneFacts(t.player, t.shoe);
    }
  }

  /** The decisions among 1, 2 and 3, in order. */
  function ValidDecisions(decisions: seq<int>): seq<int>
  {
    if decisions == [] then []
    else (if decisions[0] in {1, 2, 3} then [decisions[0]] else []) + ValidDecisions(decisions[1..])
  }

  /** Invalid decisions are re-prompts: dropping all of them does not change the round. */
  lemma {:induction false} InvalidDecisionsIgnored(t: Table, decisions: seq<int>)
    requires TableOK(t)
    ensures PlayerSpec(t, decisions) == PlayerSpec(t, ValidDecisions(decisions))
    decreases |decisions|
  {
    if decisions != [] && PlayerOut(Sum(t.player)).None? {
      var d, rest := decisions[0], decisions[1..];
      assert decisions == [d] + rest;
      if d in {1, 2, 3} {
        assert ValidDecisions(decisions) == [d] + ValidDecisions(rest);
        DecisionDispatch(t, d, ValidDecisions(rest));
        if d == 2 && t.shoe != [] {
          DrawOneFacts(t.player, t.shoe);
          InvalidDecisionsIgnored(HitPlayer(t), rest);
        }
      } else {
        assert ValidDecisions(decisions) == [] + ValidDecisions(rest) == ValidDecisions(rest);
        InvalidDecisionsIgnored(t, rest);
      }
    }
  }

  /** With at least 17 cards between the dealer's hand and the shoe, the dealer's
      turn cannot run the shoe dry: the dealer hits only below 17, and a hand's
      total is at least its number of cards. */
  lemma {:induction false} DealerNeverExhausts(t: Table)
    requires TableOK(t) && |t.shoe| + |t.dealer| >= 17
    ensures DealerSpec(t).outcome != ShoeExhausted
    decreases |t.shoe|
  {
    SumAtLeastSize(t.dealer);
    var dealerValue := Sum(t.dealer);
    if DealerOut(dealerValue).None? && Soft(dealerValue) && t.shoe != [] {
      DrawOneFacts(t.dealer, t.shoe);
      DealerNeverExhausts(HitDealer(t));
    }
  }

  /** With at least 38 cards on the table, at most 17 of them in the dealer's hand,
      the round cannot run the shoe dry: the player hits only below 21 and the
      dealer only below 17, and a hand's total is at least its number of cards. */
  lemma {:induction false} RoundNeverExhausts(t: Table, decisions: seq<int>)
    requires TableOK(t) && |t.shoe| + |t.player| + |t.dealer| >= 38 && |t.dealer| <= 17
    ensures PlayerSpec(t, decisions).outcome != ShoeExhausted
    decreases |decisions|
  {
    SumAtLeastSize(t.player);
    if PlayerOut(Sum(t.player)).None? && decisions != [] {
      if decisions[0] == 1 {
        DealerNeverExhausts(t);
      } else if decisions[0] == 2 {
        DrawOneFacts(t.player, t.shoe);
        RoundNeverExhausts(HitPlayer(t), decisions[1..]);
      } else if decisions[0] != 3 {
        RoundNeverExhausts(t, decisions[1..]);
      }
    }
  }

  /** The table the three objects hold. */
  ghost function TableOf(deck: Deck, player: Hand, dealer: Hand): Table
    reads deck, player, dealer
  {
    Table(player.cards, dealer.cards, deck.cards)
  }

  ghost predicate Ready(deck: Deck, player: Hand, dealer: Hand)
    reads deck, player, dealer
  {
    player != dealer && deck.Valid() && player.Valid() && dealer.Valid()
    && TableOK(TableOf(deck, player, dealer))
  }

  lemma ValidTable(deck: Deck, player: Hand, dealer: Hand)
    requires deck.Valid() && player.Valid() && dealer.Valid()
    ensures TableOK(TableOf(deck, player, dealer))
  {
    assert forall i :: 0 <= i < |deck.cards| ==> AsConstructed(deck.cards[i]);
  }

  /** The dealer's turn on the objects: out on Blackjack or Bust, otherwise hit
      while soft and compare totals once standing. */
  method DealerLogic(deck: Deck, player: Hand, dealer: Hand) returns (outcome: Outcome)
    requires Ready(deck, player, dealer)
    modifies deck, dealer
    ensures Ready(deck, player, dealer)
    ensures RoundEnd(outcome, TableOf(deck, player, dealer)) == DealerSpec(old(TableOf(deck, player, dealer)))
  {
    ghost var start := TableOf(deck, player, dealer);
    while true
      invariant Ready(deck, player, dealer)
      invariant DealerSpec(TableOf(deck, player, dealer)) == DealerSpec(start)
      decreases |deck.cards|
    {
      var out := DealerOut(dealer.value);
      if out.Some? {
        return out.value;
      }
      if Soft(dealer.value) {
        if |deck.cards| == 0 {
          return ShoeExhausted;
        }
        DrawOneFacts(dealer.cards, deck.cards);
        dealer.DrawCards(deck, 1);
        ValidTable(deck, player, dealer);
      } else {
        return Showdown(dealer.value, player.value);
      }
    }
  }

  /** The player's turn on the objects, reading the decisions in order: out on
      Blackjack or Bust, otherwise 1 stands, 2 hits, 3 quits and anything else is
      skipped as a re-prompt. */
  method StandOrHit(deck: Deck, player: Hand, dealer: Hand, decisions: seq<int>) returns (outcome: Outcome)
    requires Ready(deck, player, dealer)
    modifies deck, player, dealer
    ensures Ready(deck, player, dealer)
    ensures RoundEnd(outcome, TableOf(deck, player, dealer)) == PlayerSpec(old(TableOf(deck, player, dealer)), decisions)
  {
    ghost var start := TableOf(deck, player, dealer);
    var i := 0;
    while true
      invariant 0 <= i <= |decisions|
      invariant Ready(deck, player, dealer)
      invariant PlayerSpec(TableOf(deck, player, dealer), decisions[i..]) == PlayerSpec(start, decisions)
      decreases |decisions| - i
    {
      ghost var t := TableOf(deck, player, dealer);
      var out := PlayerOut(player.value);
      if out.Some? {
        return out.value;
      }
      if i == |decisions| {
        return AwaitingDecision;
      }
      var decision := decisions[i];
      assert decisions[i..] == [decision] + decisions[i + 1..];
      DecisionDispatch(t, decision, decisions[i + 1..]);
      i := i + 1;
      if decision == 1 {
        outcome := DealerLogic(deck, player, dealer);
        return;
      } else if decision == 2 {
        if |deck.cards| == 0 {
          return ShoeExhausted;
        }
        player.DrawCards(deck, 1);
        ValidTable(deck, player, dealer);
        assert TableOf(deck, player, dealer) == HitPlayer(t);
      } else if decision == 3 {
        return Quit;
      }
    }
  }

  /** A round from a fresh shoe of `numberOfPacks` packs: two cards to the player,
      two to the dealer, then the player's turn. With at least one pack the shoe
      never runs dry. */
  method PlayRound(numberOfPacks: nat, decisions: seq<int>) returns (outcome: Outcome)
    requires numberOfPacks >= 1
    ensures outcome != ShoeExhausted
  {
    var deck := new Deck(numberOfPacks);
    UnshuffledContents(numberOfPacks);
    assert |deck.cards| == |multiset(deck.cards)| == 52 * numberOfPacks;
    var player := new Hand(deck);
    var dealer := new Hand(deck);
    ghost var start := TableOf(deck, player, dealer);
    RoundNeverExhausts(start, decisions);
    outcome := StandOrHit(deck, player, dealer, decisions);
  }
}
