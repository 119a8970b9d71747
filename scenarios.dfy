/** Worked rounds: concrete hands and shoes and the outcomes the rules give them.
    The shoe is dealt from its end, so its last card is the next one drawn. */
module Scenarios {
  import opened Cards
  import opened Shoe
  import opened Hands
  import opened Round

  /** Two Aces are worth 12, not 2 and not 22: only the first Ace is lowered. */
  lemma TwoAcesMakeTwelve()
    ensures Resolve([NewCard(Ace), NewCard(Ace)]) == [Card(Ace, 1, false), Card(Ace, 11, true)]
    ensures Sum(Resolve([NewCard(Ace), NewCard(Ace)])) == 12
  {
    var aces := [NewCard(Ace), NewCard(Ace)];
    ResolveIsMinimalLowering(aces);
    assert Sum(aces) == 22 && HighCount(aces) == 2;
  }

  /** Ten, Six and Five are worth 21 and have no Ace to lower. */
  lemma TenSixFiveIsTwentyOne()
    ensures Resolve([NewCard(Ten), NewCard(Six), NewCard(Five)]) == [NewCard(Ten), NewCard(Six), NewCard(Five)]
    ensures Sum([NewCard(Ten), NewCard(Six), NewCard(Five)]) == 21
  {
    var drawn := [NewCard(Ten), NewCard(Six), NewCard(Five)];
    assert Sum(drawn) == 21 && HighCount(drawn) == 0;
  }

  /** Player [10, 9] stands; the dealer's [10, 6] must hit, draws a 5, reaches 21
      and the player loses. */
  lemma DealerHitsToTwentyOne()
    ensures PlayerSpec(Table([NewCard(Ten), NewCard(Nine)], [NewCard(Ten), NewCard(Six)], [NewCard(Five)]), [1]).outcome
            == PlayerLoses
  {
    var t := Table([NewCard(Ten), NewCard(Nine)], [NewCard(Ten), NewCard(Six)], [NewCard(Five)]);
    var drawn := [NewCard(Ten), NewCard(Six), NewCard(Five)];
    assert TableOK(t) by {
      assert t.player[0].WellFormed() && t.player[1].WellFormed();
      assert t.dealer[0].WellFormed() && t.dealer[1].WellFormed() && t.shoe[0].WellFormed();
    }
    assert Sum(t.player) == 19 && Sum(t.dealer) == 16;
    assert t.dealer + Dealt(t.shoe, 1) == drawn && Remaining(t.shoe, 1) == [];
    TenSixFiveIsTwentyOne();
    var h := HitDealer(t);
    assert h == Table(t.player, drawn, []);
    assert DealerSpec(h) == RoundEnd(PlayerLoses, h);
    DecisionDispatch(t, 1, []);
  }

  /** Player [A, K] has Blackjack at once and wins whatever is decided, with no
      dealer turn. */
  lemma BlackjackOnTheDeal(dealer: seq<Card>, shoe: seq<Card>, decisions: seq<int>)
    requires AllWellFormed(dealer) && AllWellFormed(shoe)
    ensures var t := Table([NewCard(Ace), NewCard(King)], dealer, shoe);
      PlayerSpec(t, decisions) == RoundEnd(PlayerWins, t)
  {
    assert Sum([NewCard(Ace), NewCard(King)]) == 21;
  }

  /** Ten, Five and Nine are worth 24 and have no Ace to lower. */
  lemma TenFiveNineIsTwentyFour()
    ensures Resolve([NewCard(Ten), NewCard(Five), NewCard(Nine)]) == [NewCard(Ten), NewCard(Five), NewCard(Nine)]
    ensures Sum([NewCard(Ten), NewCard(Five), NewCard(Nine)]) == 24
  {
    var drawn := [NewCard(Ten), NewCard(Five), NewCard(Nine)];
    assert Sum(drawn) == 24 && HighCount(drawn) == 0;
  }

  /** Player [10, 5] hits and draws a 9: 24 is bust, the round ends at once, the
      dealer's hand untouched. */
  lemma HitToBust(dealer: seq<Card>, rest: seq<int>)
    requires AllWellFormed(dealer)
    ensures var e := PlayerSpec(Table([NewCard(Ten), NewCard(Five)], dealer, [NewCard(Nine)]), [2] + rest);
      e.outcome == PlayerLoses && e.table.dealer == dealer && e.table.shoe == []
  {
    var t := Table([NewCard(Ten), NewCard(Five)], dealer, [NewCard(Nine)]);
    var drawn := [NewCard(Ten), NewCard(Five), NewCard(Nine)];
    assert Sum(t.player) == 15;
    assert AllWellFormed(t.player) && AllWellFormed(t.shoe) by {
      assert t.player[0].WellFormed() && t.player[1].WellFormed() && t.shoe[0].WellFormed();
    }
    assert t.player + Dealt(t.shoe, 1) == drawn && Remaining(t.shoe, 1) == [];
    TenFiveNineIsTwentyFour();
    var h := HitPlayer(t);
    assert h == Table(drawn, dealer, []);
    PlayerOutEndsRound(h, rest);
    DecisionDispatch(t, 2, rest);
  }
}
