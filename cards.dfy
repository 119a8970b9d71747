/** Cards: ranks, their symbols, and a card's value with the Ace-high flag. */
module Cards {

  /** The thirteen ranks of a standard pack. */
  datatype Rank = Two | Three | Four | Five | Six | Seven | Eight | Nine | Ten
                | Jack | Queen | King | Ace

  /** The symbol each rank is written with in the deck's rank list. */
  function Symbol(r: Rank): string
  {
    match r
    case Two => "2"
    case Three => "3"
    case Four => "4"
    case Five => "5"
    case Six => "6"
    case Seven => "7"
    case Eight => "8"
    case Nine => "9"
    case Ten => "10"
    case Jack => "J"
    case Queen => "Q"
    case King => "K"
    case Ace => "A"
  }

  predicate IsFace(r: Rank)
  {
    r == Jack || r == Queen || r == King
  }

  predicate IsDigits(s: string)
  {
    forall i :: 0 <= i < |s| ==> '0' <= s[i] <= '9'
  }

  /** The integer a string of decimal digits denotes (the conversion `int(rank)`). */
  function Decimal(s: string): int
    requires IsDigits(s)
  {
    if s == [] then 0 else Decimal(s[..|s| - 1]) * 10 + (s[|s| - 1] as int - '0' as int)
  }

  /** The number of pips on a number card, stated independently of its symbol. */
  function Pips(r: Rank): int
    requires !IsFace(r) && r != Ace
  {
    match r
    case Two => 2
    case Three => 3
    case Four => 4
    case Five => 5
    case Six => 6
    case Seven => 7
    case Eight => 8
    case Nine => 9
    case Ten => 10
  }

  /** A card: its rank, its current value, and whether it is an Ace still counted as 11. */
  datatype Card = Card(rank: Rank, value: int, aceHigh: bool)
  {
    /** Revalues an Ace to 1 and clears its flag; any other card is unchanged. */
    function AceLow(): (c: Card)
      ensures rank == Ace ==> c.rank == Ace && c.value == 1 && !c.aceHigh
      ensures rank != Ace ==> c == this
    {
      if rank == Ace then Card(rank, 1, false) else this
    }

    /** The value shown for a dealer's up-card: 11 for an Ace, whatever its current value. */
    function GetOpeningValue(): (v: int)
      ensures rank == Ace ==> v == 11
      ensures rank != Ace ==> v == value
    {
      if rank == Ace then 11 else value
    }

    /** The card is as constructed, or an Ace that has been revalued to 1. */
    predicate WellFormed()
    {
      this == NewCard(rank) || this == Card(Ace, 1, false)
    }
  }

  /** Builds the card of a rank: a face card is worth 10, an Ace 11 and high,
      a number card the integer its symbol denotes. */
  function NewCard(rank: Rank): (c: Card)
    ensures c.rank == rank
    ensures c.aceHigh <==> rank == Ace
    ensures IsFace(rank) ==> c.value == 10
    ensures rank == Ace ==> c.value == 11
    ensures !IsFace(rank) && rank != Ace ==> c.value == Pips(rank)
  {
    if IsFace(rank) then Card(rank, 10, false)
    else if rank == Ace then Card(rank, 11, true)
    else SymbolDenotesPips(rank); Card(rank, Decimal(Symbol(rank)), false)
  }

  /** The symbol of a number card is a digit string denoting its pip count. */
  lemma SymbolDenotesPips(r: Rank)
    requires !IsFace(r) && r != Ace
    ensures IsDigits(Symbol(r)) && Decimal(Symbol(r)) == Pips(r)
  {
    var s := Symbol(r);
    assert s[..|s| - 1] == if r == Ten then "1" else "";
    if r == Ten {
      assert "1"[..0] == "";
    }
  }

  /** The ranks of a sequence of cards, in order. */
  function Ranks(cs: seq<Card>): (rs: seq<Rank>)
    ensures |rs| == |cs|
    ensures forall i :: 0 <= i < |cs| ==> rs[i] == cs[i].rank
  {
    if cs == [] then [] else [cs[0].rank] + Ranks(cs[1..])
  }

  lemma {:induction false} RanksAppend(a: seq<Card>, b: seq<Card>)
    ensures Ranks(a + b) == Ranks(a) + Ranks(b)
  {
    if a != [] {
      assert (a + b)[1..] == a[1..] + b;
      RanksAppend(a[1..], b);
    }
  }

  /** Lowering settles a card: a second AceLow changes nothing, the card stays
      well formed and keeps its rank, and a lowered card no longer counts high. */
  lemma AceLowSettles(c: Card)
    requires c.WellFormed()
    ensures c.AceLow().AceLow() == c.AceLow()
    ensures c.AceLow().WellFormed() && c.AceLow().rank == c.rank
    ensures !c.AceLow().aceHigh
  {
  }

  /** A well-formed card is worth between 1 and 11; it counts high exactly when
      it is an Ace worth 11. */
  lemma WellFormedValue(c: Card)
    requires c.WellFormed()
    ensures 1 <= c.value <= 11
    ensures c.aceHigh <==> c.rank == Ace && c.value == 11
    ensures c.rank != Ace ==> c == NewCard(c.rank)
  {
  }

  /** The opening value of a well-formed card does not depend on whether its Ace
      has been lowered: it is always the value the card was constructed with. */
  lemma OpeningValueIgnoresLowering(c: Card)
    requires c.WellFormed()
    ensures c.GetOpeningValue() == c.AceLow().GetOpeningValue() == NewCard(c.rank).value
  {
  }
}
