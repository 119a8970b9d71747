/** The shoe: a number of packs of cards, shuffled once, dealt from the end. */
module Shoe {
  import opened Cards

  /** The rank list one suit of a pack is built from, in the order the deck writes it. */
  const RankOrder: seq<Rank> := [Two, Three, Four, Five, Six, Seven, Eight, Nine, Ten,
                                 Jack, Queen, King, Ace]

  /** `s` written out `n` times in a row. */
  function Repeat<T>(s: seq<T>, n: nat): (r: seq<T>)
    ensures |r| == n * |s|
  {
    if n == 0 then [] else s + Repeat(s, n - 1)
  }

  /** A fresh card for each rank, in order. */
  function MakeCards(rs: seq<Rank>): (cs: seq<Card>)
    ensures |cs| == |rs|
    ensures forall i :: 0 <= i < |rs| ==> cs[i] == NewCard(rs[i])
  {
    if rs == [] then [] else [NewCard(rs[0])] + MakeCards(rs[1..])
  }

  /** The shoe of `packs` packs before it is shuffled: the rank list repeated four
      times per pack, each rank made into a card. */
  function Unshuffled(packs: nat): seq<Card>
  {
    MakeCards(Repeat(RankOrder, 4 * packs))
  }

  /** A card as it was constructed, never revalued. */
  predicate AsConstructed(c: Card)
  {
    c == NewCard(c.rank)
  }

  /** The cards `DealCards(k)` hands out: the last `k` cards, in the order they are popped. */
  function Dealt(s: seq<Card>, k: nat): (dealt: seq<Card>)
    requires k <= |s|
    ensures |dealt| == k
    ensures forall i :: 0 <= i < k ==> dealt[i] == s[|s| - 1 - i]
  {
    Reverse(s[|s| - k..])
  }

  /** What is left in the shoe after `DealCards(k)`: the original prefix. */
  function Remaining(s: seq<Card>, k: nat): (rest: seq<Card>)
    requires k <= |s|
    ensures |rest| == |s| - k
    ensures rest <= s
  {
    s[..|s| - k]
  }

  function Reverse<T>(s: seq<T>): (r: seq<T>)
    ensures |r| == |s|
    ensures forall i :: 0 <= i < |s| ==> r[i] == s[|s| - 1 - i]
  {
    if s == [] then [] else Reverse(s[1..]) + [s[0]]
  }

  /** Reversing twice gives back the sequence, and reversing keeps its multiset. */
  lemma ReverseInvolution<T>(s: seq<T>)
    ensures Reverse(Reverse(s)) == s
    ensures multiset(Reverse(s)) == multiset(s)
  {
    ReverseMultiset(s);
  }

  lemma {:induction false} ReverseMultiset<T>(s: seq<T>)
    ensures multiset(Reverse(s)) == multiset(s)
  {
    if s != [] {
      ReverseMultiset(s[1..]);
      assert s == [s[0]] + s[1..];
    }
  }

  /** Dealing `k` cards splits the shoe: exactly `k` cards are handed out, the shoe
      shrinks by `k`, putting the dealt cards back in reverse rebuilds it, and no
      card is invented or duplicated. */
  lemma DealSplitsShoe(s: seq<Card>, k: nat)
    requires k <= |s|
    ensures |Dealt(s, k)| == k && |Remaining(s, k)| == |s| - k
    ensures Remaining(s, k) + Reverse(Dealt(s, k)) == s
    ensures multiset(Remaining(s, k)) + multiset(Dealt(s, k)) == multiset(s)
  {
    ReverseInvolution(s[|s| - k..]);
    assert s == s[..|s| - k] + s[|s| - k..];
  }

  lemma {:induction false} RepeatCount<T>(s: seq<T>, n: nat, x: T)
    ensures multiset(Repeat(s, n))[x] == n * multiset(s)[x]
  {
    if n > 0 {
      RepeatCount(s, n - 1, x);
      var c := multiset(s)[x];
      assert multiset(Repeat(s, n))[x] == c + multiset(Repeat(s, n - 1))[x];
      assert (n - 1) * c + c == n * c;
    }
  }

  lemma {:induction false} MakeCardsCount(rs: seq<Rank>, r: Rank)
    ensures multiset(MakeCards(rs))[NewCard(r)] == multiset(rs)[r]
  {
    if rs != [] {
      MakeCardsCount(rs[1..], r);
      assert rs == [rs[0]] + rs[1..];
      assert MakeCards(rs) == [NewCard(rs[0])] + MakeCards(rs[1..]);
    }
  }

  /** The position of a rank in the rank list. */
  function RankIndex(r: Rank): nat
  {
    match r
    case Two => 0 case Three => 1 case Four => 2 case Five => 3 case Six => 4
    case Seven => 5 case Eight => 6 case Nine => 7 case Ten => 8
    case Jack => 9 case Queen => 10 case King => 11 case Ace => 12
  }

  lemma {:induction false} DistinctOnce<T>(s: seq<T>, x: T)
    requires forall i, j :: 0 <= i < j < |s| ==> s[i] != s[j]
    requires x in s
    ensures multiset(s)[x] == 1
  {
    assert s == [s[0]] + s[1..];
    if s[0] == x {
      assert x !in s[1..];
    } else {
      DistinctOnce(s[1..], x);
    }
  }

  /** Each rank appears exactly once in the rank list. */
  lemma RankOrderOnce(r: Rank)
    ensures multiset(RankOrder)[r] == 1
  {
    assert forall i :: 0 <= i < |RankOrder| ==> RankIndex(RankOrder[i]) == i;
    assert RankOrder[RankIndex(r)] == r;
    DistinctOnce(RankOrder, r);
  }

  /** A shoe of `packs` packs before shuffling holds 52 cards per pack, four
      copies per pack of the card of each rank, and only fresh cards. */
  lemma UnshuffledContents(packs: nat)
    ensures |Unshuffled(packs)| == 52 * packs
    ensures forall r: Rank :: multiset(Unshuffled(packs))[NewCard(r)] == 4 * packs
    ensures forall c :: c in Unshuffled(packs) ==> AsConstructed(c)
  {
    var rs := Repeat(RankOrder, 4 * packs);
    assert |rs| == 4 * packs * 13;
    forall c | c in Unshuffled(packs)
      ensures AsConstructed(c)
    {
      var i :| 0 <= i < |rs| && Unshuffled(packs)[i] == c;
    }
    forall r: Rank
      ensures multiset(Unshuffled(packs))[NewCard(r)] == 4 * packs
    {
      MakeCardsCount(Repeat(RankOrder, 4 * packs), r);
      RepeatCount(RankOrder, 4 * packs, r);
      RankOrderOnce(r);
    }
  }

  /** The shoe. Its cards are a list the deal pops from the end of. */
  class Deck {
    var cards: seq<Card>

    /** Every card still in the shoe is as it was constructed. */
    ghost predicate Valid()
      reads this
    {
      forall i :: 0 <= i < |cards| ==> AsConstructed(cards[i])
    }

    /** Builds the shoe of `numberOfPacks` packs and shuffles it: the order is
        arbitrary, the multiset of cards is that of the unshuffled shoe. */
    constructor (numberOfPacks: nat)
      ensures Valid()
      ensures multiset(cards) == multiset(Unshuffled(numberOfPacks))
    {
      var ordered := Unshuffled(numberOfPacks);
      UnshuffledContents(numberOfPacks);
      var shuffled: seq<Card> :| multiset(shuffled) == multiset(ordered);
      cards := shuffled;
      new;
      forall i | 0 <= i < |cards|
        ensures AsConstructed(cards[i])
      {
        assert cards[i] in multiset(ordered);
      }
    }

    /** Pops `numberOfCards` cards off the end of the shoe, one at a time. */
    method DealCards(numberOfCards: nat) returns (dealt: seq<Card>)
      requires Valid()
      requires numberOfCards <= |cards|
      modifies this
      ensures Valid()
      ensures dealt == Dealt(old(cards), numberOfCards)
      ensures cards == Remaining(old(cards), numberOfCards)
      ensures forall i :: 0 <= i < |dealt| ==> AsConstructed(dealt[i])
    {
      ghost var n := |cards|;
      dealt := [];
      for i := 0 to numberOfCards
        invariant cards == old(cards)[..n - i]
        invariant dealt == Reverse(old(cards)[n - i..])
      {
        ghost var rest := old(cards)[n - i - 1..];
        assert rest[1..] == old(cards)[n - i..];
        dealt := dealt + [cards[|cards| - 1]];
        cards := cards[..|cards| - 1];
      }
    }
  }
}
