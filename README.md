# Blackjack round model

This project models the game engine of a single-player Blackjack program,
`blackjack.py`. It covers the following:

- **Cards.** A card has a rank, a value and an Ace-high flag. A card can be
  turned Ace-low. There is an opening value, shown for the dealer's up-card.
- **The shoe** (`Deck`). It is built from a number of packs and deals cards
  off its end.
- **Hands.** The evaluation adds up the card values. While the total is over
  21 it lowers the first Ace still counted high. A total below 3 is refused.
  Drawing puts cards from the shoe onto the end of the hand and evaluates it
  again. Three predicates read the total: Blackjack (exactly 21), Bust (over
  21) and Soft (below 17).
- **The round.** The player is out on Blackjack or Bust. Otherwise the player
  stands (1), hits (2) or quits (3), and any other answer is asked again. The
  dealer is out on Blackjack or Bust and hits while soft. After that the totals
  are compared.

The Python objects map onto Dafny like this:

- `Card` is a value: a Dafny datatype `Cards.Card`. Ranks are an enumeration,
  and each rank's symbol is the string the deck's rank list uses.
- `Deck` and `Hand` change their fields in place. They are classes
  (`Shoe.Deck`, `Hands.Hand`) whose `cards` field is a sequence that the
  methods reassign.

The hand evaluation is given in two forms:

- `Hands.Resolve` is a function and specifies the result.
- `Hands.Hand.GetValue` is the method that repeats "add up, lower the first
  high Ace" and is proved to end at `Resolve`.

The round is also given in two forms:

- `Round.PlayerSpec` and `Round.DealerSpec` are pure functions over a `Table`,
  which holds the two hands and the shoe. The player's console answers are
  replaced by a sequence of integer decisions.
- `Round.StandOrHit` and `Round.DealerLogic` play the same turns on the `Deck`
  and `Hand` objects and are proved to end exactly where the functions do.

The lemmas about the functions say what a round means:

- A decided outcome is the verdict of the final totals.
- The dealer only stops at 17 or more.
- No card is created or lost.
- Invalid answers change nothing.
- A fresh shoe of at least one pack is never exhausted.

## Model

| member | source | states |
|---|---|---|
| Cards.NewCard | blackjack.py:12-23 | The card keeps its rank. It counts high exactly when it is an Ace. J, Q and K are worth 10, an Ace 11, and a number card the pip count its symbol denotes. |
| Cards.SymbolDenotesPips | blackjack.py:21-23 | The symbol of every number rank is a digit string. Its decimal value is that rank's pip count, so `int(rank)` never fails for the deck's own ranks. |
| Cards.Card.AceLow | blackjack.py:27-31 | An Ace becomes worth 1 and no longer counts high. Any other card is left exactly as it was. |
| Cards.AceLowSettles | blackjack.py:27-31 | A second lowering changes nothing. A lowered card keeps its rank, stays well formed and never counts high. |
| Cards.WellFormedValue | blackjack.py:12-31 | Every card that construction and lowering can produce is worth 1 to 11. It counts high exactly when it is an Ace worth 11. |
| Cards.Card.GetOpeningValue | blackjack.py:33-40 | An Ace shows 11. Any other card shows its value. |
| Cards.OpeningValueIgnoresLowering | blackjack.py:33-40 | The opening value is the same before and after lowering. It is always the value the card was built with, so a lowered Ace still shows 11. |
| Shoe.UnshuffledContents | blackjack.py:45-48 | The unshuffled shoe of n packs holds 52·n cards. It holds exactly 4·n cards of each rank, all as constructed. |
| Shoe.Deck.constructor | blackjack.py:45-49 | After shuffling, the shoe holds the same multiset of cards as the unshuffled shoe, in some order. |
| Shoe.Dealt | blackjack.py:51-56 | The cards a deal of k hands out number k, and the i-th of them is the i-th card from the end of the shoe. |
| Shoe.Remaining | blackjack.py:51-56 | What a deal of k leaves is a prefix of the shoe, k cards shorter. |
| Shoe.Deck.DealCards | blackjack.py:51-56 | The dealt cards are the last n cards of the shoe, in the order they are popped. The shoe keeps exactly its first part. |
| Shoe.DealSplitsShoe | blackjack.py:51-56 | Dealing hands out exactly n cards and shrinks the shoe by n. Putting the dealt cards back in reverse rebuilds the shoe, and no card is invented or duplicated. |
| Hands.Hand.constructor | blackjack.py:63-65 | A new hand is the two cards dealt from the end of the shoe, evaluated, and its value is accepted. The shoe loses exactly those two cards. |
| Hands.AddUp | blackjack.py:69-75 | The total is the sum of the card values. The list of high Aces holds exactly the positions of the cards that count high, in hand order. Its first entry is the first such card. |
| Hands.Resolve | blackjack.py:77-79 | Evaluation keeps the number of cards and their ranks. It ends with a total of 21 or less, or with no card still counting high. |
| Hands.ResolveIsMinimalLowering | blackjack.py:77-79 | Re-evaluation lowers exactly the first k high Aces in hand order. k is the fewest that bring the total to 21 or below, or all of them. |
| Hands.ResolvedTotal | blackjack.py:67-83 | The evaluated total is the raw total less 10 per lowered Ace, and one lowering fewer would still be over 21. An evaluated total over 21 has no high card left, and the total never drops below the smaller of the raw total and 12. |
| Hands.Hand.GetValue | blackjack.py:67-83 | The lowering loop ends with the hand evaluated as `Resolve` says. It reports `InvalidHand` when the final total is below 3 and the total otherwise, and it leaves the stored value alone. |
| Hands.SumAtLeastSize | blackjack.py:67-83 | Every card is worth at least 1, so a hand's total is at least its number of cards. |
| Hands.Hand.DrawCards | blackjack.py:85-88 | The hand becomes its old cards followed by the cards dealt, re-evaluated. Earlier cards keep their places and ranks. The shoe loses exactly those cards, and the stored value is the new total. |
| Hands.Blackjack | blackjack.py:90-95 | A total of exactly 21. Such a hand is neither Bust nor Soft. |
| Hands.Bust | blackjack.py:97-102 | A total over 21. Such a hand is not Soft. |
| Hands.Soft | blackjack.py:104-109 | A total below 17, the dealer's hit threshold. A Soft hand is below 21, so it is neither Blackjack nor Bust. |
| Round.PlayerOut | blackjack.py:112-121 | The player is out exactly at 21 or above: a win exactly at 21, a loss exactly above 21. |
| Round.DealerOut | blackjack.py:124-133 | The dealer is out exactly at 21 or above: a loss for the player exactly at 21, a win exactly above 21. |
| Round.Showdown | blackjack.py:150-155 | Once the dealer stands the round is always decided: a draw exactly on equal totals, a win for the player exactly when the dealer's total is lower. |
| Round.OutcomeRules | blackjack.py:112-155 | The dealer's out check is the player's with the winner swapped. Swapping the two totals in the showdown swaps the winner. |
| Round.PlayerOutEndsRound | blackjack.py:112-121 | The player's Blackjack wins and Bust loses at once. No decision is read and the table is unchanged. |
| Round.DrawOneFacts | blackjack.py:85-88 | Drawing one card puts the shoe's last card at the end of the hand and takes it off the shoe. |
| Round.DealerSpec | blackjack.py:136-155 | The dealer's turn as a function of the table: out on Blackjack or Bust, a showdown once not Soft, otherwise one card and the turn again. What it decides is stated by `Round.DealerTurnVerdict`, `Round.DealerTurnKeepsTable`, `Round.DealerTurnCountsRanks` and `Round.DealerNeverExhausts`. |
| Round.DealerTurnVerdict | blackjack.py:124-155 | When the player is not out, the dealer's turn either decides the round or runs the shoe dry while still soft. A decided round leaves the dealer at 17 or more, and its outcome is the verdict of the final totals. |
| Round.DealerStandsFrom17 | blackjack.py:145-155 | A dealer at 17 or more draws no card. |
| Round.DealerTurnKeepsTable | blackjack.py:136-155 | The dealer's turn does not touch the player's hand. It only takes cards from the end of the shoe, and it keeps every card well formed. |
| Round.DealerTurnCountsRanks | blackjack.py:136-155 | The dealer's turn keeps the count of each rank over the hands and the shoe. |
| Round.DealerNeverExhausts | blackjack.py:145-149 | With at least 17 cards between the dealer's hand and the shoe, the dealer's turn never finds the shoe empty. |
| Round.DealerLogic | blackjack.py:136-155 | The dealer's turn played on the objects ends with the outcome and the table that `DealerSpec` gives. |
| Round.DecisionDispatch | blackjack.py:166-184 | While the player is in: 1 hands over to the dealer, 2 draws exactly one card for the player and asks again, 3 quits with nothing drawn, and any other value is skipped with nothing changed. |
| Round.InvalidDecisionsIgnored | blackjack.py:180-184 | Dropping every answer other than 1, 2 or 3 does not change the round. |
| Round.PlayerSpec | blackjack.py:158-184 | The player's turn as a function of the table and the decisions: out on Blackjack or Bust, then 1, 2, 3 or a re-prompt. What it decides is stated by `Round.RoundVerdict`, `Round.RoundKeepsTable`, `Round.RoundCountsRanks`, `Round.InvalidDecisionsIgnored` and `Round.RoundNeverExhausts`. |
| Round.StandOrHit | blackjack.py:158-184 | The player's turn played on the objects ends with the outcome and the table that `PlayerSpec` gives. |
| Round.RoundKeepsTable | blackjack.py:158-184 | Whatever the decisions, the round keeps every card well formed and only takes cards from the end of the shoe. |
| Round.RoundCountsRanks | blackjack.py:158-184 | Whatever the decisions, the round keeps the count of each rank over the hands and the shoe. |
| Round.RoundVerdict | blackjack.py:112-184 | A decided outcome is the verdict of the final totals. It is reached with the dealer at 17 or more unless the player's own Blackjack or Bust ended the round. Quitting, or running out of decisions, leaves the dealer's hand untouched with the player below 21. |
| Round.RoundNeverExhausts | blackjack.py:166-177 | With at least 38 cards on the table, and at most 17 in the dealer's hand, no round runs the shoe dry. |
| Round.PlayRound | blackjack.py:224-228 | A round dealt from a fresh shoe of at least one pack never runs out of cards. That is all its caller learns; what the outcome means is stated by `Round.StandOrHit` against `Round.PlayerSpec`. |
| Scenarios.TwoAcesMakeTwelve | blackjack.py:77-79 | A pair of Aces is worth 12. Only the first Ace is lowered. |
| Scenarios.BlackjackOnTheDeal | blackjack.py:114-116 | A player dealt Ace and King wins at once, whatever the decisions. |
| Scenarios.HitToBust | blackjack.py:174-177 | A player on 10 and 5 who hits and draws a 9 is bust on 24 and loses, and the dealer does not play. |
| Scenarios.DealerHitsToTwentyOne | blackjack.py:145-149 | The player stands on 19. The dealer's 16 is soft, so the dealer draws a 5 and has Blackjack at 21, and the player loses. |

## Left out

- Console output (`print`) is not modelled. It has no effect on the game state.
- The answer read by `input` is a sequence of integers.
  - A non-integer answer, which the program catches and asks again about, is modelled like any other value outside 1, 2 and 3.
  - Running out of answers ends the model's round with `AwaitingDecision`. That outcome does not exist in the program, which would wait for more input.
- `BadInput` builds a message and calls the menu again. It is modelled only as "ask again": an invalid answer is skipped.
- The `PlayBlackjack` yes/no menu is not modelled. Its only effect is choosing between starting the player's turn and saying goodbye.
- `random.shuffle` is an arbitrary permutation. The model states the multiset of cards and leaves the order open.
- `ShoeExhausted` is not an outcome of the program. There, popping from an empty list raises an `IndexError`. The player's hit and the whole dealer turn run inside the `try` of `StandorHit`, so its `except Exception` catches that error and re-prompts the player through `BadInput`. It would treat a `ValueError` from the hand evaluation the same way. This catch-and-re-prompt is not modelled: the model ends the round with `ShoeExhausted` instead. It proves that this never happens in a round from a fresh shoe of at least one pack, and the hand invariant rules out the evaluation error.
- The deck and the two hands are global variables in the program. Here they are passed to the methods as parameters.
- The recursive calls of `GetValue`, `DealerLogic` and `StandorHit` are loops in the methods and recursion in the specification functions.
- `Card` objects are mutable in the program, and a card in the model is a value. Dealing pops a card off the deck's list, so it moves rather than being shared. The only aliasing is inside `GetValue`: its local list of high Aces refers to the hand's own card objects, and lowering the first of them changes the hand. The model replaces that card in the hand's sequence at the position the list records, which has the same effect.
- The "Bad card rank" path of `Card.__init__` is not modelled. The rank type holds only the thirteen ranks, and `Cards.SymbolDenotesPips` shows that `int(rank)` succeeds for all of them.
- The `type(total) != int` test in `GetValue` is not modelled. Every value is an integer here.
- `Hands.Hand.GetValue` reports the invalid-hand error only for a total below 3, as the code does. There is no separate check for a hand of fewer than two cards. The hand invariant keeps every hand at 3 or more, so `DrawCards` and the constructor never see the error.
- `Hands.Hand.GetValue` returns the error as a value, not as a raised exception.
