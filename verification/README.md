# Heads-up poker server: verified model

A Dafny model of the heads-up no-limit hold'em server, from the card encoding up to the session that drives a table,
with proofs about whole runs of it. Code that changes things in place is modelled by classes and loops; each such
method is proved against a specification on values, and the properties of many steps are proved about that
specification.

| file | what it models |
|---|---|
| `bags.dfy`, `selections.dfy` | sequences read as bags; the choices of k positions and their lexicographic order |
| `cards.dfy`, `deck.dfy` | the rank*4+suit encoding; the 52-card deck, shuffled to an arbitrary permutation |
| `hand_categories.dfy` | what a five-card hand is worth, declaratively: category, comparison key, order |
| `hand_ranking.dfy`, `best_five.dfy`, `hand_search.dfy`, `hand_theorems.dfy` | the evaluator's loops, the best five of 5-7 cards, both enumerations, and what they promise of whole hands |
| `side_pots.dfy`, `payouts.dfy`, `pot.dfy` | layering all-in bets, paying pots out, and the composition of the two |
| `players.dfy`, `hand_run.dfy`, `hand.dfy` | the core engine's hand: a value machine and the `Hand` object that refines it |
| `showdown.dfy` | whom a showdown names, and when that player holds the one best hand |
| `server_run.dfy`, `player_action.dfy` | the server's own action path, refined to the core's |
| `table_run.dfy`, `table_manager.dfy` | the table over many hands |
| `session_run.dfy`, `session.dfy` | connections, presence and timers, and the session's handling of joins, actions and losses |
| `counterexamples.dfy` | concrete inputs for the places where the code does not do what one would expect |

`dafny verify dfyconfig.toml` checks everything.

How the pieces fit. A `View()` function turns each object into a value (`HandView`, `TableView`, `GameView`); each
method's contract says that the new view is a named step of the old one (`Step`, `Play`, `End`, `Driven`, `Handled`);
the run theorems (`HandRun.HandKeepsChips`, `ServerRun.ServerRunRefinesCore`, `TableRun.TableRunKeeps`,
`SessionRun.GameRunKeeps`) speak of every sequence of such steps. `std::unordered_map` iteration is an arbitrary order,
`std::sort` and `std::max_element` are verified loops, `std::shuffle` is any permutation, integer division truncates
and a negative remainder compared with a `size_t` is larger than every index, as in C++. A thrown exception is a result.

## What the code does that one might not expect

The model follows the code in each case. Where a property fails, the exact condition under which it holds is proved for
all inputs or runs, and a concrete input on which it fails is given.

- The key of a flush is its top card alone, so flushes with the same top card tie
  (`HandTheorems.FlushTieMeansSameTop`; input: `HandCategories.FlushKeyLosesKickers`). In every other category the key
  determines the ranks.
- Four of a kind is tested with `== 4`: five equal ranks fall through to a lower category. The category is the highest
  the rules award exactly when no rank occurs five times (`HandCategories.CategoryIsHighest`; input:
  `Counterexamples.FiveEqualRanksMissQuads`), which always holds for cards of one deck.
- `determineWinners` looks at categories only and names one player, even in a tie: the first whose cards make the top
  category. That player is the one and only unbeaten player exactly when every other hand of the category has a
  lexicographically smaller key, and unbeaten exactly when none has a larger one (`Showdowns.WinnerIgnoresKickers`;
  inputs: `Counterexamples.WinnerLosesComparison`, and for a tie `Counterexamples.BoardTieNamesFirst`).
- `poker::applyAction` does not ask whether the player is in the hand: a stranger's chips reach the pot and no bet, and
  the turn passes. And `poker::startHand` resizes the per-player vectors without clearing them. The pot is the sum of the
  recorded bets in every state of a run exactly when the reused bets add up to nothing and no stranger brought a chip
  (`HandRun.PotIsBetsThroughout`; inputs: `Counterexamples.StrangerCallReachesPotOnly`, `StaleBetOutlivesStart`). The
  history rebuilds the record exactly when each stale bet is zero and each stale fold was repeated
  (`HandRun.HistoryIsTheRecord`; input: `Counterexamples.StaleFoldIsNotInHistory`).
- `poker::calculateSidePots` leaves the chips in `hand.pot`. Layering followed by payout pays the winners the matched
  bets exactly when the main pot holds nothing (`Payouts.SoleWinnerTakesMatchedBets`, `Payouts.WinnersTakeMatchedBets`;
  input: `Counterexamples.ChipsInMainPotPaidTwice`).
- A negative side pot is emptied although nobody pays it, and a null winner's share disappears. The chips change by
  exactly the one less the other; without null winners they are kept exactly when no negative side pot is paid, and
  without negative pots exactly when no null winner stands early enough among the takers to be due a chip
  (`Pot.DistributionKeepsChips`, `Payouts.PayoutIffPaid`; inputs: `Counterexamples.NegativePotCreatesChip`,
  `NullWinnerLosesPot`). The two effects can cancel (`Counterexamples.LossAndGainCancel`), so in general the chips are
  kept exactly when the two are equal.
- `TableManager::startHand` leaves `folded` empty, and `isHandComplete` reads it at every player's position. After an
  accepted action both entries exist exactly when the action is a fold by the second seat, so a run stays in bounds
  exactly when nothing else is ever accepted in it (`TableRun.RunReadsInBounds`; input:
  `Counterexamples.FirstCallLeavesNoFoldFlags`). Elsewhere the source reads a missing entry as "not folded"; the model
  takes the out-of-range reads that way too, so what it says of a run beyond such a read rests on that reading.
  `HandleAction` reports each one in a ghost result.
- `endHand` drops the pot when everybody has folded: it conserves chips up to top-ups exactly when somebody is left or
  the pot is empty (`TableRun.EndConservesUnlessAllFolded`; input: `Counterexamples.PotOfTwoFoldsIsDropped`). As driven
  by `handleAction` a hand ends at its first fold, and no chip is lost.
- A connection that speaks for one seated player may rejoin as another, absent one. The first player then stays
  CONNECTED for good, with no connection and no timer. Every connected player has a connection after a run exactly when
  no event of the run was such a rejoin (`SessionRun.AttendedUnlessAbandoned`; input:
  `Counterexamples.TakeOverAbandonsPlayer`).

Two things hold of every input and need no condition:

- `TableManager::startHand` deals from a copy of the deck, so the stored hand's deck still begins with the four hole
  cards (`TableManagers.TableManager.StartHand`). No card appearing twice is proved for the `poker::startHand` path.
- With both players standing `endHand` throws (nobody has five cards); it leaves the table unchanged.

## Model

| member | source | states |
|---|---|---|
| Cards.FromParts | src/core/card.cpp:84-94 | rank and suit read back from the encoding are those it was built from |
| Cards.ValueOfInjective | src/core/card.cpp:84-94 | different cards differ in rank or suit |
| Cards.EncodingOrder | src/core/card.cpp:84-94 | the codes count through the four suits of one rank after the other |
| HandRanking.ToCardValues | src/core/hand_ranking.cpp:16-23 | every card becomes its rank and suit, in order |
| HandRanking.IsStraight | src/core/hand_ranking.cpp:27-55 | true exactly when the list holds five adjacent descending ranks somewhere, or the five ranks of the wheel |
| HandCategories.RunLayout | src/core/hand_ranking.cpp:27-55 | five sorted ranks are a straight ending at `top` exactly when they are that straight's own layout, so a straight has one top |
| HandRanking.IsFlush | src/core/hand_ranking.cpp:57-69 | true exactly when some suit occurs often enough for a flush, whatever order the map is read in |
| HandCategories.FlushIsOneSuit | src/core/hand_ranking.cpp:57-69 | five cards pass that test exactly when all five suits are equal |
| HandCategories.FlushesAreOneSuit | src/core/hand_ranking.cpp:71-127 | five different cards rank FLUSH, STRAIGHT_FLUSH or ROYAL_FLUSH exactly when all five suits are equal |
| HandCategories.StraightsAreConsecutive | src/core/hand_ranking.cpp:27-55 | five ranks are a straight exactly when they differ and lie within four of each other, or are ace to five |
| HandCategories.RoyalRanks | src/core/hand_ranking.cpp:91-95 | the straight that makes a royal flush is exactly ten to ace |
| HandRanking.EvaluateFiveCards | src/core/hand_ranking.cpp:71-127 | the specification's category for five cards, the exception for any other number |
| HandCategories.CategoryIsHighest | src/core/hand_ranking.cpp:71-127 | the category is the highest one the declarative rules award, if and only if no rank occurs five times |
| HandCategories.LevelIsByName | src/core/hand_ranking.hpp:7-18 | the integer values order the ten categories as listed by name |
| HandCategories.DistinctCardsRepeatAtMostFour | src/core/hand_ranking.cpp:71-127 | five different cards never meet that exception |
| HandTheorems.DealtHandsRankByTheRules | src/core/hand_ranking.cpp:71-127 | five different cards are ranked with the highest category the rules award, a flush being five equal suits |
| HandTheorems.HandsRankByTheRules | src/core/hand_ranking.cpp:319-368 | 5-7 different cards are ranked with a category some five of them make by the rules, and with none that ranks, by name, below another that some five make |
| HandTheorems.FlushNeverRanksBelow | src/core/hand_ranking.cpp:349-351 | a hand with five cards of one suit is never ranked a straight or below |
| HandCategories.WheelIsLowest | src/core/hand_ranking.cpp:266-288 | among straights the "ace on top, deuce at the bottom" shortcut recognises exactly the wheel, which has the lowest top |
| HandRanking.GetComparisonKey | src/core/hand_ranking.cpp:206-317 | for any order of the frequency map: under any category the repeated ranks, kickers or top rank that category asks for, -1 standing for a missing one; under the hand's own category the specification's key |
| HandCategories.KeyHasCategoryLength | src/core/hand_ranking.cpp:206-317 | all keys of a category have one length, so comparing up to the shorter length compares everything |
| HandCategories.KeyDeterminesRanks | src/core/hand_ranking.cpp:206-317 | outside FLUSH equal category and equal key imply equal rank multisets |
| HandCategories.FlushKeyIsTopCard | src/core/hand_ranking.cpp:266-288 | the key of a flush is its highest rank and nothing else |
| HandCategories.FlushKeyLosesKickers | src/core/hand_ranking.cpp:266-288 | two flushes with one key and different ranks, in any suit |
| HandCategories.FaceOffOrder | src/core/hand_ranking.cpp:393-409 | five-card comparison is antisymmetric and sign-transitive, and ties only on equal category and key |
| HandCategories.CardOrderIrrelevant | src/core/hand_ranking.cpp:71-127 | category and key depend on the bag of cards, not on their order |
| HandSearch.NextCombination | src/core/hand_ranking.cpp:148-157 | the in-place step turns the index array into its lexicographic successor, or reports that there is none and leaves it alone |
| Selections.NextIsSuccessor | src/core/hand_ranking.cpp:148-157 | that successor is the next selection of the complete list, and is missing exactly at the last |
| HandSearch.GenerateCombinations | src/core/hand_ranking.cpp:130-161 | terminates and returns the hands of all five-index selections, in order, none missing or repeated |
| HandTheorems.EnumerationIsComplete | src/core/hand_ranking.cpp:130-161 | for every n >= 5 the list visited is strictly increasing lexicographically and holds exactly the strictly increasing selections of five indices |
| HandTheorems.EnumerationCount | src/core/hand_ranking.cpp:130-161 | there are n! / (k! (n-k)!) of them |
| HandSearch.EvaluateBestFiveCards | src/core/hand_ranking.cpp:164-202 | the first of the best five-card hands and its own category, for 5-7 cards; the exception otherwise |
| BestFive.BestIndexWins | src/core/hand_ranking.cpp:175-198 | the chosen combination beats or ties all others and strictly beats those before it |
| BestFive.BestIsOptimal | src/core/hand_ranking.cpp:164-202 | the chosen five are cards of the hand, and no five cards of the hand, in any order, beat them |
| HandSearch.Evaluate | src/core/hand_ranking.cpp:319-368 | the second enumeration returns the category of the best five the first one finds, for 5-7 cards; the exception otherwise |
| HandSearch.MaxCategoryIsBest | src/core/hand_ranking.cpp:319-368 | the maximum category over all combinations is the category of the best combination: the two enumerations agree |
| HandTheorems.EvaluateIsMaximum | src/core/hand_ranking.cpp:319-368 | the rank is the maximum category, in the order by name, over every five-card sub-bag of the hand, and is attained |
| HandSearch.Compare | src/core/hand_ranking.cpp:386-410 | the face-off of the two best fives, or the exception when either hand has not 5-7 cards |
| HandTheorems.ComparisonIsPreorder | src/core/hand_ranking.cpp:386-410 | comparison is reflexive, antisymmetric in sign and sign-transitive on whole hands |
| HandTheorems.HigherRankWins | src/core/hand_ranking.cpp:386-396 | of two hands of different category the one higher by name wins the comparison |
| HandTheorems.EachCategoryBeatsTheNext | src/core/hand_ranking.cpp:394-396 | for each of the nine pairs of neighbouring categories, by name, the higher hand wins by exactly one |
| HandCategories.FirstDifference | src/core/hand_ranking.cpp:401-409 | comparing keys returns their difference at the first place where they differ, and 0 if there is none |
| HandTheorems.CardOrderNeverMatters | src/core/hand_ranking.cpp:319-410 | permuting the cards of either hand changes neither rank nor comparison |
| HandTheorems.MoreCardsNeverWeaken | src/core/hand_ranking.cpp:164-202 | a hand that contains another's cards has at least its rank and never loses to it |
| HandTheorems.ExtraCardNeverWeakens | src/core/hand_ranking.cpp:319-368 | adding any card at any place to 5 or 6 cards never lowers rank or comparison |
| HandTheorems.TieMeansSameRanks | src/core/hand_ranking.cpp:386-410 | outside FLUSH two hands tie exactly when their best fives have one category and the same ranks |
| HandTheorems.FlushTieMeansSameTop | src/core/hand_ranking.cpp:386-410 | two flushes tie exactly when their best fives have the same top rank |
| Counterexamples.FiveEqualRanksMissQuads | src/core/hand_ranking.cpp:100-103 | five equal ranks make four of a kind by the rules but are put below it |
| SidePots.SortIndicesByBet | src/core/pot.cpp:20-28 | a permutation of the positions in ascending order of bet |
| SidePots.CalculateSidePots | src/core/pot.cpp:12-52 | one pot per positive bet level, ascending, holding each reaching player's contribution to that layer and open to exactly the players reaching it, each list the tail of those below; amounts total the bets, for any order among equal bets |
| SidePots.GetEligiblePlayersForPot | src/core/pot.cpp:54-65 | the players whose bet reaches the threshold, in table order |
| SidePots.PotsArePositiveAndEven | src/core/pot.cpp:30-49 | with non-negative bets every pot is positive and divides evenly among its players into the height of its layer |
| SidePots.InPotIffReached | src/core/pot.cpp:41-44 | a player is in exactly the lowest pots, those whose level the player's bet reaches, so the eligible sets are nested |
| SidePots.LowestPotsHoldCapped | src/core/pot.cpp:30-49 | the lowest k pots together hold the sum of every bet capped at level k |
| SidePots.EvenSharesReturnBet | src/core/pot.cpp:12-52 | a player's even shares of the pots the player is in add up to exactly the player's bet |
| Payouts.SharesAreFair | src/core/pot.cpp:70-79 | shares differ by at most one chip and the odd chips go to the earliest winners |
| Payouts.OddChipsToEarliest | src/core/pot.cpp:84-102 | of several different winners one who may take from a side pot is paid its even part, plus one chip if fewer eligible winners stand before than there are odd chips; counted on the list of winners itself |
| Payouts.PayoutByPosition | src/core/pot.cpp:67-103 | what each of several different winners is paid in all, from the positions in the list of winners and the eligible lists alone |
| Payouts.SharesAddUp | src/core/pot.cpp:70-79 | the shares add up to the pot if and only if it is not negative |
| Payouts.UnsettledMembers | src/core/pot.cpp:84-106 | what survives is exactly the side pots with chips and no eligible winner |
| Payouts.UnsettledInOrder | src/core/pot.cpp:104-106 | they survive in their order, each as often as it stood there |
| Payouts.PayoutConserves | src/core/pot.cpp:67-107 | what all winners are credited, null ones included, and what is left are what the pots held, if and only if no paid side pot is negative |
| Payouts.PayoutIffPaid | src/core/pot.cpp:69-103 | a winner is credited something if and only if it takes from a pot an index below the amount, or from a negative pot smaller in size than its number of takers |
| Payouts.PayoutToStacks | src/core/pot.cpp:67-113 | with a winner that has no stack: the chips change by what negative pots create less what that winner is credited, with the condition for each to be nothing |
| Payouts.SoleWinnerTakesMatchedBets | src/core/pot.cpp:12-107 | layering then payout pays a sole winner the sum of min(bet, winner's bet), plus a positive main pot; so the rule holds if and only if the main pot holds nothing |
| Payouts.NobodyTakesMoreThanMatched | src/core/pot.cpp:12-107 | with any winners and any main pot, nobody is paid more than the sum of min(bet, own bet) plus the share of the main pot |
| Payouts.WinnersTakeMatchedBets | src/core/pot.cpp:12-107 | together the winners are paid the sum of min(bet, largest winning bet) plus a positive main pot; so just the matched bets if and only if the main pot holds nothing |
| Counterexamples.ChipsInMainPotPaidTwice | src/core/hand.cpp:197-199 | two bets of 10 layered while still in the main pot pay the winner 40 |
| Counterexamples.NegativePotCreatesChip | src/core/pot.cpp:82-103 | a side pot of -1 is erased without being paid for |
| Pot.AwardPot | src/core/pot.cpp:109-113 | only a positive amount reaches the stack, and only of a non-null player |
| Pot.SplitPot | src/core/pot.cpp:70-79 | every listed player's stack grows by that player's shares, however often the player is listed |
| Pot.SettleSidePot | src/core/pot.cpp:82-103 | an empty pot or one without an eligible winner stays; any other is credited to its takers and emptied |
| Pot.DistributePot | src/core/pot.cpp:67-107 | every winner's stack grows by the specified payout, the main pot is emptied if it was positive and there are winners, and the unsettled side pots remain in order |
| Pot.DistributionKeepsChips | src/core/pot.cpp:67-113 | the sum of stacks, main pot and side pots changes by what paid negative pots create less what null winners are credited; without null winners it is kept if and only if no negative side pot is paid, without negative ones if and only if no null winner is paid |
| Pot.DistributeAtTable | src/core/pot.cpp:67-113 | the same on the hand and player objects, before and after the distribution |
| Counterexamples.LossAndGainCancel | src/core/pot.cpp:67-113 | a null winner of a main pot of 1 beside a side pot of -1: one chip is lost, one created |
| Counterexamples.NullWinnerLosesPot | src/core/pot.cpp:69-78 | a pot of 10 awarded to a null winner leaves every stack as it was and 10 chips fewer |
| Pot.ErasedIsUnsettled | src/core/pot.cpp:104-106 | erasing the emptied pots leaves the unsettled ones |
| Decks.CreateStandardDeck | src/core/deck.cpp:8-19 | 52 cards, each card once |
| Decks.Deck.constructor | src/core/deck.cpp:23-25 | a new deck is full and undealt |
| Decks.Deck.Shuffle | src/core/deck.cpp:27-33 | the same cards in some order, all undealt |
| Decks.Deck.Deal | src/core/deck.cpp:35-41 | the next card leaves the undealt cards, or the exception when there is none |
| Decks.Deck.Size | src/core/deck.cpp:43-45 | the number of undealt cards |
| Players.Player.TopUp | src/core/models/player.hpp:44-53 | a stack below 20 becomes 400, any other stays as it is |
| Hands.Hand.AdvanceRound | src/core/models/hand.hpp:66-83 | the next round, and `false` exactly at the showdown |
| Poker.DealHoleCards | src/core/hand.cpp:37-43 | position i is dealt cards 2i and 2i+1, as far as the deck reaches; a player keeps the cards of the last position that names the player; players beyond an exhausted deck keep their old cards |
| Poker.DealCommunityCards | src/core/hand.cpp:45-49 | the board grows by the top cards of the deck, as many as asked for or left |
| Poker.StartHand | src/core/hand.cpp:14-35 | the hand is in the value model's starting state on a permutation of the given deck; one player posted as both blinds holds the second pair of cards |
| Poker.ResetHand | src/core/hand.cpp:201-218 | no players, clean vectors, a full undealt deck |
| Poker.ApplyAction | src/core/hand.cpp:51-118 | for any list of players and any player, of the hand or not: accepted exactly under the stated checks; a refusal changes nothing but the vectors' sizes, an acceptance is the specified record |
| Poker.Act | src/core/hand.cpp:51-118 | among different players the call is an action step of the value machine, a player's or a stranger's, whole view included |
| Poker.AdvanceBettingRound | src/core/hand.cpp:120-138 | the call is the `Advance` step of the value machine, and throws exactly when the deck holds fewer cards than the round needs |
| Poker.IsHandComplete | src/core/hand.cpp:140-158 | true exactly at the showdown or with at most one player not folded; tells whether all its reads of the fold flags exist |
| Poker.EvaluateActive | src/core/hand.cpp:178-186 | every active player's rank, or the exception as soon as one has not 5-7 cards |
| Poker.MaxElement | src/core/hand.cpp:188-194 | the first player of maximal rank |
| Poker.DetermineWinners | src/core/hand.cpp:160-195 | the last player left, or the first active player of maximal category, or the exception |
| Poker.ShowdownHasWinner | src/core/hand.cpp:160-195 | at the showdown of a dealt hand it never throws and names one unfolded player whose rank no unfolded player exceeds |
| Showdowns.KeyDecides | src/core/hand_ranking.cpp:398-409 | between hands of one category the lexicographically larger key wins |
| Showdowns.NamesFirstOfTopCategory | src/core/hand.cpp:160-195 | at a dealt showdown with anybody left, the one named is the first player in play whose cards make the top category |
| Showdowns.WinnerIgnoresKickers | src/core/hand.cpp:188-194 | that player is the only one nobody beats if and only if every other hand of the category has a smaller key, and unbeaten if and only if none has a larger one |
| Showdowns.TopSoleUnbeatenIff | src/core/hand.cpp:188-194 | the same for the hands alone, whoever is named |
| Counterexamples.BoardTieNamesFirst | src/core/hand.cpp:188-194 | two players playing a royal flush on the board tie, and the first alone is named |
| Counterexamples.WinnerLosesComparison | src/core/hand.cpp:188-194 | a showdown of different cards whose named winner loses the full comparison |
| Poker.CalculateSidePots | src/core/hand.cpp:197-199 | the side pots layer the recorded bets and total them; nothing else of the hand changes |
| HandRun.StepKeepsChips | src/core/hand.cpp:51-118 | each event, strangers' actions included, keeps stacks plus pot up to the chips a stranger brings, which reach the pot and no bet; non-negative stacks stay so, and the minimum raise never falls |
| HandRun.RefusedChangesNothing | src/core/hand.cpp:51-118 | on sized vectors an event changes nothing if and only if it is refused |
| HandRun.RunKeepsChips | src/core/hand.cpp:51-138 | over any run, strangers' actions included, chips are conserved and bets track the pot up to what strangers bring, stacks stay non-negative, and every accepted raise costs at least the big blind |
| HandRun.HandKeepsChips | src/core/hand.cpp:14-118 | from the start: chips are the initial stacks and what strangers bring, raises number at most a quarter of that, the minimum raise is at least 4, and the pot exceeds the recorded bets by what strangers brought less the stale bets |
| HandRun.HandByAmounts | src/core/hand.cpp:14-118 | after any run, for each player: stack and bet are the initial ones less and plus the sum of that player's own accepted calls and raises; the pot is the sum of all, the minimum raise the last raise or 4, the turn the parity of the accepted actions |
| HandRun.RunPaysOwnAmounts | src/core/hand.cpp:51-118 | the history grows by exactly the accepted actions in order, and each player's stack falls by the player's own amounts |
| HandRun.RoundsInOrder | src/core/hand.cpp:120-138 | a hand goes through preflop, flop, turn, river and showdown, one round an advance, and stays at the showdown |
| HandRun.PotIsBetsThroughout | src/core/hand.cpp:14-118 | the pot is the recorded bets in every state of a run if and only if the reused vector's bets add up to nothing and no stranger brought a chip |
| Counterexamples.StrangerCallReachesPotOnly | src/core/hand.cpp:51-118 | a stranger's call of 4 on a fresh hand makes the pot 4, leaves the bets 0 and passes the turn |
| Counterexamples.StaleBetOutlivesStart | src/core/hand.cpp:19-20 | a hand started on a vector holding a bet of 4 has pot 0 and bets of 4 |
| Poker.FreshVectorsAreClean | src/core/hand.cpp:19-20 | empty vectors, those of a new or reset hand, meet that condition |
| HandRun.HistoryRebuildsBook | src/core/hand.cpp:14-118 | over any run, on new and reused hands: replaying the history gives pot, minimum raise and turn, and gives bets and folds on top of what the reused vectors held |
| HandRun.HistoryIsTheRecord | src/core/hand.cpp:14-118 | the replay is the whole record if and only if each stale bet is zero and each stale fold is repeated in the history |
| Counterexamples.StaleFoldIsNotInHistory | src/core/hand.cpp:19-20 | a hand started on a vector holding a fold has a fold its history lacks |
| HandRun.RunKeepsCards | src/core/hand.cpp:14-138 | over any run hole cards, board and undealt cards are the shuffled deck card by card, the board has 0, 3, 4, 5 or 5 cards by round, and dealing never runs out |
| PlayerAction.CanAct | src/server/player_action.cpp:114-130 | present, in the hand and not folded; a missing fold entry counts as not folded |
| PlayerAction.ValidateAction | src/server/player_action.cpp:9-50 | all of the server's checks, and no others |
| PlayerAction.ApplyAction | src/server/player_action.cpp:52-112 | validated actions are the server's record, refused ones change nothing at all |
| ServerRun.ServerAcceptsLess | src/server/player_action.cpp:9-50 | the server accepts exactly the core's actions that come from the present, unfolded player in turn with a non-negative stack and fold without chips; both spelled out check by check |
| ServerRun.ServerRefinesCore | src/server/player_action.cpp:52-112 | on vectors of any size up to the number of players, the server's record is the core's once missing entries are read as defaults |
| ServerRun.ServerRunRefinesCore | src/server/player_action.cpp:52-112 | feeding the granted requests of any server run to the core gives the same stacks, pot, bets, folds, minimum raise, turn and history |
| ServerRun.GrantedActionsAlternate | src/server/player_action.cpp:45-47 | over any run the heads-up players whose actions are granted strictly alternate |
| ServerRun.ServerHistoryIsLog | src/server/player_action.cpp:89-109 | over any run replaying the history rebuilds the server's record |
| TableManagers.TableManager.constructor | src/server/table_manager.cpp:14-23 | an empty table waiting for players, button at seat 0 |
| TableManagers.TableManager.GetPlayer | src/server/table_manager.cpp:61-69 | the seated player with that id, or null exactly when no seat holds it |
| TableManagers.TableManager.AssignSeat | src/server/table_manager.cpp:25-43 | succeeds exactly for an existing empty seat and an id not seated; otherwise nothing changes |
| TableRun.AssignKeeps | src/server/table_manager.cpp:25-43 | the player takes the asked seat, 0 or 1, exactly when it is empty and nobody has the id; the other seat stays, the chips grow by the stack |
| TableManagers.TableManager.RemovePlayer | src/server/table_manager.cpp:45-59 | empties exactly that player's seat, or reports that nobody has the id; a hand in progress goes on with its own references |
| TableRun.RemoveEmptiesOneSeat | src/server/table_manager.cpp:45-59 | the seat that holds the id is emptied and no other |
| TableManagers.TableManager.StartHand | src/server/table_manager.cpp:71-115 | succeeds exactly with two players waiting and no hand; the player after the button acts first; the stored deck still holds the hole cards |
| TableRun.StartKeeps | src/server/table_manager.cpp:90-94 | with button 0 the second seat acts first, with button 1 the first; pot 0, minimum raise 4, no chip moves |
| TableManagers.TableManager.ProcessPlayerAction | src/server/table_manager.cpp:153-175 | accepted exactly when the server's checks pass for that seat; the whole table view is the specified play, the table's pot included |
| TableRun.CanPlayMeans | src/server/table_manager.cpp:153-175 | when the table lets an action through, check by check: the seat whose turn it is, connected, not sitting out, not folded, and the amounts each action allows |
| TableRun.PlayMovesAmount | src/server/player_action.cpp:52-112 | the acting seat pays exactly the amount of a call or raise into the pot, the other seat keeps its chips, the turn passes |
| TableManagers.TableManager.WinnersOfTwo | src/core/hand.cpp:160-195 | between two players with two cards each: the exception with both standing, else the one left, or nobody |
| TableManagers.TableManager.EndHand | src/server/table_manager.cpp:117-151 | the whole table view is the specified ending; with both players standing the exception, and nothing changes |
| TableRun.TopUpsOnlyAdd | src/core/models/player.hpp:44-53 | a top-up brings a stack below 20 to 400 and never takes a chip |
| TableRun.FoldFlagsInBounds | src/core/hand.cpp:145-156 | after an accepted action both fold flags exist if and only if it was a fold by the second seat |
| Counterexamples.FirstCallLeavesNoFoldFlags | src/server/table_manager.cpp:79-100 | after two joins and the first call no fold flag exists |
| TableRun.PlayKeeps | src/server/table_manager.cpp:153-175 | an action keeps the table's chips and completes the hand exactly when it is an accepted fold |
| TableRun.EndKeeps | src/server/table_manager.cpp:117-151 | after a fold the other player collects the whole pot; each stack becomes 400 if that leaves it below 20 and is otherwise exactly what it was with the pot paid; the button moves, and the table loses no chip |
| TableRun.FoldPaysOther | src/server/table_manager.cpp:117-151 | the player who did not fold is paid exactly the pot and no chip is lost |
| TableRun.EndConservesUnlessAllFolded | src/server/table_manager.cpp:117-151 | ending a hand conserves chips up to top-ups if and only if somebody is left or the pot is empty |
| Counterexamples.PotOfTwoFoldsIsDropped | src/server/table_manager.cpp:117-151 | after a call of 4 and a fold by each player, ending the hand loses 4 chips |
| TableRun.RunReadsInBounds | src/core/hand.cpp:145-156 | a run never reads past the fold flags if and only if the only actions accepted in it are folds by the second seat |
| TableRun.DrivenKeeps | src/server/table_manager.cpp:25-175 | each event keeps the table's invariant and accounts for every chip |
| TableRun.TableRunKeeps | src/server/game_session.cpp:679-707 | over any run of joins, leaves, hands and actions: chips are buy-ins and top-ups less departures, a hand exists exactly in HAND_IN_PROGRESS, the table's pot is the hand's, seats differ, each hand's history rebuilds its record, the button is the number of completed hands mod 2 |
| TableRun.CompletedHandPays | src/server/table_manager.cpp:117-151 | in any run, right after a completed hand: the folding seat has what it had and the other its stack plus the pot, each brought to 400 if below 20 |
| Sessions.GameSession.RegisterSession | src/server/game_session.cpp:402-407 | both maps gain the pair and nothing else changes |
| Sessions.GameSession.RemoveSession | src/server/game_session.cpp:409-418 | both maps lose the pair of that player, if any |
| Sessions.GameSession.SendWelcome | src/server/game_session.cpp:92-100 | a connection is registered under the new id; null is ignored |
| Sessions.GameSession.OnDisconnect | src/server/game_session.cpp:420-447 | the whole game view is the specified loss: maps, presence and grace timer; unknown connections are ignored |
| Sessions.GameSession.HandleJoin | src/server/game_session.cpp:465-628 | every branch's reply and the whole game view: bad names, reconnection, a second connection, already seated, full table, a new seat and the hand it may start |
| Sessions.PlainReplyMeans | src/server/game_session.cpp:549-627 | what each answer to a join says of the game: unauthorized, already seated, table full (nothing changes), or the first empty seat taken with 400 chips and a hand started when both are |
| Sessions.RejoinReplyMeans | src/server/game_session.cpp:490-545 | what each answer to a rejoin says: an ordinary join, a second connection refused without change, or the player back on this connection, present, without timers, same seat and stack |
| Sessions.GameSession.Reconnect | src/server/game_session.cpp:490-545 | an absent player's seat is taken over on this connection, unless another live connection holds it |
| Sessions.GameSession.JoinAsNewcomer | src/server/game_session.cpp:549-627 | the first empty seat with a starting stack, and a hand when the table is full |
| Sessions.GameSession.HandleAction | src/server/game_session.cpp:630-708 | goes through exactly for a fold, call or raise of 0 to 4000, from a registered connection, naming the current hand, that the table lets through, so only from the seat to act; otherwise nothing changes and the reply is the failing check's code; then the table takes the driven step, with the completed hand's announcement |
| Sessions.GameSession.BroadcastHandCompleted | src/server/game_session.cpp:296-346 | the announced winner and amount, or the exception while both players stand |
| Sessions.AnnouncedIsAwarded | src/server/game_session.cpp:308-346 | after the fold that ends a hand the announced split is what `endHand` credits to the other player |
| Sessions.AnnouncedIsCredited | src/server/game_session.cpp:308-346 | for any number of different winners and no side pots the announced share of each is what `distributePot` credits |
| Sessions.PlayerStateManager.OnDisconnect | src/server/player_state.cpp:13-24 | the player is disconnected and not sitting out, with the grace timer armed; nobody else's presence changes |
| Sessions.PlayerStateManager.OnReconnect | src/server/player_state.cpp:26-35 | the player is present again and holds no timer |
| Sessions.PlayerStateManager.OnGraceTimerExpired | src/server/player_state.cpp:37-50 | a seated player sits out, and the removal timer is armed |
| Sessions.GameSession.GraceTimerFires | src/server/player_state.cpp:19-23 | a pending grace timer's expiry is the specified event on the whole game view; without one nothing happens |
| Sessions.GameSession.RemovalTimerFires | src/server/player_state.cpp:46-49 | the removal timer's expiry changes only that timer |
| SessionRun.GraceEndMeans | src/server/player_state.cpp:37-50 | when a pending grace period ends, the grace timer has expired, the removal timer is pending and the player sits out; everything else stays |
| SessionRun.RemovalEndMeans | src/server/player_state.cpp:46-49 | when a pending removal timer ends it has expired, and that is all |
| Sessions.PlayerStateManager.IsActive | src/server/player_state.cpp:63-66 | agrees with the player's own presence test |
| Sessions.ConnectionManager.StartGraceTimer | src/server/connection_manager.cpp:26-46 | the player's grace timer is pending; the removal timer and the other players' timers are untouched |
| Sessions.ConnectionManager.StartRemovalTimer | src/server/connection_manager.cpp:48-68 | the player's removal timer is pending; the grace timer and the other players' timers are untouched |
| Sessions.ConnectionManager.CancelTimers | src/server/connection_manager.cpp:70-86 | the player's timers are gone, the others' untouched |
| Sessions.ConnectionManager.HasActiveTimers | src/server/connection_manager.cpp:88-97 | true exactly when a timer object is held, fired or not |
| SessionRun.GameRunKeeps | src/server/game_session.cpp:402-447 | over any admissible run the two maps are inverse, a seated player with a live connection is connected and not sitting out, a held timer or sitting out implies disconnected, and grace and removal are never both pending |
| SessionRun.RegisteringKeepsInverse | src/server/game_session.cpp:402-407 | registering keeps the maps inverse if and only if neither side was bound to someone else |
| SessionRun.AttendanceOf | src/server/game_session.cpp:490-520 | an event leaves a connected player without a connection exactly when the player already had none, or the player's own connection rejoins as an absent one |
| SessionRun.AttendedUnlessAbandoned | src/server/game_session.cpp:490-520 | after any admissible run every connected player has a connection if and only if no event of the run was such a rejoin |
| Counterexamples.TakeOverAbandonsPlayer | src/server/game_session.cpp:505-513 | two players sit down, the second is lost, the first one's connection rejoins as the second: the first stays connected with no connection and no timer |
| SessionRun.RepeatedLossIsNoOp | src/server/game_session.cpp:420-447 | losing one connection twice is losing it once |
| SessionRun.ReturnRestoresPlayer | src/server/game_session.cpp:490-545 | losing a connection and rejoining on a new one, before or after the grace period, restores table and timers; only the connection changes |

## Left out

- Networking, Asio, JSON parsing and message texts, logging, mutexes, acknowledgements other than the replies modelled.
- Clocks, timestamps and UUID text: ids of players and hands are parameters, a disconnect time is a flag.
- The distribution of shuffles: only that a shuffle is some permutation.
- Machine-integer overflow: amounts are mathematical integers.
- `betting_rules.cpp`, the client, and the card, rank and category strings: small single-branch code.
- Blinds and betting-round completion: blinds are never posted and `isBettingRoundComplete` is a placeholder, so no claim is made about full no-limit hold'em betting.
- The table's private dealing of community cards (`table_manager.cpp:181-227`), which nothing calls.
- Eviction after the removal timeout: the timer is armed with the broadcast callback (`player_state.cpp:46-49`), so its expiry changes nothing but the timer; `onRemovalTimerExpired` is not part of this model.
- A timer whose expiry is already queued when it is cancelled; an expiry is modelled as happening only to a pending timer.
- A `PlayerStateManager` constructed without a removal callback: `GameSession` always passes one.
- `Table` is folded into `TableManager`: its id, and the board that is cleared and never filled, are dropped, as are `hand.table`, `completed_at` and `startHand`'s unused dealer.
- The next-combination step and the picking of five cards are coded twice in the source with identical text; the model writes them once and both enumeration loops use them.
- Poker.Act: requires the players of the hand to be different, since positions stand for players in the value model; `Poker.ApplyAction` has no such demand.
- HandRanking.GetComparisonKey: requires what the source indexes without checking: a card for straights and flushes, two pairs for TWO_PAIR.
- Poker.IsHandComplete: an index past the end of `folded` is undefined in C++; the model reads it as "not folded" and reports it in a ghost result.
- Players inside `hand.players` are never null; winners and the players of side pots may be.
- TableRun.TableRunKeeps: players leave between hands only; after a removal during a hand the table's invariant is not claimed.
- TableManagers.TableManager.StartHand: card uniqueness is not claimed, because the stored deck still holds the hole cards.
- SessionRun.GameRunKeeps: a welcome goes to a connection not yet registered and carries an id never used before, which UUIDs and the accept loop provide.
- Top-ups requested by a client during a hand (`handleTopUp`): only the top-up between hands is modelled.
