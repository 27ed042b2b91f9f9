/**
 * Inputs on which the code does not do what one would expect of it; the exact conditions are proved beside
 * each operation.
 */
module Counterexamples {
  import opened Bags
  import opened Cards
  import opened Selections
  import opened HandCategories
  import opened BestFive
  import opened HandRanking
  import opened HandSearch
  import opened Hands
  import opened Players
  import SidePots
  import Payouts
  import HandRun
  import TableRun
  import SessionRun
  import Poker
  import Pot
  import HandTheorems

  /** Five equal ranks (only possible with repeated cards) are not even ranked as four of a kind. */
  lemma FiveEqualRanksMissQuads(r: Rank)
    ensures
      var bag := multiset{r, r, r, r, r};
      && Makes(bag, false, FourOfAKind)
      && Category(bag, false).Level() < FourOfAKind.Level()
  {
    var bag := multiset{r, r, r, r, r};
    assert bag[r] == 5;
    CategoryIsHighest(bag, false);
    if Category(bag, false).Level() >= FourOfAKind.Level() {
      HasGroup(bag, 4);
      HasGroup(bag, 3);
    }
  }

  // ---------- The winner can hold the weaker hand ----------

  lemma SuitedFiveIsFlush(ranks: seq<Rank>, suit: Suit, five: seq<CardValue>)
    requires StrictlyDescending(ranks) && !IsRun(multiset(ranks))
    requires |five| == 5 && multiset(five) <= multiset(Suited(ranks, suit))
    ensures CategoryOf(five) == Flush && multiset(Ranks(five)) <= multiset(ranks)
  {
    hide RunTo;
    var bag := multiset(Ranks(five));
    MapSubBag(RankOfValue, five, Suited(ranks, suit));
    RanksAreFive(five);
    forall r ensures bag[r] <= 1 { StrictlyDescendingCountsOne(ranks, r); }
    HasGroup(bag, 4);
    HasGroup(bag, 3);
    forall i | 0 <= i < 5 ensures five[i].suit == suit {
      assert five[i] in multiset(Suited(ranks, suit));
      assert five[i] in Suited(ranks, suit);
    }
    assert Suits(five) == seq(5, _ => suit as int);
    RepeatBag(suit, 5);
    assert multiset(Suits(five))[suit] == 5;
    if top :| RunTo(bag, top) { SubRun(bag, multiset(ranks), top); }
  }

  lemma SubRun(small: multiset<int>, large: multiset<int>, top: int)
    requires small <= large && RunTo(small, top)
    ensures RunTo(large, top)
  {
  }

  /** The best five of cards of one suit without a straight are a flush whose key is the highest card. */
  lemma BestOfOneSuit(ranks: seq<Rank>, suit: Suit)
    requires |ranks| >= 5 && StrictlyDescending(ranks) && !IsRun(multiset(ranks))
    ensures
      var best := Best(Suited(ranks, suit));
      CategoryOf(best) == Flush && KeyOf(best) == [ranks[0]]
  {
    hide IsRun, CategoryOf, KeyOf, Best, Ranks, Distinct, StrictlyDescending;
    var cards := Suited(ranks, suit);
    var best, high := Best(cards), cards[..5];
    BestIsOptimal(cards);
    assert cards == high + cards[5..];
    SuitedFiveIsFlush(ranks, suit, best);
    SuitedFiveIsFlush(ranks, suit, high);
    FlushKeyBounds(ranks, best);
    FlushKeyBounds(ranks, high);
    assert ranks[0] in multiset(Ranks(high)) by { TopIsAmong(ranks, suit); }
    assert FaceOff(best, high) >= 0;
  }

  lemma TopIsAmong(ranks: seq<Rank>, suit: Suit)
    requires |ranks| >= 5
    ensures ranks[0] in multiset(Ranks(Suited(ranks, suit)[..5]))
  {
  }

  lemma FlushKeyBounds(ranks: seq<Rank>, five: seq<CardValue>)
    requires |ranks| >= 5 && StrictlyDescending(ranks)
    requires |five| == 5 && CategoryOf(five) == Flush && multiset(Ranks(five)) <= multiset(ranks)
    ensures |KeyOf(five)| == 1 && KeyOf(five)[0] <= ranks[0]
    ensures forall r :: r in multiset(Ranks(five)) ==> r <= KeyOf(five)[0]
  {
    var bag := multiset(Ranks(five));
    RanksAreFive(five);
    KeyHasCategoryLength(bag, HasFlush(five));
    var top := KeyOf(five)[0];
    assert KeyOf(five) == [top];
    FlushKeyIsTopCard(bag, top);
    assert top in multiset(ranks);
    assert top in ranks;
  }

  /**
   * A showdown in which the first player is named the winner with the hand that loses the comparison:
   * both have a flush, the second one an ace-high flush.
   */
  lemma WinnerLosesComparison(suit: Suit) returns (hole1: seq<Card>, hole2: seq<Card>, board: seq<Card>)
    ensures |hole1| == |hole2| == 2 && |board| == 5 && Distinct(hole1 + hole2 + board)
    ensures Poker.FirstBest([RankOfHand(hole1 + board), RankOfHand(hole2 + board)], 0)
    ensures Comparison(hole1 + board, hole2 + board) < 0
  {
    hole1, hole2, board := OfSuit([11, 9], suit), OfSuit([12, 10], suit), OfSuit([8, 6, 4, 2, 1], suit);
    hide RankOfHand, Comparison, CardValues, Best, KeyOf, OfSuit, Distinct, Poker.FirstBest;
    assert Distinct(hole1 + hole2 + board) by { ShowdownIsOfDistinctCards(suit); }
    KingHigh(suit);
    AceHigh(suit);
    HigherFlushWins(hole1 + board, hole2 + board, 11, 12);
    TieGoesToFirst(RankOfHand(hole1 + board), RankOfHand(hole2 + board));
  }

  lemma TieGoesToFirst(a: HandRank, b: HandRank)
    requires a == b
    ensures Poker.FirstBest([a, b], 0)
  {
  }

  lemma ShowdownIsOfDistinctCards(suit: Suit)
    ensures Distinct(OfSuit([11, 9], suit) + OfSuit([12, 10], suit) + OfSuit([8, 6, 4, 2, 1], suit))
  {
  }

  lemma KingHigh(suit: Suit)
    ensures
      var hand := OfSuit([11, 9], suit) + OfSuit([8, 6, 4, 2, 1], suit);
      RankOfHand(hand) == Flush && KeyOf(Best(CardValues(hand))) == [11]
  {
    hide OfSuit, RankOfHand, KeyOf, Best, CardValues;
    OfSuitJoined([11, 9], [8, 6, 4, 2, 1], [11, 9, 8, 6, 4, 2, 1], suit);
    OneSuitHand([11, 9, 8, 6, 4, 2, 1], suit);
  }

  lemma AceHigh(suit: Suit)
    ensures
      var hand := OfSuit([12, 10], suit) + OfSuit([8, 6, 4, 2, 1], suit);
      RankOfHand(hand) == Flush && KeyOf(Best(CardValues(hand))) == [12]
  {
    hide OfSuit, RankOfHand, KeyOf, Best, CardValues;
    OfSuitJoined([12, 10], [8, 6, 4, 2, 1], [12, 10, 8, 6, 4, 2, 1], suit);
    OneSuitHand([12, 10, 8, 6, 4, 2, 1], suit);
  }

  // ---------- A tie is not split ----------

  /** Both players play the board, a royal flush: the comparison is a tie, the first player is named alone. */
  lemma BoardTieNamesFirst(suit: Suit) returns (hole1: seq<Card>, hole2: seq<Card>, board: seq<Card>)
    ensures |hole1| == |hole2| == 2 && |board| == 5 && Distinct(hole1 + hole2 + board)
    ensures Poker.FirstBest([RankOfHand(hole1 + board), RankOfHand(hole2 + board)], 0)
    ensures Comparison(hole1 + board, hole2 + board) == 0
  {
    hole1, hole2, board := OfSuit([6, 5], suit), OfSuit([3, 2], suit), OfSuit([12, 11, 10, 9, 8], suit);
    assert Distinct(hole1 + hole2 + board) by {
      var ranks := [6, 5, 3, 2, 12, 11, 10, 9, 8];
      OfSuitJoined([6, 5], [3, 2], [6, 5, 3, 2], suit);
      OfSuitJoined([6, 5, 3, 2], [12, 11, 10, 9, 8], ranks, suit);
    }
    hide RankOfHand, Comparison, OfSuit, Distinct, Poker.FirstBest;
    RoyalBoard(hole1, suit);
    RoyalBoard(hole2, suit);
    RoyalFlushesTie(hole1 + board, hole2 + board);
    TieGoesToFirst(RankOfHand(hole1 + board), RankOfHand(hole2 + board));
  }

  lemma RoyalBoard(hole: seq<Card>, suit: Suit)
    ensures RankOfHand(hole + OfSuit([12, 11, 10, 9, 8], suit)) == RoyalFlush
  {
    var board := OfSuit([12, 11, 10, 9, 8], suit);
    var five := CardValues(board);
    assert five == Suited([12, 11, 10, 9, 8], suit);
    assert CategoryOf(five) == RoyalFlush by { SuitedRoyal([12, 11, 10, 9, 8], suit); }
    assert CardValues(hole + board) == CardValues(hole) + five;
    assert multiset(five) <= multiset(CardValues(hole + board));
    hide RankOfHand, CategoryOf, OfSuit, Suited;
    HandTheorems.EvaluateIsMaximum(hole + board);
  }

  lemma SuitedRoyal(ranks: seq<Rank>, suit: Suit)
    requires ranks == [12, 11, 10, 9, 8]
    ensures CategoryOf(Suited(ranks, suit)) == RoyalFlush
  {
    RepeatBag(suit, 5);
    assert multiset(Suits(Suited(ranks, suit)))[suit] == 5;
    RunRanksRun(12);
    assert ranks == RunRanks(12);
  }

  lemma RoyalFlushesTie(a: seq<Card>, b: seq<Card>)
    requires |a| >= 5 && |b| >= 5 && RankOfHand(a) == RankOfHand(b) == RoyalFlush
    ensures Comparison(a, b) == 0
  {
    var x, y := Best(CardValues(a)), Best(CardValues(b));
    RanksAreFive(x);
    RanksAreFive(y);
    CategoryShowsRun(multiset(Ranks(x)), HasFlush(x));
    CategoryShowsRun(multiset(Ranks(y)), HasFlush(y));
    RunTopDeterminesRanks(multiset(Ranks(x)), multiset(Ranks(y)), 12);
    HandTheorems.TieMeansSameRanks(a, b);
  }

  function OfSuit(ranks: seq<Rank>, suit: Suit): (cards: seq<Card>)
    ensures |cards| == |ranks|
  {
    seq(|ranks|, i requires 0 <= i < |ranks| => FromParts(ranks[i], suit))
  }

  lemma OfSuitJoined(a: seq<Rank>, b: seq<Rank>, both: seq<Rank>, suit: Suit)
    requires a + b == both
    ensures OfSuit(a, suit) + OfSuit(b, suit) == OfSuit(both, suit)
  {
  }

  lemma HigherFlushWins(a: seq<Card>, b: seq<Card>, aTop: int, bTop: int)
    requires |a| >= 5 && |b| >= 5 && RankOfHand(a) == RankOfHand(b) == Flush
    requires KeyOf(Best(CardValues(a))) == [aTop] && KeyOf(Best(CardValues(b))) == [bTop]
    ensures Comparison(a, b) == aTop - bTop
  {
    hide Best, KeyOf, CategoryOf, CardValues;
    assert LexDifference([aTop], [bTop]) == aTop - bTop;
  }

  lemma OneSuitHand(ranks: seq<Rank>, suit: Suit)
    requires |ranks| == 7 && StrictlyDescending(ranks)
    requires 3 !in ranks && 5 !in ranks && 7 !in ranks && (9 !in ranks || 10 !in ranks)
    ensures RankOfHand(OfSuit(ranks, suit)) == Flush && KeyOf(Best(CardValues(OfSuit(ranks, suit)))) == [ranks[0]]
  {
    hide Best, KeyOf, CategoryOf, StrictlyDescending;
    assert CardValues(OfSuit(ranks, suit)) == Suited(ranks, suit);
    assert !IsRun(multiset(ranks)) by { NoRunAcrossGaps(ranks); }
    BestOfOneSuit(ranks, suit);
  }

  lemma NoRunAcrossGaps(ranks: seq<int>)
    requires 3 !in ranks && 5 !in ranks && 7 !in ranks && (9 !in ranks || 10 !in ranks)
    ensures !IsRun(multiset(ranks))
  {
  }

  // ---------- Pots ----------

  /** Two equal bets of 10 layered while their 20 chips are still in the main pot: the winner is paid 40. */
  lemma ChipsInMainPotPaidTwice<T>(a: T, b: T)
    requires a != b
    ensures
      var stakes := [SidePots.Stake(a, 10), SidePots.Stake(b, 10)];
      var pots := [SidePots.SidePot(20, [a, b])];
      && SidePots.Layered(stakes, [10], pots)
      && SidePots.Capped(stakes, 10) == 20
      && Payouts.Payout(20, pots, [a], a) == 40
  {
    var stakes := [SidePots.Stake(a, 10), SidePots.Stake(b, 10)];
    var pots := [SidePots.SidePot(20, [a, b])];
    assert stakes[..1] == [stakes[0]] && stakes[..1][..0] == [];
    assert SidePots.EligibleAt(stakes[..1], 10) == [a];
    assert SidePots.EligibleAt(stakes, 10) == [a] + [b];
    assert SidePots.Bets(stakes) == [10, 10];
    assert SidePots.Capped(stakes[..1], 10) == 10;
    assert SidePots.Capped(stakes, 10) == 20;
    hide SidePots.Bets, SidePots.EligibleAt, SidePots.Capped, Payouts.Payout;
    Payouts.SoleWinnerTakesMatchedBets(stakes, [10], pots, 0, 20);
  }

  /** A side pot of -1 is emptied while nobody pays it: a chip appears. */
  lemma NegativePotCreatesChip<T>(w: T)
    ensures
      var pots := [SidePots.SidePot(-1, [w])];
      Payouts.PayoutOfAll(0, pots, [w], [w]) + SidePots.Total(Payouts.Unsettled(pots, [w])) != SidePots.Total(pots)
  {
    var pots := [SidePots.SidePot(-1, [w])];
    assert pots[..0] == [];
    assert [w][..0] == [];
    assert SidePots.Total(pots) == -1;
  }

  /** A chip of the main pot lost on a winner without a stack and one created by a side pot of -1: the sum is kept. */
  lemma LossAndGainCancel<T>(nobody: T, w: T)
    requires nobody != w
    ensures
      var pots, ws := [SidePots.SidePot(-1, [w])], [nobody, w];
      && Payouts.PaidAnything(1, pots, ws, nobody) && !Payouts.NoNegativePotPaid(pots, ws)
      && Payouts.PayoutOfAll(1, pots, ws, [w]) + Payouts.LeftInMain(1, ws) + SidePots.Total(Payouts.Unsettled(pots, ws))
      == 1 + SidePots.Total(pots)
  {
    var pots, ws := [SidePots.SidePot(-1, [w])], [nobody, w];
    TakersOfNegativePot(nobody, w);
    ChipForFirst(nobody, w);
    hide SidePots.Total, Payouts.Unsettled, Payouts.Credit, Payouts.Settles, Payouts.EligibleWinners, Payouts.Surplus,
         Payouts.PayoutOfAll, Payouts.Payout, Payouts.PaidAnything, Payouts.NoNegativePotPaid;
    Payouts.PayoutToStacks(1, pots, ws, [w], nobody);
    Payouts.PayoutIffPaid(1, pots, ws, nobody);
  }

  lemma TakersOfNegativePot<T>(nobody: T, w: T)
    requires nobody != w
    ensures
      var pots, ws := [SidePots.SidePot(-1, [w])], [nobody, w];
      && Payouts.EligibleWinners(ws, [w]) == [w]
      && Payouts.Surplus(pots, ws, |pots|) == 1 && !Payouts.NoNegativePotPaid(pots, ws)
  {
    var pots, ws := [SidePots.SidePot(-1, [w])], [nobody, w];
    assert ws[..1] == [nobody] && [nobody][..0] == [];
    assert Payouts.EligibleWinners([nobody], [w]) == [];
    assert Payouts.EligibleWinners(ws, [w]) == [w];
    assert Payouts.Settles(ws, pots[0]);
    hide Payouts.EligibleWinners;
    assert Payouts.SharesUpTo(-1, 1, 1) == Payouts.SharesUpTo(-1, 1, 0) + Payouts.Share(-1, 1, 0) == 0;
    assert Payouts.Surplus(pots, ws, 0) == 0;
  }

  lemma ChipForFirst<T>(nobody: T, w: T)
    requires nobody != w
    ensures Payouts.Payout(1, [SidePots.SidePot(-1, [w])], [nobody, w], nobody) == 1
  {
    var pots, ws := [SidePots.SidePot(-1, [w])], [nobody, w];
    TakersOfNegativePot(nobody, w);
    hide Payouts.EligibleWinners;
    Payouts.ModIsRemainder(1, 2);
    assert Payouts.Credit(1, ws, 1, nobody) == Payouts.Credit(1, ws, 0, nobody) + Payouts.Share(1, 2, 0) == 1;
    assert Payouts.Credit(1, ws, 2, nobody) == 1;
    Payouts.NoCreditForOthers(-1, [w], 1, nobody);
    assert Payouts.SideCredit(pots, ws, 0, nobody) == 0;
  }

  /** The main pot of 10 awarded to a null winner: it is emptied, no stack grows, and 10 chips are gone. */
  method NullWinnerLosesPot(hand: Hand, ghost ps: seq<Player>)
    requires hand.pot == 10 && hand.sidePots == [] && Distinct(ps)
    modifies hand`pot, hand`sidePots
    ensures hand.pot == 0 && hand.sidePots == []
    ensures Pot.ChipsOf(hand, ps) == old(Pot.ChipsOf(hand, ps)) - 10
  {
    var nobody: seq<Player?> := [null];
    Pot.DistributePot(hand, nobody);
  }

  // ---------- Hands ----------

  /** A hand started on vectors that still hold a bet of 4: the pot is 0, the bets are not. */
  lemma StaleBetOutlivesStart(stacks: seq<int>, order: seq<Card>)
    requires |stacks| == 2 && |order| >= 4
    ensures
      var v := HandRun.Started(stacks, order, [4, 0], []);
      v.book.pot == 0 && Sum(v.book.bets) == 4
  {
    assert HandRun.Resize([4, 0], 2, 0) == [4, 0];
    assert [4, 0][..1] == [4] && [4][..0] == [];
    assert Sum([4, 0]) == Sum([4]) + 0;
  }

  /** After the very first call at a table the completeness test reads two fold flags of which none exists. */
  lemma FirstCallLeavesNoFoldFlags(a: string, b: string)
    requires a != b
    ensures
      var v := TableRun.TableAfter([TableRun.Join(a), TableRun.Join(b)]);
      && TableRun.CanPlay(v, b, HandRun.Call, 4)
      && TableRun.Play(v, b, HandRun.Call, 4).hand.value.folded == []
  {
    TwoJoinsStartAHand(a, b);
  }

  /** Without `handleAction` to end the hand at its first fold both players can fold: 4 chips are dropped. */
  lemma PotOfTwoFoldsIsDropped(a: string, b: string)
    requires a != b
    ensures
      var start := TableRun.TableAfter([TableRun.Join(a), TableRun.Join(b)]);
      var called := TableRun.Play(start, b, HandRun.Call, 4);
      var folded := TableRun.Play(called, a, HandRun.Fold, 0);
      && TableRun.CanPlay(start, b, HandRun.Call, 4)
      && TableRun.CanPlay(called, a, HandRun.Fold, 0)
      && TableRun.CanPlay(folded, b, HandRun.Fold, 0)
      && TableRun.Chips(TableRun.Play(folded, b, HandRun.Fold, 0)) == 800
      && TableRun.Chips(TableRun.End(TableRun.Play(folded, b, HandRun.Fold, 0))) == 796
  {
    hide TableRun.TableAfter;
    TwoJoinsStartAHand(a, b);
    var start := TableRun.TableAfter([TableRun.Join(a), TableRun.Join(b)]);
    var called := TableRun.Play(start, b, HandRun.Call, 4);
    assert called.hand.value.pot == 4 && called.hand.value.toAct == 0 && called.hand.value.folded == [];
    var folded := TableRun.Play(called, a, HandRun.Fold, 0);
    assert folded.hand.value.toAct == 1 && folded.hand.value.folded == [true] && folded.hand.value.pot == 4;
    var both := TableRun.Play(folded, b, HandRun.Fold, 0);
    assert both.hand.value.folded == [true, true] && both.hand.value.pot == 4;
  }

  lemma TwoJoinsStartAHand(a: string, b: string)
    requires a != b
    ensures TableRun.TableAfter([TableRun.Join(a), TableRun.Join(b)]) ==
      TableRun.TableView(
        Some(TableRun.Newcomer(a)), Some(TableRun.Newcomer(b)), Some(TableRun.NewHand(0)), 0, 0,
          TableRun.HandInProgress)
  {
    var joins := [TableRun.Join(a), TableRun.Join(b)];
    assert joins[..1] == [joins[0]] && joins[..1][..0] == [];
    assert TableRun.TableAfter([]) == TableRun.EMPTY_TABLE;
    var one := TableRun.Driven(TableRun.EMPTY_TABLE, TableRun.Join(a));
    assert TableRun.TableAfter(joins[..1]) == one;
    assert TableRun.TableAfter(joins) == TableRun.Driven(one, TableRun.Join(b));
  }

  /**
   * A call of 4 by a stranger to a freshly started hand is accepted: the pot is 4, the bets stay 0, the turn
   * passes.
   */
  lemma StrangerCallReachesPotOnly(stacks: seq<int>, order: seq<Card>)
    requires |stacks| == 2 && |order| >= 4
    ensures
      var start := HandRun.Started(stacks, order, [], []);
      var after := HandRun.Step(start, HandRun.ActAsStranger(4, HandRun.Call, 4));
      && HandRun.Accepted(start, HandRun.ActAsStranger(4, HandRun.Call, 4))
      && after.book.pot == 4 && after.book.bets == [0, 0] && after.book.toAct == 1 && after.stacks == stacks
  {
  }

  /** A hand started on a vector that still holds a fold: the record has a fold the history lacks. */
  lemma StaleFoldIsNotInHistory(stacks: seq<int>, order: seq<Card>)
    requires |stacks| == 2 && |order| >= 4
    ensures
      var b := HandRun.Started(stacks, order, [], [true, false]).book;
      b.folded == [true, false] && b.history == [] && !HandRun.Logged(b, 0)
  {
    assert HandRun.Replay(2, 0, []).folded == [false, false];
  }

  // ---------- Sessions ----------

  /** Two players sit down, the second is lost, the first one's connection rejoins as the second. */
  ghost function TakeOver<S>(s: S, t: S, a: string, b: string): seq<SessionRun.GameEvent<S>> {
    [SessionRun.Welcome(s, a), SessionRun.JoinTable(s), SessionRun.Welcome(t, b), SessionRun.JoinTable(t),
     SessionRun.Lost(t), SessionRun.Rejoin(s, b)]
  }

  /** The first player stays seated and connected, with no connection and no timer. */
  lemma TakeOverAbandonsPlayer<S(!new)>(s: S, t: S, a: string, b: string)
    requires s != t && a != b
    ensures
      var v := SessionRun.GameAfter(TakeOver(s, t, a, b));
      && SessionRun.AdmissibleRun(TakeOver(s, t, a, b))
      && SessionRun.Unattended(v, a) && a !in v.timers
  {
    var events := TakeOver(s, t, a, b);
    var v0 := SessionRun.NewGame<S>();
    var v1 := SessionRun.Registered(v0, a, s);
    var v2 := SeatedAlone(s, a);
    var v3 := SessionRun.Registered(v2, b, t);
    var v4 := BothSeated(s, t, a, b);
    var v5 := SessionRun.Disconnect(v4, t);
    var v6 := SessionRun.Rejoined(v5, s, b);
    FirstSits(s, a);
    SecondSits(s, t, a, b);
    FirstTakesOver(s, t, a, b);
    hide SessionRun.Registered, SessionRun.Disconnect, SessionRun.Rejoined, SessionRun.Joined, SeatedAlone, BothSeated,
         SessionRun.Unattended, SessionRun.NewGame;
    RunOfSix(events, v0, v1, v2, v3, v4, v5, v6);
  }

  ghost function SeatedAlone<S>(s: S, a: string): SessionRun.GameView<S> {
    SessionRun.GameView(map[a := s], map[s := a], TableRun.EMPTY_TABLE.(seat1 := Some(TableRun.Newcomer(a))), map[])
  }

  ghost function BothSeated<S>(s: S, t: S, a: string, b: string): SessionRun.GameView<S> {
    var table := TableRun.TableView(
      Some(TableRun.Newcomer(a)), Some(TableRun.Newcomer(b)), Some(TableRun.NewHand(0)), 0, 0, TableRun.HandInProgress);
    SessionRun.GameView(map[a := s, b := t], map[s := a, t := b], table, map[])
  }

  lemma FirstSits<S(!new)>(s: S, a: string)
    ensures
      var v0 := SessionRun.NewGame<S>();
      && SessionRun.Admissible(v0, SessionRun.Welcome(s, a))
      && SessionRun.Joined(SessionRun.Registered(v0, a, s), s) == SeatedAlone(s, a)
  {
  }

  lemma SecondSits<S(!new)>(s: S, t: S, a: string, b: string)
    requires s != t && a != b
    ensures
      var v2 := SeatedAlone(s, a);
      && SessionRun.Admissible(v2, SessionRun.Welcome(t, b))
      && SessionRun.Joined(SessionRun.Registered(v2, b, t), t) == BothSeated(s, t, a, b)
  {
  }

  lemma FirstTakesOver<S(!new)>(s: S, t: S, a: string, b: string)
    requires s != t && a != b
    ensures
      var v := SessionRun.Rejoined(SessionRun.Disconnect(BothSeated(s, t, a, b), t), s, b);
      SessionRun.Unattended(v, a) && a !in v.timers
  {
  }

  lemma RunOfSix<S(!new)>(
    events: seq<SessionRun.GameEvent<S>>, v0: SessionRun.GameView<S>, v1: SessionRun.GameView<S>,
    v2: SessionRun.GameView<S>, v3: SessionRun.GameView<S>, v4: SessionRun.GameView<S>,
    v5: SessionRun.GameView<S>, v6: SessionRun.GameView<S>)
    requires |events| == 6 && v0 == SessionRun.NewGame()
    requires v1 == SessionRun.Handled(v0, events[0]) && v2 == SessionRun.Handled(v1, events[1])
    requires v3 == SessionRun.Handled(v2, events[2]) && v4 == SessionRun.Handled(v3, events[3])
    requires v5 == SessionRun.Handled(v4, events[4]) && v6 == SessionRun.Handled(v5, events[5])
    requires SessionRun.Admissible(v0, events[0]) && SessionRun.Admissible(v1, events[1])
    requires SessionRun.Admissible(v2, events[2]) && SessionRun.Admissible(v3, events[3])
    requires SessionRun.Admissible(v4, events[4]) && SessionRun.Admissible(v5, events[5])
    ensures SessionRun.AdmissibleRun(events) && SessionRun.GameAfter(events) == v6
  {
    hide SessionRun.Handled, SessionRun.Admissible;
    OneMore(events, 0);
    OneMore(events, 1);
    OneMore(events, 2);
    OneMore(events, 3);
    OneMore(events, 4);
    OneMore(events, 5);
    assert events[..0] == [] && events[..6] == events;
  }

  lemma OneMore<S(!new)>(events: seq<SessionRun.GameEvent<S>>, k: nat)
    requires k < |events|
    ensures SessionRun.GameAfter(events[..k + 1]) == SessionRun.Handled(SessionRun.GameAfter(events[..k]), events[k])
    ensures
      SessionRun.AdmissibleRun(events[..k]) && SessionRun.Admissible(SessionRun.GameAfter(events[..k]), events[k]) ==>
      SessionRun.AdmissibleRun(events[..k + 1])
  {
    assert events[..k + 1][..k] == events[..k];
  }
}
