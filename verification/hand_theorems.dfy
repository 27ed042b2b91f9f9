/** What the evaluator promises of whole hands of five to seven cards. */
module HandTheorems {
  import opened Bags
  import opened Cards
  import opened Selections
  import opened HandCategories
  import opened BestFive
  import opened HandRanking
  import opened HandSearch

  ghost predicate Playable(hand: seq<Card>) {
    5 <= |hand| <= 7
  }

  /** The enumeration visits each choice of five positions once, in increasing lexicographic order. */
  lemma EnumerationIsComplete(n: nat)
    requires n >= 5
    ensures
      var all := All(0, n, 5);
      && (forall i, j :: 0 <= i < j < |all| ==> LexLess(all[i], all[j]) && all[i] != all[j])
      && (forall s :: |s| == 5 && IsSelection(s, 0, n) <==> s in all)
  {
    var all := All(0, n, 5);
    forall i, j | 0 <= i < j < |all| ensures LexLess(all[i], all[j]) && all[i] != all[j] {
      AllIncreasing(0, n, 5, i, j);
    }
    AllAreSelections(0, n, 5);
    forall s ensures |s| == 5 && IsSelection(s, 0, n) <==> s in all {
      if |s| == 5 && IsSelection(s, 0, n) { AllComplete(s, 0, n); }
    }
  }

  /** It visits n! / (k! (n-k)!) of them. */
  lemma EnumerationCount(n: nat, k: nat)
    requires k <= n
    ensures |All(0, n, k)| * Factorial(k) * Factorial(n - k) == Factorial(n)
  {
    AllCount(0, n, k);
    ChooseFactorial(n, k);
  }

  /** `Evaluate` returns the highest category any five of the cards make, and one of them makes it. */
  lemma EvaluateIsMaximum(hand: seq<Card>)
    requires |hand| >= 5
    ensures forall five: seq<CardValue> ::
      |five| == 5 && multiset(five) <= multiset(CardValues(hand)) ==>
        CategoryOf(five).Level() <= RankOfHand(hand).Level()
    ensures forall five: seq<CardValue> ::
      |five| == 5 && multiset(five) <= multiset(CardValues(hand)) ==> RankOfHand(hand) in AtLeast(CategoryOf(five))
    ensures exists five: seq<CardValue> ::
      |five| == 5 && multiset(five) <= multiset(CardValues(hand)) && CategoryOf(five) == RankOfHand(hand)
  {
    BestIsOptimal(CardValues(hand));
    var best := Best(CardValues(hand));
    assert |best| == 5 && multiset(best) <= multiset(CardValues(hand));
    hide AtLeast;
    forall five: seq<CardValue> | |five| == 5 && multiset(five) <= multiset(CardValues(hand))
      ensures RankOfHand(hand) in AtLeast(CategoryOf(five))
    {
      assert FaceOff(best, five) >= 0;
      LevelIsByName(CategoryOf(five), RankOfHand(hand));
    }
  }

  /** Five cards of one suit among the hand: it is never ranked a straight or below. */
  lemma FlushNeverRanksBelow(hand: seq<Card>, five: seq<CardValue>)
    requires |hand| >= 5 && |five| == 5 && multiset(five) <= multiset(CardValues(hand)) && SameSuit(five)
    ensures RankOfHand(hand) in {Flush, FullHouse, FourOfAKind, StraightFlush, RoyalFlush}
  {
    hide RankOfHand, HasFlush, Group, IsRun, RunTo;
    FlushIsOneSuit(five);
    EvaluateIsMaximum(hand);
    assert CategoryOf(five) in AtLeast(Flush);
  }

  /** Adding cards (or reordering them) never weakens a hand. */
  lemma MoreCardsNeverWeaken(hand: seq<Card>, more: seq<Card>)
    requires |hand| >= 5 && multiset(hand) <= multiset(more)
    ensures |more| >= 5
    ensures Comparison(more, hand) >= 0
    ensures RankOfHand(more).Level() >= RankOfHand(hand).Level()
  {
    assert multiset(more) == (multiset(more) - multiset(hand)) + multiset(hand);
    assert |multiset(more)| >= |multiset(hand)|;
    var small, large := CardValues(hand), CardValues(more);
    MapSubBag(ValueOf, hand, more);
    BestIsOptimal(small);
    BestIsOptimal(large);
    assert multiset(Best(small)) <= multiset(large);
    assert FaceOff(Best(large), Best(small)) >= 0;
  }

  /** One extra card, placed anywhere. */
  lemma ExtraCardNeverWeakens(hand: seq<Card>, c: Card, at: nat)
    requires 5 <= |hand| <= 6 && at <= |hand|
    ensures
      var more := hand[..at] + [c] + hand[at..];
      && Playable(more)
      && Comparison(more, hand) >= 0
      && RankOfHand(more).Level() >= RankOfHand(hand).Level()
  {
    assert hand == hand[..at] + hand[at..];
    MoreCardsNeverWeaken(hand, hand[..at] + [c] + hand[at..]);
  }

  /** Comparison is a total preorder: reflexive, antisymmetric in sign, transitive in sign. */
  lemma ComparisonIsPreorder(a: seq<Card>, b: seq<Card>, c: seq<Card>)
    requires |a| >= 5 && |b| >= 5 && |c| >= 5
    ensures Comparison(a, a) == 0
    ensures Comparison(a, b) == -Comparison(b, a)
    ensures Comparison(a, b) >= 0 && Comparison(b, c) >= 0 ==> Comparison(a, c) >= 0
    ensures Comparison(a, b) > 0 && Comparison(b, c) >= 0 ==> Comparison(a, c) > 0
    ensures Comparison(a, b) >= 0 && Comparison(b, c) > 0 ==> Comparison(a, c) > 0
  {
    TieWithSelf(Best(CardValues(a)));
    FaceOffOrder(Best(CardValues(a)), Best(CardValues(b)), Best(CardValues(c)));
  }

  /** A better category wins the comparison, whichever enumeration computed it. */
  lemma HigherRankWins(a: seq<Card>, b: seq<Card>)
    requires |a| >= 5 && |b| >= 5
    ensures RankOfHand(a).Level() > RankOfHand(b).Level() ==> Comparison(a, b) > 0
    ensures Comparison(a, b) >= 0 ==> RankOfHand(a).Level() >= RankOfHand(b).Level()
    ensures RankOfHand(a) != RankOfHand(b) ==> (Comparison(a, b) > 0 <==> RankOfHand(a) in AtLeast(RankOfHand(b)))
  {
    hide Best, CategoryOf, KeyOf, AtLeast;
    LevelInjective(RankOfHand(a), RankOfHand(b));
    LevelIsByName(RankOfHand(b), RankOfHand(a));
  }

  /** The order of the categories, by name. The difference of two neighbours is one. */
  lemma EachCategoryBeatsTheNext(a: seq<Card>, b: seq<Card>)
    requires |a| >= 5 && |b| >= 5
    ensures RankOfHand(a) == RoyalFlush && RankOfHand(b) == StraightFlush ==> Comparison(a, b) == 1
    ensures RankOfHand(a) == StraightFlush && RankOfHand(b) == FourOfAKind ==> Comparison(a, b) == 1
    ensures RankOfHand(a) == FourOfAKind && RankOfHand(b) == FullHouse ==> Comparison(a, b) == 1
    ensures RankOfHand(a) == FullHouse && RankOfHand(b) == Flush ==> Comparison(a, b) == 1
    ensures RankOfHand(a) == Flush && RankOfHand(b) == Straight ==> Comparison(a, b) == 1
    ensures RankOfHand(a) == Straight && RankOfHand(b) == ThreeOfAKind ==> Comparison(a, b) == 1
    ensures RankOfHand(a) == ThreeOfAKind && RankOfHand(b) == TwoPair ==> Comparison(a, b) == 1
    ensures RankOfHand(a) == TwoPair && RankOfHand(b) == OnePair ==> Comparison(a, b) == 1
    ensures RankOfHand(a) == OnePair && RankOfHand(b) == HighCard ==> Comparison(a, b) == 1
  {
    hide Best, CategoryOf, KeyOf;
  }

  /** Permuting the cards changes neither a hand's rank nor any comparison with it. */
  lemma CardOrderNeverMatters(a: seq<Card>, a': seq<Card>, b: seq<Card>, b': seq<Card>)
    requires |a| >= 5 && |b| >= 5
    requires multiset(a) == multiset(a') && multiset(b) == multiset(b')
    ensures |a'| >= 5 && |b'| >= 5
    ensures RankOfHand(a) == RankOfHand(a')
    ensures Comparison(a, b) == Comparison(a', b')
  {
    SameCardsTie(a, a');
    SameCardsTie(b, b');
  }

  lemma SameCardsTie(a: seq<Card>, a': seq<Card>)
    requires |a| >= 5 && multiset(a) == multiset(a')
    ensures |a'| >= 5
    ensures CategoryOf(Best(CardValues(a))) == CategoryOf(Best(CardValues(a')))
    ensures KeyOf(Best(CardValues(a))) == KeyOf(Best(CardValues(a')))
  {
    MoreCardsNeverWeaken(a, a');
    MoreCardsNeverWeaken(a', a);
    FaceOffOrder(Best(CardValues(a)), Best(CardValues(a')), Best(CardValues(a)));
  }

  /** Outside FLUSH two hands tie exactly when their best fives have one category and the same ranks. */
  lemma TieMeansSameRanks(a: seq<Card>, b: seq<Card>)
    requires |a| >= 5 && |b| >= 5 && RankOfHand(a) != Flush
    ensures Comparison(a, b) == 0 <==>
      RankOfHand(a) == RankOfHand(b)
      && multiset(Ranks(Best(CardValues(a)))) == multiset(Ranks(Best(CardValues(b))))
  {
    var x, y := Best(CardValues(a)), Best(CardValues(b));
    RanksAreFive(x);
    RanksAreFive(y);
    FaceOffOrder(x, y, x);
    if Comparison(a, b) == 0 {
      KeyDeterminesRanks(multiset(Ranks(x)), HasFlush(x), multiset(Ranks(y)), HasFlush(y));
    }
  }

  /** In FLUSH they tie exactly when the top cards agree: the other four cards are not compared. */
  lemma FlushTieMeansSameTop(a: seq<Card>, b: seq<Card>, top: int)
    requires |a| >= 5 && |b| >= 5 && RankOfHand(a) == Flush == RankOfHand(b)
    requires IsTopRank(multiset(Ranks(Best(CardValues(a)))), top)
    ensures Comparison(a, b) == 0 <==> IsTopRank(multiset(Ranks(Best(CardValues(b)))), top)
  {
    var x, y := Best(CardValues(a)), Best(CardValues(b));
    RanksAreFive(x);
    RanksAreFive(y);
    FaceOffOrder(x, y, x);
    FlushKeyIsTopCard(multiset(Ranks(x)), top);
    FlushKeyIsTopCard(multiset(Ranks(y)), top);
  }

  /** Hands dealt from one deck hold different cards, so their categories are the ones the rules award. */
  lemma DealtHandsRankByTheRules(five: seq<Card>)
    requires |five| == 5 && Distinct(five)
    ensures
      var cards := CardValues(five);
      HighestMade(multiset(Ranks(cards)), SameSuit(cards), RankOfHand(five))
  {
    hide Makes, HasFlush, HighestMade, SameSuit;
    var cards := CardValues(five);
    FiveIsItsOwnBest(cards);
    FiveOfDistinctRankByTheRules(five, cards);
  }

  /** Some five of the cards, in the eyes of the rules, make category `c`. */
  ghost predicate SomeFiveMake(hand: seq<Card>, c: HandRank) {
    exists five: seq<CardValue> ::
      && |five| == 5 && multiset(five) <= multiset(CardValues(hand))
      && Makes(multiset(Ranks(five)), SameSuit(five), c)
  }

  /** Any five of different cards are ranked with the highest category the rules award them. */
  lemma FiveOfDistinctRankByTheRules(hand: seq<Card>, five: seq<CardValue>)
    requires Distinct(hand) && |five| == 5 && multiset(five) <= multiset(CardValues(hand))
    ensures HighestMade(multiset(Ranks(five)), SameSuit(five), CategoryOf(five))
  {
    hide Makes, HasFlush, HighestMade, Category, SameSuit;
    var cards := CardValues(hand);
    forall i, j | 0 <= i < j < |cards| ensures cards[i] != cards[j] {
      ValueOfInjective(hand[i], hand[j]);
    }
    forall i, j | 0 <= i < j < 5 ensures five[i] != five[j] {
      DistinctCountsOne(cards, five[i]);
      if five[i] == five[j] { RepeatCountsTwo(five, i, j); }
    }
    RanksAreFive(five);
    FlushIsOneSuit(five);
    DistinctCardsRepeatAtMostFour(five);
    CategoryIsHighest(multiset(Ranks(five)), HasFlush(five));
  }

  /** Five to seven different cards are ranked with the highest category the rules award to any five of them. */
  lemma HandsRankByTheRules(hand: seq<Card>)
    requires Playable(hand) && Distinct(hand)
    ensures SomeFiveMake(hand, RankOfHand(hand))
    ensures forall c: HandRank :: SomeFiveMake(hand, c) ==> RankOfHand(hand) in AtLeast(c)
  {
    hide Makes, HasFlush, RankOfHand, CategoryOf, SameSuit, AtLeast;
    EvaluateIsMaximum(hand);
    var best: seq<CardValue> :|
      |best| == 5 && multiset(best) <= multiset(CardValues(hand)) && CategoryOf(best) == RankOfHand(hand);
    FiveOfDistinctRankByTheRules(hand, best);
    forall c: HandRank | SomeFiveMake(hand, c) ensures RankOfHand(hand) in AtLeast(c) {
      var five: seq<CardValue> :|
        && |five| == 5 && multiset(five) <= multiset(CardValues(hand))
        && Makes(multiset(Ranks(five)), SameSuit(five), c);
      FiveOfDistinctRankByTheRules(hand, five);
      LevelIsByName(c, RankOfHand(hand));
    }
  }
}
