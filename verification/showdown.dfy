/** Whom a showdown names, and when that is the player with the best hand. */
module Showdowns {
  import opened Cards
  import opened Selections
  import opened Players
  import opened HandCategories
  import opened BestFive
  import opened HandRanking
  import opened HandSearch
  import opened HandRun
  import opened Hands
  import opened Poker
  import HandTheorems

  // ---------- Keys order the hands of a category ----------

  /** The comparison key of the best five cards. */
  ghost function BestKey(hand: seq<Card>): seq<int>
    requires |hand| >= 5
  {
    KeyOf(Best(CardValues(hand)))
  }

  lemma {:induction false} DifferenceIsOrder(a: seq<int>, b: seq<int>)
    requires |a| == |b|
    ensures LexDifference(a, b) > 0 <==> LexLess(b, a)
    ensures LexDifference(a, b) < 0 <==> LexLess(a, b)
    decreases |a|
  {
    if a != [] { DifferenceIsOrder(a[1..], b[1..]); }
  }

  /** Between hands of one category the lexicographically larger key wins. */
  lemma KeyDecides(a: seq<Card>, b: seq<Card>)
    requires |a| >= 5 && |b| >= 5 && RankOfHand(a) == RankOfHand(b)
    ensures Comparison(a, b) > 0 <==> LexLess(BestKey(b), BestKey(a))
    ensures Comparison(a, b) < 0 <==> LexLess(BestKey(a), BestKey(b))
  {
    var x, y := Best(CardValues(a)), Best(CardValues(b));
    RanksAreFive(x);
    RanksAreFive(y);
    KeyHasCategoryLength(multiset(Ranks(x)), HasFlush(x));
    KeyHasCategoryLength(multiset(Ranks(y)), HasFlush(y));
    hide Category, Key, Best, Ranks, HasFlush;
    DifferenceIsOrder(KeyOf(x), KeyOf(y));
  }

  // ---------- Unbeaten hands ----------

  ghost predicate Comparable(hands: seq<seq<Card>>) {
    forall i :: 0 <= i < |hands| ==> |hands[i]| >= 5
  }

  /** A hand in play that no other hand in play beats. */
  ghost predicate Unbeaten(hands: seq<seq<Card>>, folded: seq<bool>, i: int)
    requires Comparable(hands)
  {
    Unfolded(hands, folded, i) && forall j :: Unfolded(hands, folded, j) ==> Comparison(hands[i], hands[j]) >= 0
  }

  ghost predicate SoleUnbeaten(hands: seq<seq<Card>>, folded: seq<bool>, i: int)
    requires Comparable(hands)
  {
    Unbeaten(hands, folded, i) && forall j :: Unbeaten(hands, folded, j) ==> j == i
  }

  /** A hand in play of the highest category in play. */
  ghost predicate OfTopCategory(hands: seq<seq<Card>>, folded: seq<bool>, i: int) {
    && Unfolded(hands, folded, i)
    && forall j :: Unfolded(hands, folded, j) ==> RankOfHand(hands[j]).Level() <= RankOfHand(hands[i]).Level()
  }

  ghost predicate FirstOfTopCategory(hands: seq<seq<Card>>, folded: seq<bool>, i: int) {
    && OfTopCategory(hands, folded, i)
    && forall j :: 0 <= j < i ==> !OfTopCategory(hands, folded, j)
  }

  /** Against a hand of top category another hand in play wins, or ties, only with the same category. */
  lemma AgainstTop(hands: seq<seq<Card>>, folded: seq<bool>, i: int, j: int)
    requires Comparable(hands) && OfTopCategory(hands, folded, i) && Unfolded(hands, folded, j)
    ensures RankOfHand(hands[i]) != RankOfHand(hands[j]) ==> Comparison(hands[i], hands[j]) > 0
    ensures RankOfHand(hands[i]) == RankOfHand(hands[j]) ==>
      && (Comparison(hands[i], hands[j]) >= 0 <==> !LexLess(BestKey(hands[i]), BestKey(hands[j])))
      && (Comparison(hands[i], hands[j]) > 0 <==> LexLess(BestKey(hands[j]), BestKey(hands[i])))
  {
    hide Best, KeyOf, CategoryOf;
    LevelInjective(RankOfHand(hands[i]), RankOfHand(hands[j]));
    HandTheorems.HigherRankWins(hands[i], hands[j]);
    hide RankOfHand, Comparison, BestKey;
    if RankOfHand(hands[i]) == RankOfHand(hands[j]) { KeyDecides(hands[i], hands[j]); }
  }

  /** A hand of top category is unbeaten exactly when no other of that category has a larger key. */
  lemma TopUnbeatenIff(hands: seq<seq<Card>>, folded: seq<bool>, i: int)
    requires Comparable(hands) && OfTopCategory(hands, folded, i)
    ensures Unbeaten(hands, folded, i) <==>
      forall j :: Unfolded(hands, folded, j) && RankOfHand(hands[j]) == RankOfHand(hands[i]) ==>
        !LexLess(BestKey(hands[i]), BestKey(hands[j]))
  {
    assert Unfolded(hands, folded, i);
    hide RankOfHand, Comparison, BestKey, OfTopCategory;
    forall j | Unfolded(hands, folded, j)
      ensures Comparison(hands[i], hands[j]) >= 0 <==>
        (RankOfHand(hands[j]) == RankOfHand(hands[i]) ==> !LexLess(BestKey(hands[i]), BestKey(hands[j])))
    {
      AgainstTop(hands, folded, i, j);
    }
  }

  /** It is the only unbeaten hand exactly when every other of that category has a smaller key. */
  lemma TopSoleUnbeatenIff(hands: seq<seq<Card>>, folded: seq<bool>, i: int)
    requires Comparable(hands) && OfTopCategory(hands, folded, i)
    ensures SoleUnbeaten(hands, folded, i) <==>
      forall j :: Unfolded(hands, folded, j) && j != i && RankOfHand(hands[j]) == RankOfHand(hands[i]) ==>
        LexLess(BestKey(hands[j]), BestKey(hands[i]))
  {
    assert Unfolded(hands, folded, i);
    hide RankOfHand, Comparison, BestKey, OfTopCategory;
    TieWithItself(hands[i]);
    forall j | Unfolded(hands, folded, j)
      ensures Comparison(hands[i], hands[j]) > 0 <==>
        (RankOfHand(hands[j]) == RankOfHand(hands[i]) ==> LexLess(BestKey(hands[j]), BestKey(hands[i])))
    {
      AgainstTop(hands, folded, i, j);
    }
    forall j | Unfolded(hands, folded, j) && j != i
      ensures SoleUnbeaten(hands, folded, i) ==> Comparison(hands[i], hands[j]) > 0
      ensures Comparison(hands[i], hands[j]) > 0 ==> !Unbeaten(hands, folded, j)
    {
      TiedIsUnbeatenToo(hands, folded, i, j);
      HandTheorems.ComparisonIsPreorder(hands[i], hands[j], hands[j]);
    }
  }

  lemma TieWithItself(hand: seq<Card>)
    requires |hand| >= 5
    ensures Comparison(hand, hand) == 0
  {
    HandTheorems.ComparisonIsPreorder(hand, hand, hand);
  }

  /** A hand tied with an unbeaten one is unbeaten. */
  lemma TiedIsUnbeatenToo(hands: seq<seq<Card>>, folded: seq<bool>, i: int, j: int)
    requires Comparable(hands) && Unfolded(hands, folded, i) && Unfolded(hands, folded, j)
    ensures Unbeaten(hands, folded, i) && Comparison(hands[i], hands[j]) <= 0 ==> Unbeaten(hands, folded, j)
  {
    hide Comparison;
    if Unbeaten(hands, folded, i) && Comparison(hands[i], hands[j]) <= 0 {
      forall k | Unfolded(hands, folded, k) ensures Comparison(hands[j], hands[k]) >= 0 {
        HandTheorems.ComparisonIsPreorder(hands[i], hands[j], hands[k]);
        HandTheorems.ComparisonIsPreorder(hands[j], hands[i], hands[k]);
      }
    }
  }

  // ---------- The named winner ----------

  /** The positions that have not folded, in order. */
  ghost function Positions(n: nat, folded: seq<bool>): (r: seq<nat>) {
    if n == 0 then [] else Positions(n - 1, folded) + if n - 1 < |folded| && folded[n - 1] then [] else [n - 1]
  }

  lemma {:induction false} ActiveByPosition(players: seq<Player>, folded: seq<bool>)
    ensures
      var at := Positions(|players|, folded);
      && |at| == |Active(players, folded)|
      && (forall k :: 0 <= k < |at| ==>
            Unfolded(players, folded, at[k]) && Active(players, folded)[k] == players[at[k]])
      && (forall k, l :: 0 <= k < l < |at| ==> at[k] < at[l])
      && (forall i :: Unfolded(players, folded, i) ==> i in at)
    decreases |players|
  {
    if players != [] { ActiveByPosition(players[..|players| - 1], folded); }
  }

  /** What every player of the hand shows. */
  ghost function Shown(hand: Hand): (r: seq<seq<Card>>)
    reads hand, hand.players
    ensures |r| == |hand.players|
  {
    seq(|hand.players|, i requires 0 <= i < |hand.players| reads hand, hand.players =>
      hand.players[i].holeCards + hand.communityCards)
  }

  ghost predicate DealtShowdown(hand: Hand)
    reads hand, hand.deck, hand.players
  {
    hand.deck.Valid() && CardsInPlace(hand.View()) && hand.round.Showdown?
  }

  lemma ShownIsPlayable(hand: Hand)
    requires DealtShowdown(hand)
    ensures Comparable(Shown(hand)) && AllPlayable(hand, hand.players)
  {
    ShowdownIsPlayable(hand, hand.players);
  }

  /** The first best among the active players is the first player in play of top category. */
  lemma FirstBestByPosition(hand: Hand, k: nat)
    requires FirstBest(ActiveRanks(hand, Active(hand.players, hand.folded)), k)
    ensures
      var at := Positions(|hand.players|, hand.folded);
      && k < |at| == |Active(hand.players, hand.folded)|
      && FirstOfTopCategory(Shown(hand), hand.folded, at[k])
      && hand.players[at[k]] == Active(hand.players, hand.folded)[k]
  {
    hide RankOfHand, Active;
    var at := Positions(|hand.players|, hand.folded);
    var active := Active(hand.players, hand.folded);
    var shown := Shown(hand);
    ActiveByPosition(hand.players, hand.folded);
    assert forall l :: 0 <= l < |at| ==> RankOfHand(shown[at[l]]) == ActiveRanks(hand, active)[l];
    forall j | Unfolded(shown, hand.folded, j)
      ensures RankOfHand(shown[j]).Level() <= RankOfHand(shown[at[k]]).Level()
      ensures j < at[k] ==> RankOfHand(shown[j]).Level() < RankOfHand(shown[at[k]]).Level()
    {
      assert Unfolded(hand.players, hand.folded, j);
      var l :| 0 <= l < |at| && at[l] == j;
    }
  }

  /** With anybody left, the one named is the first player in play whose cards make the top category. */
  lemma NamesFirstOfTopCategory(hand: Hand, r: Result<seq<Player>>) returns (w: nat)
    requires DealtShowdown(hand)
    requires WinnersAre(hand, Active(hand.players, hand.folded), r)
    requires exists i :: Unfolded(hand.players, hand.folded, i)
    ensures FirstOfTopCategory(Shown(hand), hand.folded, w) && r == Ok([hand.players[w]])
  {
    hide RankOfHand, CardsOf, Active, CardsInPlace;
    var active := Active(hand.players, hand.folded);
    var u :| Unfolded(hand.players, hand.folded, u);
    var _ := UnfoldedIsActive(hand.players, hand.folded, u);
    forall k | 0 <= k < |active| ensures active[k] in hand.players {
      var _ := ActiveAt(hand.players, hand.folded, k);
    }
    ShowdownIsPlayable(hand, active);
    var k := WinnerIndex(hand, active, r);
    FirstBestByPosition(hand, k);
    w := Positions(|hand.players|, hand.folded)[k];
    assert r.value == [hand.players[w]];
  }

  /**
   * The winner is chosen by category alone: at a dealt showdown it is the first player whose cards make
   * the top category. Nobody beats that player exactly when no other hand of the category has a larger
   * key, and the player is the only one nobody beats exactly when all of them have a smaller one.
   */
  lemma WinnerIgnoresKickers(hand: Hand, r: Result<seq<Player>>, w: nat)
    requires DealtShowdown(hand) && WinnersAre(hand, Active(hand.players, hand.folded), r)
    requires FirstOfTopCategory(Shown(hand), hand.folded, w)
    ensures r == Ok([hand.players[w]]) && Comparable(Shown(hand))
    ensures
      var shown := Shown(hand);
      && (Unbeaten(shown, hand.folded, w) <==>
            forall j :: Unfolded(shown, hand.folded, j) && RankOfHand(shown[j]) == RankOfHand(shown[w]) ==>
              !LexLess(BestKey(shown[w]), BestKey(shown[j])))
      && (SoleUnbeaten(shown, hand.folded, w) <==>
            forall j :: Unfolded(shown, hand.folded, j) && j != w && RankOfHand(shown[j]) == RankOfHand(shown[w]) ==>
              LexLess(BestKey(shown[j]), BestKey(shown[w])))
  {
    hide RankOfHand, Comparison, BestKey, LexLess, Active, CardsInPlace;
    var shown := Shown(hand);
    ShownIsPlayable(hand);
    assert Unfolded(hand.players, hand.folded, w);
    var named := NamesFirstOfTopCategory(hand, r);
    assert named == w;
    TopUnbeatenIff(shown, hand.folded, w);
    TopSoleUnbeatenIff(shown, hand.folded, w);
  }
}
