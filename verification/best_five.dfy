/** The five-card hands inside a larger hand, and the best of them. */
module BestFive {
  import opened Bags
  import opened Cards
  import opened Selections
  import opened HandCategories

  ghost function Pick(cards: seq<CardValue>, sel: seq<int>): (r: seq<CardValue>)
    requires forall i :: 0 <= i < |sel| ==> 0 <= sel[i] < |cards|
    ensures |r| == |sel|
  {
    seq(|sel|, i requires 0 <= i < |sel| => cards[sel[i]])
  }

  /** Every five-card hand within `cards`, in the order the enumeration visits them. */
  ghost function Hands(cards: seq<CardValue>): (r: seq<seq<CardValue>>)
    ensures |r| == |All(0, |cards|, 5)|
  {
    AllAreSelections(0, |cards|, 5);
    seq(|All(0, |cards|, 5)|, m requires 0 <= m < |All(0, |cards|, 5)| => Pick(cards, All(0, |cards|, 5)[m]))
  }

  lemma HandAt(cards: seq<CardValue>, m: nat)
    requires m < |Hands(cards)|
    ensures IsSelection(All(0, |cards|, 5)[m], 0, |cards|) && |All(0, |cards|, 5)[m]| == 5
    ensures Hands(cards)[m] == Pick(cards, All(0, |cards|, 5)[m]) && |Hands(cards)[m]| == 5
  {
    AllAreSelections(0, |cards|, 5);
  }

  lemma HandsExist(cards: seq<CardValue>)
    requires |cards| >= 5
    ensures Hands(cards) != []
    ensures forall m :: 0 <= m < |Hands(cards)| ==> |Hands(cards)[m]| == 5
  {
    FirstIsConsecutive(0, |cards|, 5);
    forall m | 0 <= m < |Hands(cards)| ensures |Hands(cards)[m]| == 5 { HandAt(cards, m); }
  }

  /** Where the best of the first `m` hands stands: a later hand must win outright to replace an earlier one. */
  ghost function BestIndex(hands: seq<seq<CardValue>>, m: nat): (b: nat)
    requires 0 < m <= |hands|
    ensures b < m
  {
    if m == 1 then 0
    else
      var b := BestIndex(hands, m - 1);
      if FaceOff(hands[m - 1], hands[b]) > 0 then m - 1 else b
  }

  ghost function Best(cards: seq<CardValue>): (r: seq<CardValue>)
    requires |cards| >= 5
    ensures |r| == 5
  {
    HandsExist(cards);
    Hands(cards)[BestIndex(Hands(cards), |Hands(cards)|)]
  }

  /** The best hand beats or ties all the others, and beats all those before it. */
  lemma {:induction false} BestIndexWins(hands: seq<seq<CardValue>>, m: nat)
    requires 0 < m <= |hands| && forall i :: 0 <= i < |hands| ==> |hands[i]| == 5
    ensures forall i :: 0 <= i < m ==> FaceOff(hands[BestIndex(hands, m)], hands[i]) >= 0
    ensures forall i :: 0 <= i < BestIndex(hands, m) ==> FaceOff(hands[BestIndex(hands, m)], hands[i]) > 0
    decreases m
  {
    hide FaceOff;
    TieWithSelf(hands[m - 1]);
    if m > 1 {
      BestIndexWins(hands, m - 1);
      var o := BestIndex(hands, m - 1);
      LoserReversed(hands[m - 1], hands[o]);
      if FaceOff(hands[m - 1], hands[o]) > 0 {
        forall i | 0 <= i < m - 1 ensures FaceOff(hands[m - 1], hands[i]) > 0 {
          WinOverWinner(hands[m - 1], hands[o], hands[i]);
        }
      }
    }
  }

  lemma BestWins(cards: seq<CardValue>, m: nat)
    requires |cards| >= 5 && m < |Hands(cards)|
    ensures FaceOff(Best(cards), Hands(cards)[m]) >= 0
    ensures CategoryOf(Best(cards)).Level() >= CategoryOf(Hands(cards)[m]).Level()
  {
    HandsExist(cards);
    BestIndexWins(Hands(cards), |Hands(cards)|);
  }

  /** Five cards hold one five-card hand: themselves. */
  lemma FiveIsItsOwnBest(cards: seq<CardValue>)
    requires |cards| == 5
    ensures Hands(cards) == [cards] && Best(cards) == cards
  {
    FirstIsConsecutive(0, |cards|, 5);
    AllCount(0, |cards|, 5);
    ChooseAll(|cards|);
    assert Pick(cards, Consecutive(0, |cards|)) == cards;
  }

  lemma {:induction false} ChooseAll(n: nat)
    ensures Choose(n, n) == 1
  {
    if n > 0 {
      ChooseAll(n - 1);
      ChooseNone(n - 1, n);
    }
  }

  lemma PickHead(cards: seq<CardValue>, sel: seq<int>)
    requires sel != [] && forall i :: 0 <= i < |sel| ==> 0 <= sel[i] < |cards|
    ensures multiset(Pick(cards, sel)) == multiset{cards[sel[0]]} + multiset(Pick(cards, sel[1..]))
  {
    assert Pick(cards, sel) == [cards[sel[0]]] + Pick(cards, sel[1..]);
  }

  /** Choosing positions takes a sub-bag of the cards. */
  lemma {:induction false} PickIsSubBag(cards: seq<CardValue>, sel: seq<int>, lo: nat)
    requires lo <= |cards| && IsSelection(sel, lo, |cards|)
    ensures multiset(Pick(cards, sel)) <= multiset(cards[lo..])
    decreases |sel|
  {
    if sel != [] {
      var p := sel[0];
      TailIsSelection(sel, lo, |cards|);
      PickIsSubBag(cards, sel[1..], p + 1);
      PickHead(cards, sel);
      hide IsSelection, Pick;
      assert cards[lo..] == cards[lo..p] + ([cards[p]] + cards[p + 1..]);
    }
  }

  /** Every sub-bag of the cards can be chosen by increasing positions. */
  lemma {:induction false} SubBagIsPicked(cards: seq<CardValue>, lo: nat, bag: multiset<CardValue>)
    returns (sel: seq<int>)
    requires lo <= |cards| && bag <= multiset(cards[lo..])
    ensures IsSelection(sel, lo, |cards|)
    ensures multiset(Pick(cards, sel)) == bag
    decreases |cards| - lo
  {
    if lo == |cards| {
      sel := [];
    } else if cards[lo] in bag {
      TailBag(cards, lo, bag);
      var rest := SubBagIsPicked(cards, lo + 1, bag - multiset{cards[lo]});
      sel := [lo] + rest;
      assert Pick(cards, sel) == [cards[lo]] + Pick(cards, rest);
    } else {
      TailBag(cards, lo, bag);
      sel := SubBagIsPicked(cards, lo + 1, bag);
    }
  }

  lemma TailBag(cards: seq<CardValue>, lo: nat, bag: multiset<CardValue>)
    requires lo < |cards| && bag <= multiset(cards[lo..])
    ensures bag - multiset{cards[lo]} <= multiset(cards[lo + 1..])
  {
    HeadBag(cards[lo..]);
    assert cards[lo..][1..] == cards[lo + 1..];
    forall x ensures (bag - multiset{cards[lo]})[x] <= multiset(cards[lo + 1..])[x] {
      assert bag[x] <= multiset(cards[lo..])[x];
    }
  }

  /** The best hand is made of cards from the hand, and no five cards from the hand beat it. */
  lemma BestIsOptimal(cards: seq<CardValue>)
    requires |cards| >= 5
    ensures multiset(Best(cards)) <= multiset(cards)
    ensures forall five: seq<CardValue> :: |five| == 5 && multiset(five) <= multiset(cards) ==>
      FaceOff(Best(cards), five) >= 0
  {
    var hands := Hands(cards);
    HandsExist(cards);
    var b := BestIndex(hands, |hands|);
    HandAt(cards, b);
    PickIsSubBag(cards, All(0, |cards|, 5)[b], 0);
    assert cards[0..] == cards;
    forall five: seq<CardValue> | |five| == 5 && multiset(five) <= multiset(cards)
      ensures FaceOff(Best(cards), five) >= 0
    {
      var m := HandFor(cards, five);
      HandAt(cards, m);
      BestWins(cards, m);
      CardOrderIrrelevant(hands[m], five);
    }
  }

  /** Any five of the cards, in any order, are among the visited hands. */
  lemma HandFor(cards: seq<CardValue>, five: seq<CardValue>) returns (m: nat)
    requires |five| == 5 && multiset(five) <= multiset(cards)
    ensures m < |Hands(cards)| && multiset(Hands(cards)[m]) == multiset(five)
  {
    assert cards[0..] == cards;
    var sel := SubBagIsPicked(cards, 0, multiset(five));
    assert |Pick(cards, sel)| == |multiset(Pick(cards, sel))| == 5;
    AllComplete(sel, 0, |cards|);
    m :| 0 <= m < |All(0, |cards|, 5)| && All(0, |cards|, 5)[m] == sel;
    HandAt(cards, m);
  }
}
