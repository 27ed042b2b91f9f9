/** Enumerating the five-card hands inside 5-7 cards, and evaluating and comparing with the best one. */
module HandSearch {
  import opened Cards
  import opened Selections
  import opened HandCategories
  import opened BestFive
  import opened HandRanking

  /** The selection an index array holds, and the hand it picks. */
  ghost predicate At(cards: seq<CardValue>, indices: seq<int>, m: nat) {
    m < |All(0, |cards|, 5)| && indices == All(0, |cards|, 5)[m]
  }

  /** The index array starts at 0, 1, 2, 3, 4, the first selection. */
  method FirstIndices(n: int) returns (indices: array<int>)
    requires n >= 5
    ensures fresh(indices) && indices.Length == 5
    ensures |All(0, n, 5)| > 0 && indices[..] == All(0, n, 5)[0]
  {
    indices := new int[5];
    for i := 0 to 5
      invariant forall j :: 0 <= j < i ==> indices[j] == j
    {
      indices[i] := i;
    }
    FirstIsConsecutive(0, n, 5);
  }

  /** The "next combination" step, in place: it computes `Next`. */
  method NextCombination(indices: array<int>, n: int) returns (more: bool)
    requires indices.Length == 5 && IsSelection(indices[..], 0, n)
    modifies indices
    ensures Next(old(indices[..]), n) == if more then Some(indices[..]) else None
    ensures !more ==> indices[..] == old(indices[..])
  {
    hide Next, IsSelection;
    var k := 5;
    ghost var s := indices[..];
    var i := k - 1;
    while i >= 0 && indices[i] == n - k + i
      invariant -1 <= i < k
      invariant forall j :: i < j < k ==> s[j] == n - k + j
    {
      i := i - 1;
    }
    if i < 0 {
      NoPivot(s, n);
      return false;
    }
    NextAtPivot(s, n, i);
    indices[i] := indices[i] + 1;
    for j := i + 1 to k
      invariant indices[..j] == s[..i] + Consecutive(s[i] + 1, j - i)
    {
      indices[j] := indices[j - 1] + 1;
    }
    assert indices[..k] == indices[..];
    return true;
  }

  method TakeAt(cards: seq<CardValue>, indices: array<int>) returns (combo: seq<CardValue>)
    requires forall i :: 0 <= i < indices.Length ==> 0 <= indices[i] < |cards|
    ensures combo == Pick(cards, indices[..])
  {
    combo := [];
    for j := 0 to indices.Length
      invariant combo == Pick(cards, indices[..j])
    {
      combo := combo + [cards[indices[j]]];
    }
    assert indices[..indices.Length] == indices[..];
  }

  /** Listed selections can be taken, and stepping leads from one listed selection to the next. */
  lemma StepFrom(cards: seq<CardValue>, s: seq<int>, m: nat)
    requires At(cards, s, m)
    ensures |s| == 5 && IsSelection(s, 0, |cards|) && Hands(cards)[m] == Pick(cards, s)
    ensures Next(s, |cards|).Some? ==> At(cards, Next(s, |cards|).value, m + 1)
    ensures Next(s, |cards|).None? ==> m + 1 == |Hands(cards)|
  {
    HandAt(cards, m);
    NextIsSuccessor(0, |cards|, 5, m);
  }

  lemma TakeOneMore<T>(s: seq<T>, m: nat)
    requires m < |s|
    ensures s[..m] + [s[m]] == s[..m + 1]
    ensures m + 1 == |s| ==> s[..m + 1] == s
  {
  }

  /** All five-card combinations, by the in-place loop. */
  method GenerateCombinations(cards: seq<CardValue>) returns (combos: seq<seq<CardValue>>)
    requires |cards| >= 5
    ensures combos == Hands(cards)
  {
    var indices := FirstIndices(|cards|);
    hide At, All, Next, Hands, Pick, IsMaxCategory, CategoryOf;
    ghost var hands, m := Hands(cards), 0;
    combos := [];
    while true
      invariant At(cards, indices[..], m)
      invariant m < |hands| && combos == hands[..m]
      decreases |hands| - m
    {
      StepFrom(cards, indices[..], m);
      var combo := TakeAt(cards, indices);
      TakeOneMore(hands, m);
      combos := combos + [combo];
      var more := NextCombination(indices, |cards|);
      if !more { break; }
      m := m + 1;
    }
  }

  /** The loop that looks for the first difference between two keys. */
  method CompareKeys(a: seq<int>, b: seq<int>) returns (d: int)
    ensures d == LexDifference(a, b)
  {
    var j := 0;
    while j < |a| && j < |b|
      invariant 0 <= j <= |a| && j <= |b|
      invariant LexDifference(a[j..], b[j..]) == LexDifference(a, b)
    {
      if a[j] != b[j] { return a[j] - b[j]; }
      j := j + 1;
    }
    return 0;
  }

  lemma TwoPairHasPairs(cards: seq<CardValue>)
    requires |cards| == 5 && CategoryOf(cards) == TwoPair
    ensures exists p, q :: p != q && multiset(Ranks(cards))[p] == 2 && multiset(Ranks(cards))[q] == 2
  {
    var bag := multiset(Ranks(cards));
    RanksAreFive(cards);
    GroupMembers(bag, 2);
    var pairs := Group(bag, 2);
    assert pairs[0] in pairs && pairs[1] in pairs;
    assert pairs[0] != pairs[1] && bag[pairs[0]] == 2 && bag[pairs[1]] == 2;
  }

  /** The key of a five-card hand under its own category. */
  method OwnKey(cards: seq<CardValue>, rank: HandRank) returns (key: seq<int>)
    requires |cards| == 5 && rank == CategoryOf(cards)
    ensures key == KeyOf(cards)
  {
    if rank == TwoPair { TwoPairHasPairs(cards); }
    key := GetComparisonKey(cards, rank);
  }

  method EvaluateBestFiveCards(cards: seq<CardValue>) returns (r: Result<HandRank>, best: seq<CardValue>)
    ensures r == if 5 <= |cards| <= 7 then Ok(CategoryOf(Best(cards))) else InvalidArgument
    ensures 5 <= |cards| <= 7 ==> best == Best(cards)
  {
    if |cards| < 5 || |cards| > 7 { return InvalidArgument, []; }
    if |cards| == 5 {
      FiveIsItsOwnBest(cards);
      best := cards;
      r := EvaluateFiveCards(cards);
      return;
    }
    var combos := GenerateCombinations(cards);
    HandsExist(cards);
    var bestRank, bestIndex := HighCard, 0;
    for i := 0 to |combos|
      invariant IsBestSoFar(combos, i, bestRank, bestIndex)
    {
      var rank :- assert EvaluateFiveCards(combos[i]);
      BestSoFarStep(combos, i, bestRank, bestIndex, rank);
      if rank.Level() > bestRank.Level() {
        bestRank, bestIndex := rank, i;
      } else if rank == bestRank {
        var keyBest := OwnKey(combos[bestIndex], rank);
        var keyCurrent := OwnKey(combos[i], rank);
        var d := CompareKeys(keyCurrent, keyBest);
        if d > 0 { bestIndex := i; }
      }
    }
    best := combos[bestIndex];
    r := Ok(bestRank);
  }

  /** The search variables name the best of the first `m` hands; before the first they hold their initial values. */
  ghost predicate IsBestSoFar(hands: seq<seq<CardValue>>, m: nat, rank: HandRank, index: int) {
    && m <= |hands| && 0 <= index < |hands|
    && if m == 0 then rank == HighCard && index == 0
       else index == BestIndex(hands, m) && rank == CategoryOf(hands[index])
  }

  lemma BestSoFarStep(hands: seq<seq<CardValue>>, m: nat, bestRank: HandRank, bestIndex: int, rank: HandRank)
    requires forall i :: 0 <= i < |hands| ==> |hands[i]| == 5
    requires m < |hands| && IsBestSoFar(hands, m, bestRank, bestIndex) && rank == CategoryOf(hands[m])
    ensures rank.Level() > bestRank.Level() ==> IsBestSoFar(hands, m + 1, rank, m)
    ensures rank.Level() < bestRank.Level() ==> IsBestSoFar(hands, m + 1, bestRank, bestIndex)
    ensures rank == bestRank ==>
      && CategoryOf(hands[bestIndex]) == rank
      && var beats := LexDifference(KeyOf(hands[m]), KeyOf(hands[bestIndex])) > 0;
         IsBestSoFar(hands, m + 1, rank, if beats then m else bestIndex)
    ensures rank == bestRank || rank.Level() != bestRank.Level()
  {
    TieWithSelf(hands[m]);
    LevelInjective(rank, bestRank);
  }

  /** The rank of a hand of five to seven cards. */
  ghost function RankOfHand(hand: seq<Card>): HandRank {
    if |hand| >= 5 then CategoryOf(Best(CardValues(hand))) else HighCard
  }

  /** The second, separately coded enumeration: only the category is kept. */
  method Evaluate(hand: seq<Card>) returns (r: Result<HandRank>)
    ensures r == if 5 <= |hand| <= 7 then Ok(RankOfHand(hand)) else InvalidArgument
  {
    hide All, Next, Hands, Pick, Best, CategoryOf;
    if |hand| < 5 || |hand| > 7 { return InvalidArgument; }
    var cards := ToCardValues(hand);
    if |hand| == 5 {
      FiveIsItsOwnBest(cards);
      r := EvaluateFiveCards(cards);
      return;
    }
    var bestRank := HighCard;
    var indices := FirstIndices(|cards|);
    ghost var hands, m := Hands(cards), 0;
    while true
      invariant At(cards, indices[..], m)
      invariant m < |hands| && IsMaxCategory(hands[..m], bestRank)
      decreases |hands| - m
    {
      StepFrom(cards, indices[..], m);
      var combo := TakeAt(cards, indices);
      var rank :- assert EvaluateFiveCards(combo);
      MaxCategoryStep(hands, m, bestRank, rank);
      if rank.Level() > bestRank.Level() { bestRank := rank; }
      var more := NextCombination(indices, |cards|);
      if !more {
        assert hands[..m + 1] == hands;
        break;
      }
      m := m + 1;
    }
    MaxCategoryIsBest(cards, bestRank);
    return Ok(bestRank);
  }

  /** `c` is the highest category among `hands`, or HIGH_CARD when there are none. */
  ghost predicate IsMaxCategory(hands: seq<seq<CardValue>>, c: HandRank) {
    && (forall i :: 0 <= i < |hands| ==> CategoryOf(hands[i]).Level() <= c.Level())
    && (c == HighCard || exists i :: 0 <= i < |hands| && CategoryOf(hands[i]) == c)
  }

  lemma MaxCategoryStep(hands: seq<seq<CardValue>>, m: nat, c: HandRank, rank: HandRank)
    requires m < |hands| && IsMaxCategory(hands[..m], c) && rank == CategoryOf(hands[m])
    ensures IsMaxCategory(hands[..m + 1], if rank.Level() > c.Level() then rank else c)
  {
    hide CategoryOf;
    var best := if rank.Level() > c.Level() then rank else c;
    var longer := hands[..m + 1];
    assert longer[m] == hands[m];
    forall i | 0 <= i < |longer| ensures CategoryOf(longer[i]).Level() <= best.Level() {
      if i < m { assert longer[i] == hands[..m][i]; }
    }
    if best != HighCard && best == c {
      var i :| 0 <= i < m && CategoryOf(hands[..m][i]) == c;
      assert CategoryOf(longer[i]) == c;
    }
  }

  /** The two enumerations agree: the highest category of all is the category of the best hand. */
  lemma MaxCategoryIsBest(cards: seq<CardValue>, c: HandRank)
    requires |cards| >= 5 && IsMaxCategory(Hands(cards), c)
    ensures c == CategoryOf(Best(cards))
  {
    var hands := Hands(cards);
    HandsExist(cards);
    var b := BestIndex(hands, |hands|);
    assert CategoryOf(hands[b]).Level() <= c.Level();
    if c != HighCard {
      var i :| 0 <= i < |hands| && CategoryOf(hands[i]) == c;
      BestWins(cards, i);
    }
    LevelInjective(c, CategoryOf(Best(cards)));
  }

  ghost function Comparison(hand1: seq<Card>, hand2: seq<Card>): int
    requires 5 <= |hand1| && 5 <= |hand2|
  {
    FaceOff(Best(CardValues(hand1)), Best(CardValues(hand2)))
  }

  method Compare(hand1: seq<Card>, hand2: seq<Card>) returns (r: Result<int>)
    ensures r == if 5 <= |hand1| <= 7 && 5 <= |hand2| <= 7 then Ok(Comparison(hand1, hand2)) else InvalidArgument
  {
    hide CategoryOf, KeyOf;
    var cards1 := ToCardValues(hand1);
    var cards2 := ToCardValues(hand2);
    var evaluated1, best1 := EvaluateBestFiveCards(cards1);
    if evaluated1.InvalidArgument? { return InvalidArgument; }
    var evaluated2, best2 := EvaluateBestFiveCards(cards2);
    if evaluated2.InvalidArgument? { return InvalidArgument; }
    var rank1, rank2 := evaluated1.value, evaluated2.value;
    if rank1 != rank2 {
      r := Ok(rank1.Level() - rank2.Level());
    } else {
      var key1 := OwnKey(best1, rank1);
      var key2 := OwnKey(best2, rank2);
      var d := CompareKeys(key1, key2);
      r := Ok(d);
    }
  }
}
