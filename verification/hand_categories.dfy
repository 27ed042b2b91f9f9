/** What a five-card hand is worth: its category, its comparison key, and what the two determine. */
module HandCategories {
  import opened Bags
  import opened Cards

  datatype HandRank =
    | HighCard | OnePair | TwoPair | ThreeOfAKind | Straight
    | Flush | FullHouse | FourOfAKind | StraightFlush | RoyalFlush
  {
    /** The enumeration's integer value; a higher level wins. */
    function Level(): (l: nat)
      ensures l < 10
    {
      match this
      case HighCard => 0
      case OnePair => 1
      case TwoPair => 2
      case ThreeOfAKind => 3
      case Straight => 4
      case Flush => 5
      case FullHouse => 6
      case FourOfAKind => 7
      case StraightFlush => 8
      case RoyalFlush => 9
    }
  }

  lemma LevelInjective(a: HandRank, b: HandRank)
    ensures a.Level() == b.Level() ==> a == b
  {
  }

  /** The categories that rank at least as high as `c`, by name. */
  function AtLeast(c: HandRank): set<HandRank> {
    match c
    case RoyalFlush => {RoyalFlush}
    case StraightFlush => {StraightFlush, RoyalFlush}
    case FourOfAKind => {FourOfAKind, StraightFlush, RoyalFlush}
    case FullHouse => {FullHouse, FourOfAKind, StraightFlush, RoyalFlush}
    case Flush => {Flush, FullHouse, FourOfAKind, StraightFlush, RoyalFlush}
    case Straight => {Straight, Flush, FullHouse, FourOfAKind, StraightFlush, RoyalFlush}
    case ThreeOfAKind => {ThreeOfAKind, Straight, Flush, FullHouse, FourOfAKind, StraightFlush, RoyalFlush}
    case TwoPair => {TwoPair, ThreeOfAKind, Straight, Flush, FullHouse, FourOfAKind, StraightFlush, RoyalFlush}
    case OnePair =>
      {OnePair, TwoPair, ThreeOfAKind, Straight, Flush, FullHouse, FourOfAKind, StraightFlush, RoyalFlush}
    case HighCard =>
      {HighCard, OnePair, TwoPair, ThreeOfAKind, Straight, Flush, FullHouse, FourOfAKind, StraightFlush, RoyalFlush}
  }

  /** The levels order the categories as their names say. */
  lemma LevelIsByName(c: HandRank, d: HandRank)
    ensures d.Level() >= c.Level() <==> d in AtLeast(c)
  {
  }

  // ---------- Rank bags ----------

  function RankOfValue(c: CardValue): int { c.rank }
  function SuitOfValue(c: CardValue): int { c.suit }
  function Ranks(cards: seq<CardValue>): seq<int> { Map(RankOfValue, cards) }
  function Suits(cards: seq<CardValue>): seq<int> { Map(SuitOfValue, cards) }

  ghost predicate FiveRanks(bag: multiset<int>) {
    |bag| == 5 && forall r :: r in bag ==> 0 <= r < 13
  }

  lemma RanksAreFive(cards: seq<CardValue>)
    requires |cards| == 5
    ensures FiveRanks(multiset(Ranks(cards)))
  {
  }

  /** The ranks up to `top` that occur exactly `n` times, highest first. */
  ghost function WithCount(bag: multiset<int>, n: nat, top: int): (r: seq<int>)
    decreases top + 1, bag
  {
    if top < 0 then []
    else (if bag[top] == n then [top] else []) + WithCount(bag, n, top - 1)
  }

  ghost function Group(bag: multiset<int>, n: nat): seq<int> {
    WithCount(bag, n, 12)
  }

  lemma {:induction false} WithCountMembers(bag: multiset<int>, n: nat, top: int)
    requires -1 <= top
    ensures StrictlyDescending(WithCount(bag, n, top))
    ensures forall r :: r in WithCount(bag, n, top) <==> 0 <= r <= top && bag[r] == n
    decreases top + 1
  {
    if top >= 0 {
      WithCountMembers(bag, n, top - 1);
      var rest := WithCount(bag, n, top - 1);
      AboveTheRest(top, rest);
    }
  }

  lemma AboveTheRest(x: int, rest: seq<int>)
    requires StrictlyDescending(rest) && forall r :: r in rest ==> r < x
    ensures StrictlyDescending([x] + rest)
    ensures forall r :: r in [x] + rest <==> r == x || r in rest
  {
    assert forall i :: 0 <= i < |rest| ==> rest[i] in rest;
  }

  lemma GroupMembers(bag: multiset<int>, n: nat)
    requires n > 0 && FiveRanks(bag)
    ensures StrictlyDescending(Group(bag, n))
    ensures forall r :: r in Group(bag, n) <==> bag[r] == n
  {
    WithCountMembers(bag, n, 12);
    forall r | bag[r] == n ensures r in Group(bag, n) {
      assert r in bag;
    }
  }

  /** The bag laid out highest rank first. */
  ghost function Layout(bag: multiset<int>, top: int): (r: seq<int>)
    decreases top + 1, bag
  {
    if top < 0 then []
    else seq(bag[top], _ => top) + Layout(bag, top - 1)
  }

  lemma {:induction false} RepeatBag(x: int, n: nat)
    ensures multiset(seq(n, _ => x)) == multiset{}[x := n]
    decreases n
  {
    if n > 0 {
      RepeatBag(x, n - 1);
      assert seq(n, _ => x) == seq(n - 1, _ => x) + [x];
    }
  }

  lemma {:induction false} LayoutDescends(bag: multiset<int>, top: int)
    requires -1 <= top
    ensures Descending(Layout(bag, top))
    ensures forall r :: r in Layout(bag, top) ==> 0 <= r <= top
    decreases top + 1
  {
    if top >= 0 {
      LayoutDescends(bag, top - 1);
      var rest := Layout(bag, top - 1);
      assert forall i :: 0 <= i < |rest| ==> rest[i] in rest;
    }
  }

  lemma {:induction false} LayoutCounts(bag: multiset<int>, top: int, r: int)
    requires -1 <= top
    ensures multiset(Layout(bag, top))[r] == if 0 <= r <= top then bag[r] else 0
    decreases top + 1
  {
    if top >= 0 {
      LayoutCounts(bag, top - 1, r);
      RepeatBag(top, bag[top]);
    }
  }

  lemma LayoutBag(bag: multiset<int>)
    requires FiveRanks(bag)
    ensures multiset(Layout(bag, 12)) == bag
  {
    forall r ensures multiset(Layout(bag, 12))[r] == bag[r] {
      LayoutCounts(bag, 12, r);
      if bag[r] > 0 { assert r in bag; }
    }
  }

  lemma SortedRanks(bag: multiset<int>)
    requires FiveRanks(bag)
    ensures Descending(Layout(bag, 12)) && multiset(Layout(bag, 12)) == bag && |Layout(bag, 12)| == 5
    ensures forall r :: r in Layout(bag, 12) ==> 0 <= r < 13
  {
    LayoutDescends(bag, 12);
    LayoutBag(bag);
    assert |Layout(bag, 12)| == |multiset(Layout(bag, 12))|;
  }

  /** Every card is in the group of its rank's multiplicity, so the group sizes weigh up to the hand size. */
  lemma {:induction false} GroupWeights(bag: multiset<int>, top: int)
    requires -1 <= top && |bag| == 5
    ensures |Layout(bag, top)| ==
            |WithCount(bag, 1, top)| + 2 * |WithCount(bag, 2, top)| + 3 * |WithCount(bag, 3, top)|
            + 4 * |WithCount(bag, 4, top)| + 5 * |WithCount(bag, 5, top)|
    decreases top + 1
  {
    if top >= 0 {
      GroupWeights(bag, top - 1);
      CountAtMost(bag, top);
    }
  }

  lemma CountAtMost(bag: multiset<int>, r: int)
    ensures bag[r] <= |bag|
  {
  }

  lemma FiveWeights(bag: multiset<int>)
    requires FiveRanks(bag)
    ensures |Group(bag, 1)| + 2 * |Group(bag, 2)| + 3 * |Group(bag, 3)| + 4 * |Group(bag, 4)| + 5 * |Group(bag, 5)| == 5
  {
    SortedRanks(bag);
    GroupWeights(bag, 12);
  }

  // ---------- Straights ----------

  /** Five consecutive ranks ending at `top`; ace-two-three-four-five counts as ending at the five. */
  ghost predicate RunTo(bag: multiset<int>, top: int) {
    || (4 <= top <= 12 && top in bag && top - 1 in bag && top - 2 in bag && top - 3 in bag && top - 4 in bag)
    || (top == 3 && ACE in bag && 0 in bag && 1 in bag && 2 in bag && 3 in bag)
  }

  ghost predicate IsRun(bag: multiset<int>) {
    exists top :: RunTo(bag, top)
  }

  ghost function RunTop(bag: multiset<int>): int
    requires IsRun(bag)
  {
    var top :| RunTo(bag, top); top
  }

  /** The five cards of a straight, highest first. */
  ghost function RunRanks(top: int): (r: seq<int>)
    ensures |r| == 5
  {
    if top == 3 then [12, 3, 2, 1, 0] else [top, top - 1, top - 2, top - 3, top - 4]
  }

  /** A five-card straight is determined by its top. */
  lemma RunLayout(sorted: seq<int>, top: int)
    requires Descending(sorted) && |sorted| == 5
    requires forall r :: r in sorted ==> 0 <= r < 13
    ensures RunTo(multiset(sorted), top) <==> 3 <= top <= 12 && sorted == RunRanks(top)
  {
    if RunTo(multiset(sorted), top) {
      RunFixesLayout(sorted, top);
    }
    if 3 <= top <= 12 && sorted == RunRanks(top) {
      RunRanksRun(top);
    }
  }

  lemma RunRanksRun(top: int)
    requires 3 <= top <= 12
    ensures RunTo(multiset(RunRanks(top)), top)
  {
  }

  lemma RunFixesLayout(sorted: seq<int>, top: int)
    requires Descending(sorted) && |sorted| == 5
    requires RunTo(multiset(sorted), top)
    ensures sorted == RunRanks(top)
  {
    hide RunTo, RunRanks;
    var w := RunRanks(top);
    RunRanksPresent(multiset(sorted), top);
    OneOfFive(sorted, w[0]);
    OneOfFive(sorted, w[1]);
    OneOfFive(sorted, w[2]);
    OneOfFive(sorted, w[3]);
    OneOfFive(sorted, w[4]);
    FiveDescending(sorted[0], sorted[1], sorted[2], sorted[3], sorted[4], w[0], w[1], w[2], w[3], w[4]);
  }

  lemma RunRanksPresent(bag: multiset<int>, top: int)
    requires RunTo(bag, top)
    ensures forall i :: 0 <= i < 5 ==> RunRanks(top)[i] in bag
    ensures RunRanks(top)[0] > RunRanks(top)[1] > RunRanks(top)[2] > RunRanks(top)[3] > RunRanks(top)[4]
  {
  }

  lemma OneOfFive(s: seq<int>, x: int)
    requires |s| == 5 && x in multiset(s)
    ensures x in {s[0], s[1], s[2], s[3], s[4]}
  {
    assert x in s;
  }

  lemma RunRanksDescend(top: int)
    requires 3 <= top <= 12
    ensures StrictlyDescending(RunRanks(top))
  {
  }

  /** Five descending numbers that contain five different ones are those, in order. */
  lemma FiveDescending(a: int, b: int, c: int, d: int, e: int, v: int, w: int, x: int, y: int, z: int)
    requires a >= b >= c >= d >= e && v > w > x > y > z
    requires {v, w, x, y, z} <= {a, b, c, d, e}
    ensures a == v && b == w && c == x && d == y && e == z
  {
  }

  /**
   * The key's shortcut (ace on top, deuce at the bottom) recognises the wheel among straights, and the wheel
   * has the lowest top.
   */
  lemma WheelIsLowest(sorted: seq<int>)
    requires Descending(sorted) && |sorted| == 5
    requires forall r :: r in sorted ==> 0 <= r < 13
    requires IsRun(multiset(sorted))
    ensures RunTop(multiset(sorted)) == if sorted[0] == 12 && sorted[4] == 0 then 3 else sorted[0]
    ensures 3 <= RunTop(multiset(sorted)) <= 12
    ensures RunTop(multiset(sorted)) == 3 <==> sorted == [12, 3, 2, 1, 0]
  {
    RunLayout(sorted, RunTop(multiset(sorted)));
  }

  // ---------- Category ----------

  ghost predicate OneSuit(suits: multiset<int>) {
    exists s :: suits[s] >= 5
  }

  ghost predicate HasFlush(cards: seq<CardValue>) {
    OneSuit(multiset(Suits(cards)))
  }

  /** The category tests in the order they are tried, on the bag of ranks. */
  ghost function Category(bag: multiset<int>, flush: bool): HandRank {
    if flush && IsRun(bag) then (if RunTo(bag, ACE) then RoyalFlush else StraightFlush)
    else if Group(bag, 4) != [] then FourOfAKind
    else if Group(bag, 3) != [] && Group(bag, 2) != [] then FullHouse
    else if flush then Flush
    else if IsRun(bag) then Straight
    else if Group(bag, 3) != [] then ThreeOfAKind
    else if |Group(bag, 2)| == 2 then TwoPair
    else if |Group(bag, 2)| == 1 then OnePair
    else HighCard
  }

  /** What the rules of poker ask of a hand for each category. */
  ghost predicate Makes(bag: multiset<int>, flush: bool, c: HandRank) {
    match c
    case HighCard => true
    case OnePair => exists r :: bag[r] >= 2
    case TwoPair => exists r, q :: r != q && bag[r] >= 2 && bag[q] >= 2
    case ThreeOfAKind => exists r :: bag[r] >= 3
    case Straight => IsRun(bag)
    case Flush => flush
    case FullHouse => exists r, q :: r != q && bag[r] >= 3 && bag[q] >= 2
    case FourOfAKind => exists r :: bag[r] >= 4
    case StraightFlush => flush && IsRun(bag)
    case RoyalFlush => flush && RunTo(bag, ACE)
  }

  ghost predicate HighestMade(bag: multiset<int>, flush: bool, c: HandRank) {
    Makes(bag, flush, c) && forall d: HandRank :: Makes(bag, flush, d) ==> d.Level() <= c.Level()
  }

  lemma HasGroup(bag: multiset<int>, n: nat)
    requires n > 0 && FiveRanks(bag)
    ensures Group(bag, n) != [] <==> exists r :: bag[r] == n
  {
    GroupMembers(bag, n);
    if Group(bag, n) != [] { assert Group(bag, n)[0] in Group(bag, n); }
  }

  lemma MakesQuads(bag: multiset<int>, flush: bool)
    requires FiveRanks(bag) && Group(bag, 5) == []
    ensures Makes(bag, flush, FourOfAKind) <==> Group(bag, 4) != []
  {
    HasGroup(bag, 4);
    HasGroup(bag, 5);
    if r :| bag[r] >= 4 { CountAtMost(bag, r); }
  }

  lemma MakesTrips(bag: multiset<int>, flush: bool)
    requires FiveRanks(bag) && Group(bag, 5) == []
    ensures Makes(bag, flush, ThreeOfAKind) <==> Group(bag, 4) != [] || Group(bag, 3) != []
  {
    MakesQuads(bag, flush);
    HasGroup(bag, 3);
    if r :| bag[r] >= 3 {}
  }

  lemma MakesPair(bag: multiset<int>, flush: bool)
    requires FiveRanks(bag) && Group(bag, 5) == []
    ensures Makes(bag, flush, OnePair) <==> Group(bag, 4) != [] || Group(bag, 3) != [] || Group(bag, 2) != []
  {
    MakesTrips(bag, flush);
    HasGroup(bag, 2);
    if r :| bag[r] >= 2 {}
  }

  lemma MakesFullHouse(bag: multiset<int>, flush: bool)
    requires FiveRanks(bag) && Group(bag, 5) == []
    ensures Makes(bag, flush, FullHouse) <==> Group(bag, 3) != [] && Group(bag, 2) != []
  {
    HasGroup(bag, 3);
    HasGroup(bag, 2);
    if r, q :| r != q && bag[r] >= 3 && bag[q] >= 2 { TwoCountsFit(bag, r, q); }
  }

  lemma PairsDiffer(bag: multiset<int>)
    requires FiveRanks(bag)
    ensures forall r :: r in Group(bag, 2) <==> bag[r] == 2
    ensures forall i, j :: 0 <= i < j < |Group(bag, 2)| ==> Group(bag, 2)[i] != Group(bag, 2)[j]
  {
    GroupMembers(bag, 2);
  }

  lemma MakesTwoPair(bag: multiset<int>, flush: bool)
    requires FiveRanks(bag) && Group(bag, 5) == []
    ensures Makes(bag, flush, TwoPair) <==> |Group(bag, 2)| == 2 || (Group(bag, 3) != [] && Group(bag, 2) != [])
  {
    hide Group, StrictlyDescending;
    HasGroup(bag, 3);
    HasGroup(bag, 2);
    PairsDiffer(bag);
    FiveWeights(bag);
    var pairs := Group(bag, 2);
    if r, q :| r != q && bag[r] >= 2 && bag[q] >= 2 {
      TwoCountsFit(bag, r, q);
      if bag[r] == 2 && bag[q] == 2 {
        assert r in pairs && q in pairs;
        var i, j :| 0 <= i < |pairs| && 0 <= j < |pairs| && pairs[i] == r && pairs[j] == q;
        assert i != j;
      }
    }
    if |pairs| == 2 {
      assert pairs[0] in pairs && pairs[1] in pairs && pairs[0] != pairs[1];
    }
  }

  /** A straight has five different ranks. */
  lemma RunHasNoGroups(bag: multiset<int>)
    requires FiveRanks(bag) && IsRun(bag)
    ensures Group(bag, 2) == [] && Group(bag, 3) == [] && Group(bag, 4) == [] && Group(bag, 5) == []
  {
    RunRanksOnce(bag);
    HasGroup(bag, 2);
    HasGroup(bag, 3);
    HasGroup(bag, 4);
    HasGroup(bag, 5);
  }

  lemma RunRanksOnce(bag: multiset<int>)
    requires FiveRanks(bag) && IsRun(bag)
    ensures forall r :: bag[r] <= 1
  {
    var sorted := Layout(bag, 12);
    SortedRanks(bag);
    RunLayout(sorted, RunTop(bag));
    RunRanksDescend(RunTop(bag));
    forall r ensures bag[r] <= 1 {
      StrictlyDescendingCountsOne(sorted, r);
    }
  }

  /**
   * The order of tests finds the highest category the rules award, exactly when no rank occurs five
   * times (the code tests "four of a kind" with ==, so five equal ranks fall through).
   */
  lemma CategoryIsHighest(bag: multiset<int>, flush: bool)
    requires FiveRanks(bag)
    ensures HighestMade(bag, flush, Category(bag, flush)) <==> forall r :: bag[r] != 5
  {
    hide Group, RunTo;
    HasGroup(bag, 5);
    FiveWeights(bag);
    if IsRun(bag) { RunHasNoGroups(bag); }
    if r :| bag[r] == 5 {
      assert Makes(bag, flush, FourOfAKind);
      assert Category(bag, flush).Level() <= 5;
    } else {
      MakesQuads(bag, flush);
      MakesTrips(bag, flush);
      MakesPair(bag, flush);
      MakesFullHouse(bag, flush);
      MakesTwoPair(bag, flush);
    }
  }

  /** Five cards that all differ never repeat a rank five times. */
  lemma DistinctCardsRepeatAtMostFour(cards: seq<CardValue>)
    requires |cards| == 5 && Distinct(cards)
    ensures forall r :: multiset(Ranks(cards))[r] != 5
  {
    if r :| multiset(Ranks(cards))[r] == 5 {
      var bag := multiset(Ranks(cards));
      assert |bag[r := 0]| == 0;
      forall i | 0 <= i < 5 ensures cards[i].rank == r {
        assert Ranks(cards)[i] in bag;
        assert Ranks(cards)[i] in bag[r := 0] || Ranks(cards)[i] == r;
      }
      assert forall i, j :: 0 <= i < j < 5 ==> cards[i].suit != cards[j].suit;
      FiveSuitsRepeat(cards[0].suit, cards[1].suit, cards[2].suit, cards[3].suit, cards[4].suit);
    }
  }

  lemma FiveSuitsRepeat(a: Suit, b: Suit, c: Suit, d: Suit, e: Suit)
    ensures a == b || a == c || a == d || a == e || b == c || b == d || b == e || c == d || c == e || d == e
  {
  }

  // ---------- Flushes and straights on the cards ----------

  /** All cards have one suit. */
  ghost predicate SameSuit(cards: seq<CardValue>) {
    forall i, j :: 0 <= i < j < |cards| ==> cards[i].suit == cards[j].suit
  }

  /** Five cards are a flush exactly when all five suits are equal. */
  lemma FlushIsOneSuit(cards: seq<CardValue>)
    requires |cards| == 5
    ensures HasFlush(cards) <==> SameSuit(cards)
  {
    var suits := Suits(cards);
    if SameSuit(cards) {
      var s: int := cards[0].suit;
      assert suits == seq(5, _ => s);
      RepeatBag(s, 5);
      assert multiset(suits)[s] == 5;
    }
    if s :| multiset(suits)[s] >= 5 {
      assert |multiset(suits)[s := 0]| == |multiset(suits)| - multiset(suits)[s];
      forall i | 0 <= i < 5 ensures cards[i].suit == s {
        assert suits[i] in multiset(suits);
        assert suits[i] in multiset(suits)[s := 0] || suits[i] == s;
      }
    }
  }

  /** Cards of one suit that all differ differ in rank. */
  lemma OneSuitDiffersInRank(cards: seq<CardValue>)
    requires SameSuit(cards) && Distinct(cards)
    ensures Distinct(Ranks(cards))
    ensures forall r :: multiset(Ranks(cards))[r] <= 1
  {
    var ranks := Ranks(cards);
    forall i, j | 0 <= i < j < |ranks| ensures ranks[i] != ranks[j] {
      assert cards[i] != cards[j] && cards[i].suit == cards[j].suit;
    }
    forall r ensures multiset(ranks)[r] <= 1 { DistinctCountsOne(ranks, r); }
  }

  /** Five different cards rank as one of the flushes exactly when all five suits are equal. */
  lemma FlushesAreOneSuit(cards: seq<CardValue>)
    requires |cards| == 5 && Distinct(cards)
    ensures CategoryOf(cards) in {Flush, StraightFlush, RoyalFlush} <==> SameSuit(cards)
  {
    hide OneSuit, Group, IsRun, RunTo;
    FlushIsOneSuit(cards);
    RanksAreFive(cards);
    if SameSuit(cards) {
      OneSuitDiffersInRank(cards);
      HasGroup(multiset(Ranks(cards)), 4);
      HasGroup(multiset(Ranks(cards)), 3);
    }
  }

  /** Five ranks stepping down by one. */
  ghost predicate StepDown(s: seq<int>) {
    |s| == 5 && s[0] == s[1] + 1 && s[1] == s[2] + 1 && s[2] == s[3] + 1 && s[3] == s[4] + 1
  }

  /** Different ranks, all within four of each other. */
  ghost predicate WithinFour(ranks: seq<int>) {
    Distinct(ranks) && forall x, y :: x in ranks && y in ranks ==> x - y <= 4
  }

  lemma RunsStepDown(sorted: seq<int>)
    requires Descending(sorted) && |sorted| == 5 && forall r :: r in sorted ==> 0 <= r < 13
    ensures IsRun(multiset(sorted)) <==> StepDown(sorted) || sorted == RunRanks(3)
  {
    hide RunTo, Descending, StepDown, RunRanks;
    if top :| RunTo(multiset(sorted), top) {
      RunLayout(sorted, top);
      RunRanksStepDown(top);
    }
    if StepDown(sorted) { StepDownIsRun(sorted); }
    if sorted == RunRanks(3) { RunLayout(sorted, 3); }
  }

  lemma RunRanksStepDown(top: int)
    requires 3 <= top <= 12
    ensures StepDown(RunRanks(top)) || top == 3
  {
  }

  lemma StepDownIsRun(sorted: seq<int>)
    requires StepDown(sorted) && Descending(sorted) && forall r :: r in sorted ==> 0 <= r < 13
    ensures RunTo(multiset(sorted), sorted[0])
  {
    hide RunTo;
    assert sorted[0] in sorted && sorted[4] in sorted;
    RunLayout(sorted, sorted[0]);
  }

  lemma SameBagWithinFour(a: seq<int>, b: seq<int>)
    requires multiset(a) == multiset(b) && WithinFour(a)
    ensures WithinFour(b)
  {
    assert forall r :: r in b <==> r in multiset(b);
    assert forall r :: r in a <==> r in multiset(a);
    forall i, j | 0 <= i < j < |b| ensures b[i] != b[j] {
      DistinctCountsOne(a, b[i]);
      if b[i] == b[j] { RepeatCountsTwo(b, i, j); }
    }
  }

  lemma WithinFourStepsDown(sorted: seq<int>)
    requires |sorted| == 5 && Descending(sorted)
    ensures WithinFour(sorted) <==> StepDown(sorted)
  {
    if WithinFour(sorted) {
      assert sorted[0] in sorted && sorted[4] in sorted;
      assert sorted[0] > sorted[1] > sorted[2] > sorted[3] > sorted[4];
    }
    if StepDown(sorted) {
      forall x | x in sorted ensures sorted[4] <= x <= sorted[0] {}
    }
  }

  /** Five ranks are a straight exactly when they differ and lie within four of each other, or are ace to five. */
  lemma StraightsAreConsecutive(ranks: seq<int>)
    requires |ranks| == 5 && forall r :: r in ranks ==> 0 <= r < 13
    ensures IsRun(multiset(ranks)) <==> WithinFour(ranks) || multiset(ranks) == multiset{12, 3, 2, 1, 0}
  {
    hide IsRun, WithinFour, StepDown, Layout, Descending;
    assert RunRanks(3) == [12, 3, 2, 1, 0];
    var bag := multiset(ranks);
    assert forall r :: r in bag <==> r in ranks;
    assert FiveRanks(bag);
    var sorted := Layout(bag, 12);
    SortedRanks(bag);
    RunsStepDown(sorted);
    WithinFourStepsDown(sorted);
    if WithinFour(ranks) { SameBagWithinFour(ranks, sorted); }
    if WithinFour(sorted) { SameBagWithinFour(sorted, ranks); }
    if bag == multiset{12, 3, 2, 1, 0} { WheelSorted(sorted); }
    if sorted == [12, 3, 2, 1, 0] { assert bag == multiset{12, 3, 2, 1, 0}; }
  }

  /** The royal ranks are ten to ace. */
  lemma RoyalRanks(bag: multiset<int>)
    requires FiveRanks(bag)
    ensures RunTo(bag, ACE) <==> bag == multiset{12, 11, 10, 9, 8}
  {
    hide RunTo, Layout;
    var sorted := Layout(bag, 12);
    SortedRanks(bag);
    RunLayout(sorted, 12);
    assert RunRanks(12) == [12, 11, 10, 9, 8];
    assert multiset([12, 11, 10, 9, 8]) == multiset{12, 11, 10, 9, 8};
    if bag == multiset{12, 11, 10, 9, 8} {
      RunRanksDescend(12);
      DescendingUnique(sorted, [12, 11, 10, 9, 8]);
    }
  }

  lemma WheelSorted(sorted: seq<int>)
    requires Descending(sorted) && multiset(sorted) == multiset{12, 3, 2, 1, 0}
    ensures sorted == [12, 3, 2, 1, 0]
  {
    assert multiset([12, 3, 2, 1, 0]) == multiset{12, 3, 2, 1, 0};
    DescendingUnique(sorted, [12, 3, 2, 1, 0]);
  }

  // ---------- Comparison key ----------

  /** Ranks by multiplicity, then by height. */
  ghost function ByGroups(bag: multiset<int>): seq<int> {
    Group(bag, 4) + Group(bag, 3) + Group(bag, 2) + Group(bag, 1)
  }

  /** The key that breaks ties within category `c`. */
  ghost function Key(bag: multiset<int>, c: HandRank): seq<int> {
    match c
    case HighCard => Layout(bag, 12)
    case Straight => if IsRun(bag) then [RunTop(bag)] else []
    case StraightFlush => if IsRun(bag) then [RunTop(bag)] else []
    case Flush => Layout(bag, 12)[..if Layout(bag, 12) == [] then 0 else 1]
    case RoyalFlush => Layout(bag, 12)[..if Layout(bag, 12) == [] then 0 else 1]
    case _ => ByGroups(bag)
  }

  /** How many ranks occur four, three, two and one times in a hand of category `c`. */
  function Shape(c: HandRank): (nat, nat, nat, nat) {
    match c
    case OnePair => (0, 0, 1, 3)
    case TwoPair => (0, 0, 2, 1)
    case ThreeOfAKind => (0, 1, 0, 2)
    case FullHouse => (0, 1, 1, 0)
    case FourOfAKind => (1, 0, 0, 1)
    case _ => (0, 0, 0, 5)
  }

  predicate Grouped(c: HandRank) {
    c.OnePair? || c.TwoPair? || c.ThreeOfAKind? || c.FullHouse? || c.FourOfAKind?
  }

  lemma GroupedShape(bag: multiset<int>, flush: bool)
    requires FiveRanks(bag) && Grouped(Category(bag, flush))
    ensures Shape(Category(bag, flush)) == (|Group(bag, 4)|, |Group(bag, 3)|, |Group(bag, 2)|, |Group(bag, 1)|)
    ensures Group(bag, 5) == []
  {
    FiveWeights(bag);
  }

  function KeyLength(c: HandRank): nat {
    match c
    case HighCard => 5
    case OnePair => 4
    case TwoPair => 3
    case ThreeOfAKind => 3
    case FullHouse => 2
    case FourOfAKind => 2
    case _ => 1
  }

  /** Within a category all keys have one length, so comparing up to the shorter one compares all of both. */
  lemma KeyHasCategoryLength(bag: multiset<int>, flush: bool)
    requires FiveRanks(bag)
    ensures |Key(bag, Category(bag, flush))| == KeyLength(Category(bag, flush))
  {
    SortedRanks(bag);
    if Grouped(Category(bag, flush)) { GroupedShape(bag, flush); }
  }

  lemma SplitFour(
      a: seq<int>, b: seq<int>, c: seq<int>, d: seq<int>, a': seq<int>, b': seq<int>, c': seq<int>, d': seq<int>)
    requires |a| == |a'| && |b| == |b'| && |c| == |c'| && |d| == |d'|
    requires a + b + c + d == a' + b' + c' + d'
    ensures a == a' && b == b' && c == c' && d == d'
  {
    var s, s' := a + b + c + d, a' + b' + c' + d';
    assert a == s[..|a|] && a' == s'[..|a|];
    assert b == s[|a|..|a| + |b|] && b' == s'[|a|..|a| + |b|];
    assert c == s[|a| + |b|..|a| + |b| + |c|] && c' == s'[|a| + |b|..|a| + |b| + |c|];
    assert d == s[|a| + |b| + |c|..] && d' == s'[|a| + |b| + |c|..];
  }

  lemma GroupsDetermineBag(x: multiset<int>, y: multiset<int>)
    requires FiveRanks(x) && FiveRanks(y) && Group(x, 5) == [] && Group(y, 5) == []
    requires Group(x, 4) == Group(y, 4) && Group(x, 3) == Group(y, 3) && Group(x, 2) == Group(y, 2) &&
      Group(x, 1) == Group(y, 1)
    ensures x == y
  {
    forall r ensures x[r] == y[r] {
      CountAtMost(x, r);
      CountAtMost(y, r);
      if x[r] > 0 { GroupMembers(x, x[r]); GroupMembers(y, x[r]); }
      if y[r] > 0 { GroupMembers(x, y[r]); GroupMembers(y, y[r]); }
    }
  }

  lemma SameGroupsSameBag(x: multiset<int>, y: multiset<int>)
    requires FiveRanks(x) && FiveRanks(y) && Group(x, 5) == [] && Group(y, 5) == []
    requires |Group(x, 4)| == |Group(y, 4)| && |Group(x, 3)| == |Group(y, 3)|
    requires |Group(x, 2)| == |Group(y, 2)| && |Group(x, 1)| == |Group(y, 1)|
    requires ByGroups(x) == ByGroups(y)
    ensures x == y
  {
    SplitFour(Group(x, 4), Group(x, 3), Group(x, 2), Group(x, 1), Group(y, 4), Group(y, 3), Group(y, 2), Group(y, 1));
    GroupsDetermineBag(x, y);
  }

  /** Outside FLUSH, category and key together determine the ranks of the hand. */
  lemma KeyDeterminesRanks(x: multiset<int>, xFlush: bool, y: multiset<int>, yFlush: bool)
    requires FiveRanks(x) && FiveRanks(y)
    requires Category(x, xFlush) == Category(y, yFlush) != Flush
    requires Key(x, Category(x, xFlush)) == Key(y, Category(y, yFlush))
    ensures x == y
  {
    var c := Category(x, xFlush);
    CategoryShowsRun(x, xFlush);
    CategoryShowsRun(y, yFlush);
    hide Category, IsRun, RunTo, Group, Layout;
    if Grouped(c) {
      GroupedShape(x, xFlush);
      GroupedShape(y, yFlush);
      SameGroupsSameBag(x, y);
    } else if c.HighCard? {
      LayoutBag(x);
      LayoutBag(y);
    } else if c.RoyalFlush? {
      RunTopDeterminesRanks(x, y, 12);
    } else {
      assert [RunTop(x)] == [RunTop(y)];
      RunTopDeterminesRanks(x, y, RunTop(x));
    }
  }

  lemma CategoryShowsRun(bag: multiset<int>, flush: bool)
    ensures Category(bag, flush) == Straight || Category(bag, flush) == StraightFlush ==>
      IsRun(bag) && RunTo(bag, RunTop(bag))
    ensures Category(bag, flush) == RoyalFlush ==> RunTo(bag, 12)
  {
  }

  lemma RunTopDeterminesRanks(x: multiset<int>, y: multiset<int>, top: int)
    requires FiveRanks(x) && FiveRanks(y) && RunTo(x, top) && RunTo(y, top)
    ensures x == y
  {
    SortedRanks(x);
    SortedRanks(y);
    RunLayout(Layout(x, 12), top);
    RunLayout(Layout(y, 12), top);
  }

  ghost predicate IsTopRank(bag: multiset<int>, top: int) {
    top in bag && forall r :: r in bag ==> r <= top
  }

  /** In FLUSH the key is the top card and nothing else. */
  lemma FlushKeyIsTopCard(bag: multiset<int>, top: int)
    requires FiveRanks(bag)
    ensures Key(bag, Flush) == [top] <==> IsTopRank(bag, top)
  {
    var sorted := Layout(bag, 12);
    SortedRanks(bag);
    assert Key(bag, Flush) == [sorted[0]];
    assert sorted[0] in multiset(sorted);
    assert forall r :: r in bag ==> r in sorted;
  }

  lemma DescendingKey(sorted: seq<int>)
    requires Descending(sorted) && |sorted| == 5
    requires forall r :: r in sorted ==> 0 <= r < 13
    ensures FiveRanks(multiset(sorted))
    ensures Layout(multiset(sorted), 12) == sorted
  {
    assert |multiset(sorted)| == |sorted|;
    assert forall r :: r in multiset(sorted) ==> r in sorted;
    SortedRanks(multiset(sorted));
    DescendingUnique(Layout(multiset(sorted), 12), sorted);
  }

  // ---------- Comparing two five-card hands ----------

  ghost function CategoryOf(cards: seq<CardValue>): HandRank {
    Category(multiset(Ranks(cards)), HasFlush(cards))
  }

  ghost function KeyOf(cards: seq<CardValue>): seq<int> {
    Key(multiset(Ranks(cards)), CategoryOf(cards))
  }

  /** The difference at the first place where the keys differ; 0 when one runs out first. */
  function LexDifference(a: seq<int>, b: seq<int>): int {
    if a == [] || b == [] then 0
    else if a[0] != b[0] then a[0] - b[0]
    else LexDifference(a[1..], b[1..])
  }

  /** What `LexDifference` returns, on the places of the keys: the first difference, if both reach it. */
  lemma {:induction false} FirstDifference(a: seq<int>, b: seq<int>)
    ensures
      || (exists k :: 0 <= k < |a| && k < |b| && a[..k] == b[..k] && a[k] != b[k] && LexDifference(a, b) == a[k] - b[k])
      || ((a <= b || b <= a) && LexDifference(a, b) == 0)
    decreases |a|
  {
    if a != [] && b != [] {
      if a[0] != b[0] {
        assert a[..0] == b[..0];
      } else {
        FirstDifference(a[1..], b[1..]);
        assert a == [a[0]] + a[1..] && b == [b[0]] + b[1..];
        if k :| 0 <= k < |a[1..]| && k < |b[1..]| && a[1..][..k] == b[1..][..k] && a[1..][k] != b[1..][k]
                && LexDifference(a[1..], b[1..]) == a[1..][k] - b[1..][k] {
          assert a[..k + 1] == [a[0]] + a[1..][..k] && b[..k + 1] == [b[0]] + b[1..][..k];
          assert a[k + 1] == a[1..][k] && b[k + 1] == b[1..][k];
        }
      }
    }
  }

  ghost function FaceOff(a: seq<CardValue>, b: seq<CardValue>): int {
    if CategoryOf(a) != CategoryOf(b) then CategoryOf(a).Level() - CategoryOf(b).Level()
    else LexDifference(KeyOf(a), KeyOf(b))
  }

  lemma {:induction false} LexOrder(a: seq<int>, b: seq<int>, c: seq<int>)
    requires |a| == |b| == |c|
    ensures LexDifference(a, b) == -LexDifference(b, a)
    ensures LexDifference(a, b) == 0 <==> a == b
    ensures LexDifference(a, b) >= 0 && LexDifference(b, c) >= 0 ==> LexDifference(a, c) >= 0
    ensures LexDifference(a, b) > 0 && LexDifference(b, c) >= 0 ==> LexDifference(a, c) > 0
    ensures LexDifference(a, b) >= 0 && LexDifference(b, c) > 0 ==> LexDifference(a, c) > 0
    decreases |a|
  {
    if a != [] {
      LexOrder(a[1..], b[1..], c[1..]);
      if LexDifference(a, b) == 0 { assert a == [a[0]] + a[1..] && b == [b[0]] + b[1..]; }
    }
  }

  /** Five-card comparison is antisymmetric and sign-transitive, and a tie means one category and one key. */
  lemma FaceOffOrder(a: seq<CardValue>, b: seq<CardValue>, c: seq<CardValue>)
    requires |a| == |b| == |c| == 5
    ensures FaceOff(a, b) == -FaceOff(b, a)
    ensures FaceOff(a, b) == 0 <==> CategoryOf(a) == CategoryOf(b) && KeyOf(a) == KeyOf(b)
    ensures FaceOff(a, b) >= 0 && FaceOff(b, c) >= 0 ==> FaceOff(a, c) >= 0
    ensures FaceOff(a, b) > 0 && FaceOff(b, c) >= 0 ==> FaceOff(a, c) > 0
    ensures FaceOff(a, b) >= 0 && FaceOff(b, c) > 0 ==> FaceOff(a, c) > 0
  {
    forall x | x in [a, b, c] ensures |KeyOf(x)| == KeyLength(CategoryOf(x)) {
      RanksAreFive(x);
      KeyHasCategoryLength(multiset(Ranks(x)), HasFlush(x));
    }
    assert a in [a, b, c] && b in [a, b, c] && c in [a, b, c];
    if CategoryOf(a) == CategoryOf(b) == CategoryOf(c) {
      LexOrder(KeyOf(a), KeyOf(b), KeyOf(c));
    } else if CategoryOf(a) == CategoryOf(b) {
      LexOrder(KeyOf(a), KeyOf(b), KeyOf(a));
    }
    LevelInjective(CategoryOf(a), CategoryOf(b));
    LevelInjective(CategoryOf(b), CategoryOf(c));
    LevelInjective(CategoryOf(a), CategoryOf(c));
  }

  function Suited(ranks: seq<Rank>, suit: Suit): (cards: seq<CardValue>)
    ensures |cards| == |ranks| && Ranks(cards) == ranks && Suits(cards) == seq(|ranks|, _ => suit)
  {
    seq(|ranks|, i requires 0 <= i < |ranks| => CardValue(ranks[i], suit))
  }

  lemma WinOverWinner(a: seq<CardValue>, b: seq<CardValue>, c: seq<CardValue>)
    requires |a| == |b| == |c| == 5
    requires FaceOff(a, b) > 0 && FaceOff(b, c) >= 0
    ensures FaceOff(a, c) > 0
  {
    FaceOffOrder(a, b, c);
  }

  lemma TieWithSelf(a: seq<CardValue>)
    requires |a| == 5
    ensures FaceOff(a, a) == 0
  {
    FaceOffOrder(a, a, a);
  }

  lemma LoserReversed(a: seq<CardValue>, b: seq<CardValue>)
    requires |a| == |b| == 5
    ensures FaceOff(a, b) == -FaceOff(b, a)
  {
    FaceOffOrder(a, b, a);
  }

  lemma SuitedIsFlush(ranks: seq<Rank>, suit: Suit)
    requires |ranks| == 5 && StrictlyDescending(ranks)
    requires ranks[0] - ranks[4] > 4 && ranks[4] > 0
    ensures CategoryOf(Suited(ranks, suit)) == Flush && KeyOf(Suited(ranks, suit)) == [ranks[0]]
  {
    var cards := Suited(ranks, suit);
    var bag := multiset(ranks);
    assert Descending(ranks);
    DescendingKey(ranks);
    FlushKeyIsTopCard(bag, ranks[0]);
    assert HasFlush(cards) by { RepeatBag(suit, 5); assert multiset(Suits(cards))[suit] == 5; }
    assert !IsRun(bag) by { NoWideRun(ranks); }
    assert Group(bag, 4) == [] && Group(bag, 3) == [] by {
      forall r ensures bag[r] <= 1 { StrictlyDescendingCountsOne(ranks, r); }
      HasGroup(bag, 4);
      HasGroup(bag, 3);
    }
  }

  lemma NoWideRun(sorted: seq<int>)
    requires |sorted| == 5 && Descending(sorted) && forall r :: r in sorted ==> 0 <= r < 13
    requires sorted[4] + 4 < sorted[0] && sorted[4] > 0
    ensures !IsRun(multiset(sorted))
  {
  }

  /** The exception is real: two flushes with one key that differ in four kickers. */
  lemma FlushKeyLosesKickers(suit: Suit) returns (a: seq<CardValue>, b: seq<CardValue>)
    ensures |a| == |b| == 5 && CategoryOf(a) == CategoryOf(b) == Flush
    ensures KeyOf(a) == KeyOf(b) && multiset(Ranks(a)) != multiset(Ranks(b))
  {
    a, b := TieOnTop([12, 9, 7, 5, 3], [12, 8, 6, 4, 2], suit);
  }

  lemma TieOnTop(x: seq<Rank>, y: seq<Rank>, suit: Suit) returns (a: seq<CardValue>, b: seq<CardValue>)
    requires |x| == |y| == 5 && StrictlyDescending(x) && StrictlyDescending(y)
    requires x[0] == y[0] && x != y
    requires x[0] - x[4] > 4 && x[4] > 0 && y[0] - y[4] > 4 && y[4] > 0
    ensures |a| == |b| == 5 && CategoryOf(a) == CategoryOf(b) == Flush
    ensures KeyOf(a) == KeyOf(b) && multiset(Ranks(a)) != multiset(Ranks(b))
  {
    a, b := Suited(x, suit), Suited(y, suit);
    SuitedIsFlush(x, suit);
    SuitedIsFlush(y, suit);
    DifferentLayouts(x, y);
  }

  lemma DifferentLayouts(a: seq<int>, b: seq<int>)
    requires Descending(a) && Descending(b) && a != b
    ensures multiset(a) != multiset(b)
  {
    if multiset(a) == multiset(b) { DescendingUnique(a, b); }
  }

  /** Category and key depend on which cards there are, not on their order. */
  lemma CardOrderIrrelevant(a: seq<CardValue>, b: seq<CardValue>)
    requires multiset(a) == multiset(b)
    ensures CategoryOf(a) == CategoryOf(b) && KeyOf(a) == KeyOf(b)
  {
    MapSameBag(RankOfValue, a, b);
    MapSameBag(SuitOfValue, a, b);
  }
}
