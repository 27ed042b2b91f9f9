/** The evaluator on five cards: sorting, counting, classification and the comparison key. */
module HandRanking {
  import opened Bags
  import opened Cards
  import opened HandCategories

  /** Thrown std::invalid_argument becomes a result. */
  datatype Result<+T> = Ok(value: T) | InvalidArgument {
    predicate IsFailure() { InvalidArgument? }
    function PropagateFailure<U>(): Result<U> requires InvalidArgument? { InvalidArgument }
    function Extract(): T requires Ok? { value }
  }

  ghost function CardValues(cards: seq<Card>): seq<CardValue> {
    Map(ValueOf, cards)
  }

  method ToCardValues(cards: seq<Card>) returns (values: seq<CardValue>)
    ensures values == CardValues(cards)
  {
    values := [];
    for i := 0 to |cards|
      invariant values == CardValues(cards[..i])
    {
      values := values + [ValueOf(cards[i])];
    }
    assert cards[..|cards|] == cards;
  }

  /** std::sort over reverse iterators. */
  method SortDescending(a: seq<int>) returns (s: seq<int>)
    ensures Descending(s) && multiset(s) == multiset(a)
  {
    s := [];
    for i := 0 to |a|
      invariant Descending(s) && multiset(s) == multiset(a[..i])
    {
      var k := 0;
      while k < |s| && s[k] >= a[i]
        invariant 0 <= k <= |s| && forall j :: 0 <= j < k ==> s[j] >= a[i]
      {
        k := k + 1;
      }
      InsertDescending(s, k, a[i]);
      assert a[..i + 1] == a[..i] + [a[i]];
      s := s[..k] + [a[i]] + s[k..];
    }
    assert a[..|a|] == a;
  }

  lemma InsertDescending(s: seq<int>, k: nat, x: int)
    requires Descending(s) && k <= |s|
    requires forall j :: 0 <= j < k ==> s[j] >= x
    requires k < |s| ==> s[k] < x
    ensures Descending(s[..k] + [x] + s[k..])
    ensures multiset(s[..k] + [x] + s[k..]) == multiset(s) + multiset{x}
  {
    assert s == s[..k] + s[k..];
  }

  /** Sorting different numbers puts them in strictly descending order. */
  lemma DistinctSorts(a: seq<int>, s: seq<int>)
    requires Distinct(a) && Descending(s) && multiset(s) == multiset(a)
    ensures StrictlyDescending(s)
    ensures forall r :: r in s <==> r in a
  {
    assert forall r :: r in s <==> r in multiset(s);
    forall i, j | 0 <= i < j < |s| ensures s[i] > s[j] {
      if s[i] == s[j] {
        DistinctCountsOne(a, s[i]);
        RepeatCountsTwo(s, i, j);
      }
    }
  }

  ghost predicate Counts(count: map<int, nat>, bag: multiset<int>) {
    && (forall r :: r in count <==> r in bag)
    && (forall r :: r in count ==> count[r] == bag[r])
  }

  /** The frequency map filled by `m[x]++`. */
  method Frequencies(values: seq<int>) returns (count: map<int, nat>)
    ensures Counts(count, multiset(values))
  {
    count := map[];
    for i := 0 to |values|
      invariant Counts(count, multiset(values[..i]))
    {
      var x := values[i];
      assert values[..i + 1] == values[..i] + [x];
      count := count[x := (if x in count then count[x] else 0) + 1];
    }
    assert values[..|values|] == values;
  }

  /** A run of five adjacent descending ranks, or the five ranks of the wheel, anywhere in the list. */
  method IsStraight(ranks: seq<int>) returns (straight: bool)
    ensures straight <==>
      (|ranks| >= 5 && ((exists i :: 0 <= i <= |ranks| - 5 && AdjacentRun(ranks, i)) || HasWheel(ranks)))
  {
    if |ranks| < 5 { return false; }
    for i := 0 to |ranks| - 4
      invariant forall k :: 0 <= k < i ==> !AdjacentRun(ranks, k)
    {
      straight := true;
      var j := 0;
      while j < 4
        invariant 0 <= j <= 4 && straight
        invariant forall k :: i <= k < i + j ==> StepsDown(ranks, k)
      {
        if ranks[i + j] != ranks[i + j + 1] + 1 {
          straight := false;
          assert !StepsDown(ranks, i + j);
          break;
        }
        j := j + 1;
      }
      if straight {
        assert AdjacentRun(ranks, i);
        return true;
      }
    }
    return HasWheel(ranks);
  }

  predicate StepsDown(ranks: seq<int>, k: int)
    requires 0 <= k < |ranks| - 1
  {
    ranks[k] == ranks[k + 1] + 1
  }

  ghost predicate AdjacentRun(ranks: seq<int>, i: int)
    requires 0 <= i <= |ranks| - 5
  {
    forall k :: i <= k < i + 4 ==> StepsDown(ranks, k)
  }

  predicate HasWheel(ranks: seq<int>) {
    ACE in ranks && 0 in ranks && 1 in ranks && 2 in ranks && 3 in ranks
  }

  /** On five sorted ranks the test recognises exactly the straights. */
  lemma StraightTest(sorted: seq<int>)
    requires |sorted| == 5 && Descending(sorted) && forall r :: r in sorted ==> 0 <= r < 13
    ensures IsRun(multiset(sorted)) <==> AdjacentRun(sorted, 0) || HasWheel(sorted)
    ensures RunTo(multiset(sorted), ACE) <==> IsRun(multiset(sorted)) && sorted[0] == 12 && sorted[4] == 8
  {
    hide RunTo, HasWheel, AdjacentRun, Descending;
    RunLayout(sorted, ACE);
    assert RunRanks(ACE) == [12, 11, 10, 9, 8];
    if IsRun(multiset(sorted)) {
      RunIsRecognised(sorted, RunTop(multiset(sorted)));
    }
    if AdjacentRun(sorted, 0) {
      AdjacentIsRun(sorted);
    }
    if HasWheel(sorted) { WheelIsRun(sorted); }
  }

  lemma WheelIsRun(ranks: seq<int>)
    requires HasWheel(ranks)
    ensures RunTo(multiset(ranks), 3)
  {
  }

  lemma RunIsRecognised(sorted: seq<int>, top: int)
    requires |sorted| == 5 && Descending(sorted) && forall r :: r in sorted ==> 0 <= r < 13
    requires RunTo(multiset(sorted), top)
    ensures AdjacentRun(sorted, 0) || HasWheel(sorted)
    ensures sorted[0] == 12 && sorted[4] == 8 ==> RunTo(multiset(sorted), ACE)
  {
    RunLayout(sorted, top);
    RunShapeIsRecognised(sorted, top);
  }

  lemma RunShapeIsRecognised(sorted: seq<int>, top: int)
    requires 3 <= top <= 12 && sorted == RunRanks(top)
    ensures AdjacentRun(sorted, 0) || HasWheel(sorted)
    ensures sorted[0] == 12 && sorted[4] == 8 ==> top == 12
  {
  }

  lemma AdjacentIsRun(sorted: seq<int>)
    requires |sorted| == 5 && Descending(sorted) && forall r :: r in sorted ==> 0 <= r < 13
    requires AdjacentRun(sorted, 0)
    ensures RunTo(multiset(sorted), sorted[0])
  {
    assert StepsDown(sorted, 0) && StepsDown(sorted, 1) && StepsDown(sorted, 2) && StepsDown(sorted, 3);
    assert sorted[0] in sorted && sorted[4] in sorted;
    RunLayout(sorted, sorted[0]);
  }

  method IsFlush(cards: seq<CardValue>) returns (flush: bool)
    ensures flush <==> HasFlush(cards)
  {
    if |cards| < 5 {
      if s :| multiset(Suits(cards))[s] >= 5 { CountAtMost(multiset(Suits(cards)), s); }
      return false;
    }
    var suits := [];
    for i := 0 to |cards|
      invariant suits == Suits(cards[..i])
    {
      suits := suits + [cards[i].suit];
    }
    assert cards[..|cards|] == cards;
    var count := Frequencies(suits);
    var todo := count.Keys;
    while todo != {}
      invariant todo <= count.Keys
      invariant forall s :: s in count && s !in todo ==> count[s] < 5
      decreases |todo|
    {
      var s := AnyOf(todo);
      if count[s] >= 5 { return true; }
      todo := todo - {s};
    }
    return false;
  }

  method RanksOf(cards: seq<CardValue>) returns (ranks: seq<int>)
    ensures ranks == Ranks(cards)
  {
    ranks := [];
    for i := 0 to |cards|
      invariant ranks == Ranks(cards[..i])
    {
      ranks := ranks + [cards[i].rank];
    }
    assert cards[..|cards|] == cards;
  }

  /** The ranks counted exactly `n` times and the others, each in the map's (arbitrary) order. */
  method SplitByCount(count: map<int, nat>, n: nat) returns (hits: seq<int>, others: seq<int>)
    ensures IsSplit(count, n, hits)
    ensures Distinct(others) && forall r :: r in others <==> r in count && count[r] != n
  {
    hits, others := [], [];
    var todo := count.Keys;
    while todo != {}
      invariant todo <= count.Keys
      invariant Distinct(hits) && forall r :: r in hits <==> r in count && r !in todo && count[r] == n
      invariant Distinct(others) && forall r :: r in others <==> r in count && r !in todo && count[r] != n
      decreases |todo|
    {
      var r := AnyOf(todo);
      if count[r] == n { hits := hits + [r]; } else { others := others + [r]; }
      todo := todo - {r};
    }
  }

  /** `hits` are the ranks counted `n` times, in some order. */
  ghost predicate IsSplit(count: map<int, nat>, n: nat, hits: seq<int>) {
    Distinct(hits) && forall r :: r in hits <==> r in count && count[r] == n
  }

  /** The ranks counted `n` times are the group of multiplicity `n`. */
  lemma SplitIsGroup(bag: multiset<int>, count: map<int, nat>, n: nat, hits: seq<int>)
    requires FiveRanks(bag) && Counts(count, bag) && n > 0 && IsSplit(count, n, hits)
    ensures forall r :: r in hits <==> r in Group(bag, n)
    ensures |hits| == |Group(bag, n)|
    ensures |hits| == 1 ==> hits == Group(bag, n)
  {
    GroupMembers(bag, n);
    forall r ensures r in hits <==> r in Group(bag, n) {
      assert r in bag <==> bag[r] > 0;
    }
    SameElementsSameLength(hits, Group(bag, n));
    if |hits| == 1 { assert hits[0] in hits; }
  }

  method EvaluateFiveCards(cards: seq<CardValue>) returns (r: Result<HandRank>)
    ensures r == if |cards| == 5 then Ok(CategoryOf(cards)) else InvalidArgument
  {
    if |cards| != 5 { return InvalidArgument; }
    var unsorted := RanksOf(cards);
    var ranks := SortDescending(unsorted);
    var rankCount := Frequencies(ranks);
    var flush := IsFlush(cards);
    var straight := IsStraight(ranks);
    StraightVerdict(cards, ranks, flush, straight);
    if flush && straight {
      if ranks[0] == 12 && ranks[4] == 8 { return Ok(RoyalFlush); }
      return Ok(StraightFlush);
    }
    var quads, _ := SplitByCount(rankCount, 4);
    var trips, _ := SplitByCount(rankCount, 3);
    var pairs, _ := SplitByCount(rankCount, 2);
    ByCounts(cards, flush, straight, rankCount, quads, trips, pairs);
    if quads != [] { r := Ok(FourOfAKind); }
    else if trips != [] && pairs != [] { r := Ok(FullHouse); }
    else if flush { r := Ok(Flush); }
    else if straight { r := Ok(Straight); }
    else if trips != [] { r := Ok(ThreeOfAKind); }
    else if |pairs| == 2 { r := Ok(TwoPair); }
    else if |pairs| == 1 { r := Ok(OnePair); }
    else { r := Ok(HighCard); }
  }

  /** The category of a hand that is not a straight flush, read off the numbers of quads, trips and pairs. */
  function DecideByCounts(flush: bool, straight: bool, quads: nat, trips: nat, pairs: nat): HandRank {
    if quads > 0 then FourOfAKind
    else if trips > 0 && pairs > 0 then FullHouse
    else if flush then Flush
    else if straight then Straight
    else if trips > 0 then ThreeOfAKind
    else if pairs == 2 then TwoPair
    else if pairs == 1 then OnePair
    else HighCard
  }

  lemma ByCounts(cards: seq<CardValue>, flush: bool, straight: bool,
                 count: map<int, nat>, quads: seq<int>, trips: seq<int>, pairs: seq<int>)
    requires |cards| == 5 && Counts(count, multiset(Ranks(cards)))
    requires flush == HasFlush(cards) && straight == IsRun(multiset(Ranks(cards))) && !(flush && straight)
    requires IsSplit(count, 4, quads) && IsSplit(count, 3, trips) && IsSplit(count, 2, pairs)
    ensures CategoryOf(cards) == DecideByCounts(flush, straight, |quads|, |trips|, |pairs|)
  {
    RanksAreFive(cards);
    SplitIsGroup(multiset(Ranks(cards)), count, 4, quads);
    SplitIsGroup(multiset(Ranks(cards)), count, 3, trips);
    SplitIsGroup(multiset(Ranks(cards)), count, 2, pairs);
  }

  /** What the straight and flush tests settle. */
  lemma StraightVerdict(cards: seq<CardValue>, sorted: seq<int>, flush: bool, straight: bool)
    requires |cards| == 5 && Descending(sorted) && multiset(sorted) == multiset(Ranks(cards))
    requires flush == HasFlush(cards)
    requires straight <==>
      (|sorted| >= 5 && ((exists i :: 0 <= i <= |sorted| - 5 && AdjacentRun(sorted, i)) || HasWheel(sorted)))
    ensures |sorted| == 5
    ensures straight == IsRun(multiset(Ranks(cards)))
    ensures flush && straight ==>
      CategoryOf(cards) == if sorted[0] == 12 && sorted[4] == 8 then RoyalFlush else StraightFlush
  {
    SortedFive(cards, sorted);
  }

  /** What the straight tests say about the hand, once its ranks are sorted. */
  lemma SortedFive(cards: seq<CardValue>, sorted: seq<int>)
    requires |cards| == 5 && Descending(sorted) && multiset(sorted) == multiset(Ranks(cards))
    ensures FiveRanks(multiset(Ranks(cards))) && |sorted| == 5
    ensures sorted == Layout(multiset(Ranks(cards)), 12)
    ensures IsRun(multiset(sorted)) <==>
      (exists i :: 0 <= i <= |sorted| - 5 && AdjacentRun(sorted, i)) || HasWheel(sorted)
    ensures RunTo(multiset(sorted), ACE) <==> IsRun(multiset(sorted)) && sorted[0] == 12 && sorted[4] == 8
    ensures IsRun(multiset(sorted)) ==>
      RunTop(multiset(sorted)) == if sorted[0] == 12 && sorted[4] == 0 then 3 else sorted[0]
  {
    RanksAreFive(cards);
    SortedRanks(multiset(Ranks(cards)));
    DescendingUnique(sorted, Layout(multiset(Ranks(cards)), 12));
    StraightTest(sorted);
    if IsRun(multiset(sorted)) { WheelIsLowest(sorted); }
  }

  /** The last element, or the -1 the code starts from. */
  function LastOr(s: seq<int>): int {
    if s == [] then -1 else s[|s| - 1]
  }

  predicate Leads(n: nat, c: HandRank) {
    (n == 2 && c.OnePair?) || (n == 3 && c.ThreeOfAKind?) || (n == 4 && c.FourOfAKind?)
  }

  /** The key of a pair, three or four of a kind: the repeated rank, then the other ranks downwards. */
  lemma LeaderKey(
      cards: seq<CardValue>, count: map<int, nat>, n: nat, hits: seq<int>, others: seq<int>, kickers: seq<int>)
    requires |cards| == 5 && Counts(count, multiset(Ranks(cards)))
    requires Leads(n, CategoryOf(cards))
    requires IsSplit(count, n, hits)
    requires Distinct(others) && forall r :: r in others <==> r in count && count[r] != n
    requires Descending(kickers) && multiset(kickers) == multiset(others)
    ensures KeyOf(cards) == [LastOr(hits)] + kickers
  {
    hide Category, Group, Counts, IsSplit, HasFlush;
    var bag := multiset(Ranks(cards));
    RanksAreFive(cards);
    LeaderByGroups(bag, HasFlush(cards), n);
    assert hits == Group(bag, n) by { SplitIsGroup(bag, count, n, hits); }
    assert kickers == Group(bag, 1) by { KickersAreSingles(bag, count, n, others, kickers); }
  }

  lemma LeaderByGroups(bag: multiset<int>, flush: bool, n: nat)
    requires FiveRanks(bag)
    requires Leads(n, Category(bag, flush))
    ensures |Group(bag, n)| == 1
    ensures forall k: nat :: 2 <= k <= 5 && k != n ==> Group(bag, k) == []
    ensures Key(bag, Category(bag, flush)) == Group(bag, n) + Group(bag, 1)
  {
    GroupedShape(bag, flush);
    if n == 2 { assert ByGroups(bag) == Group(bag, 2) + Group(bag, 1); }
    else if n == 3 { assert ByGroups(bag) == Group(bag, 3) + Group(bag, 1); }
    else { assert ByGroups(bag) == Group(bag, 4) + Group(bag, 1); }
  }

  lemma KickersAreSingles(bag: multiset<int>, count: map<int, nat>, n: nat, others: seq<int>, kickers: seq<int>)
    requires FiveRanks(bag) && Counts(count, bag) && 2 <= n <= 4
    requires forall k: nat :: 2 <= k <= 5 && k != n ==> Group(bag, k) == []
    requires Distinct(others) && forall r :: r in others <==> r in count && count[r] != n
    requires Descending(kickers) && multiset(kickers) == multiset(others)
    ensures kickers == Group(bag, 1)
  {
    OthersAreSingles(bag, count, n, others);
    SortedSplitIsGroup(bag, count, 1, others, kickers);
  }

  /** When only ranks counted `n` times and once exist, those not counted `n` times are counted once. */
  lemma OthersAreSingles(bag: multiset<int>, count: map<int, nat>, n: nat, others: seq<int>)
    requires FiveRanks(bag) && Counts(count, bag) && 2 <= n <= 4
    requires forall k: nat :: 2 <= k <= 5 && k != n ==> Group(bag, k) == []
    requires Distinct(others) && forall r :: r in others <==> r in count && count[r] != n
    ensures IsSplit(count, 1, others)
  {
    forall r | r in others ensures count[r] == 1 {
      CountAtMost(bag, r);
      GroupMembers(bag, count[r]);
      assert r in Group(bag, count[r]);
    }
  }

  /** Sorting the ranks counted `n` times gives the group as the key lists it. */
  lemma SortedSplitIsGroup(bag: multiset<int>, count: map<int, nat>, n: nat, hits: seq<int>, s: seq<int>)
    requires FiveRanks(bag) && Counts(count, bag) && n > 0 && IsSplit(count, n, hits)
    requires Descending(s) && multiset(s) == multiset(hits)
    ensures s == Group(bag, n)
  {
    SplitIsGroup(bag, count, n, hits);
    GroupMembers(bag, n);
    DistinctSorts(hits, s);
    StrictlyDescendingUnique(s, Group(bag, n));
  }

  lemma TwoPairKey(cards: seq<CardValue>, count: map<int, nat>, pairs: seq<int>, others: seq<int>, sorted: seq<int>)
    requires |cards| == 5 && Counts(count, multiset(Ranks(cards))) && CategoryOf(cards) == TwoPair
    requires IsSplit(count, 2, pairs)
    requires Distinct(others) && forall r :: r in others <==> r in count && count[r] != 2
    requires Descending(sorted) && multiset(sorted) == multiset(pairs)
    ensures |sorted| == 2 && KeyOf(cards) == [sorted[0], sorted[1], LastOr(others)]
  {
    var bag := multiset(Ranks(cards));
    RanksAreFive(cards);
    GroupedShape(bag, HasFlush(cards));
    SortedSplitIsGroup(bag, count, 2, pairs, sorted);
    OthersAreSingles(bag, count, 2, others);
    SplitIsGroup(bag, count, 1, others);
    assert KeyOf(cards) == Group(bag, 2) + Group(bag, 1);
  }

  lemma FullHouseKey(cards: seq<CardValue>, count: map<int, nat>, trips: seq<int>, pairs: seq<int>)
    requires |cards| == 5 && Counts(count, multiset(Ranks(cards))) && CategoryOf(cards) == FullHouse
    requires IsSplit(count, 3, trips) && IsSplit(count, 2, pairs)
    ensures KeyOf(cards) == [LastOr(trips), LastOr(pairs)]
  {
    var bag := multiset(Ranks(cards));
    RanksAreFive(cards);
    GroupedShape(bag, HasFlush(cards));
    SplitIsGroup(bag, count, 3, trips);
    SplitIsGroup(bag, count, 2, pairs);
    assert KeyOf(cards) == Group(bag, 3) + Group(bag, 2);
  }

  /** Two ranks counted twice survive the split. */
  lemma TwoPairsSplit(bag: multiset<int>, count: map<int, nat>, pairs: seq<int>, sorted: seq<int>)
    requires Counts(count, bag) && IsSplit(count, 2, pairs) && multiset(sorted) == multiset(pairs)
    requires exists p, q :: p != q && bag[p] == 2 && bag[q] == 2
    ensures |sorted| >= 2
  {
    var p, q :| p != q && bag[p] == 2 && bag[q] == 2;
    assert p in bag && q in bag;
    assert p in pairs && q in pairs;
    assert |sorted| == |multiset(sorted)| == |pairs|;
  }

  /** The keys read directly off the sorted ranks. */
  lemma SortedKey(cards: seq<CardValue>, sorted: seq<int>)
    requires |cards| == 5 && Descending(sorted) && multiset(sorted) == multiset(Ranks(cards))
    ensures |sorted| == 5
    ensures CategoryOf(cards) == HighCard ==> KeyOf(cards) == sorted
    ensures CategoryOf(cards).Straight? || CategoryOf(cards).StraightFlush? ==>
      KeyOf(cards) == [if sorted[0] == 12 && sorted[4] == 0 then 3 else sorted[0]]
    ensures CategoryOf(cards).Flush? || CategoryOf(cards).RoyalFlush? ==> KeyOf(cards) == [sorted[0]]
  {
    hide Category, Layout, RunTo, HasWheel, AdjacentRun, HasFlush, IsRun, Group, Descending;
    SortedFive(cards, sorted);
    CategoryShowsRun(multiset(Ranks(cards)), HasFlush(cards));
    assert Layout(multiset(Ranks(cards)), 12)[..1] == [sorted[0]];
  }

  predicate RunOrFlush(rank: HandRank) {
    rank.Straight? || rank.Flush? || rank.StraightFlush? || rank.RoyalFlush?
  }

  // ---------- The key under any category ----------

  /** Some rank that occurs `n` times, or the -1 the code starts from. */
  ghost predicate Counted(bag: multiset<int>, n: nat, x: int) {
    if exists r :: r in bag && bag[r] == n then x in bag && bag[x] == n else x == -1
  }

  /** Some rank that occurs another number of times, or -1. */
  ghost predicate OneOther(bag: multiset<int>, n: nat, x: int) {
    if exists r :: r in bag && bag[r] != n then x in bag && bag[x] != n else x == -1
  }

  /** The ranks that occur another number of times, each once, highest first. */
  ghost predicate Kickers(bag: multiset<int>, n: nat, s: seq<int>) {
    StrictlyDescending(s) && forall r :: r in s <==> r in bag && bag[r] != n
  }

  /** The two highest ranks that occur twice. */
  ghost predicate TopPairs(bag: multiset<int>, x: int, y: int) {
    bag[x] == 2 && bag[y] == 2 && x > y && forall r :: r in bag && bag[r] == 2 ==> r == x || r <= y
  }

  /** Five cards with an ace on top and a deuce at the bottom. */
  ghost predicate AceAndDeuce(bag: multiset<int>) {
    |bag| == 5 && IsTopRank(bag, 12) && 0 in bag && forall r :: r in bag ==> r >= 0
  }

  /** What the key of cards with these ranks is under category `c`, whether or not they make it. */
  ghost predicate KeyUnder(bag: multiset<int>, c: HandRank, key: seq<int>) {
    match c
    case HighCard => Descending(key) && multiset(key) == bag
    case OnePair => key != [] && Counted(bag, 2, key[0]) && Kickers(bag, 2, key[1..])
    case TwoPair => |key| == 3 && TopPairs(bag, key[0], key[1]) && OneOther(bag, 2, key[2])
    case ThreeOfAKind => key != [] && Counted(bag, 3, key[0]) && Kickers(bag, 3, key[1..])
    case FullHouse => |key| == 2 && Counted(bag, 3, key[0]) && Counted(bag, 2, key[1])
    case FourOfAKind => |key| == 2 && Counted(bag, 4, key[0]) && OneOther(bag, 4, key[1])
    case _ =>
      && |key| == 1
      && if (c.Straight? || c.StraightFlush?) && AceAndDeuce(bag) then key[0] == 3 else IsTopRank(bag, key[0])
  }

  lemma LastIsCounted(bag: multiset<int>, count: map<int, nat>, n: nat, hits: seq<int>)
    requires Counts(count, bag) && IsSplit(count, n, hits)
    ensures Counted(bag, n, LastOr(hits))
  {
    if hits != [] { assert LastOr(hits) in hits; }
  }

  lemma LastIsOther(bag: multiset<int>, count: map<int, nat>, n: nat, others: seq<int>)
    requires Counts(count, bag)
    requires Distinct(others) && forall r :: r in others <==> r in count && count[r] != n
    ensures OneOther(bag, n, LastOr(others))
  {
    if others != [] { assert LastOr(others) in others; }
  }

  lemma SortedOthersAreKickers(bag: multiset<int>, count: map<int, nat>, n: nat, others: seq<int>, kickers: seq<int>)
    requires Counts(count, bag)
    requires Distinct(others) && forall r :: r in others <==> r in count && count[r] != n
    requires Descending(kickers) && multiset(kickers) == multiset(others)
    ensures Kickers(bag, n, kickers)
  {
    DistinctSorts(others, kickers);
  }

  lemma SortedPairsAreTop(bag: multiset<int>, count: map<int, nat>, pairs: seq<int>, sorted: seq<int>)
    requires Counts(count, bag) && IsSplit(count, 2, pairs)
    requires Descending(sorted) && multiset(sorted) == multiset(pairs) && |sorted| >= 2
    ensures TopPairs(bag, sorted[0], sorted[1])
  {
    DistinctSorts(pairs, sorted);
    assert sorted[0] in sorted && sorted[1] in sorted;
    forall r | r in bag && bag[r] == 2 ensures r == sorted[0] || r <= sorted[1] {
      assert r in pairs;
      var i :| 0 <= i < |sorted| && sorted[i] == r;
    }
  }

  lemma SortedEnds(bag: multiset<int>, sorted: seq<int>)
    requires Descending(sorted) && multiset(sorted) == bag && sorted != []
    ensures IsTopRank(bag, sorted[0])
    ensures |sorted| == |bag|
    ensures |sorted| == 5 ==> sorted[4] in bag && forall r :: r in bag ==> r >= sorted[4]
  {
    assert forall r :: r in bag <==> r in sorted;
    assert sorted[0] in sorted;
    if |sorted| == 5 { assert sorted[4] in sorted; }
  }

  /**
   * The tie-break key. The code indexes the first rank of a straight or flush and the first two
   * pairs of a two-pair hand; called with the hand's own category it returns the key of that hand.
   */
  method GetComparisonKey(cards: seq<CardValue>, rank: HandRank) returns (key: seq<int>)
    requires RunOrFlush(rank) ==> cards != []
    requires rank.TwoPair? ==>
      exists p, q :: p != q && multiset(Ranks(cards))[p] == 2 && multiset(Ranks(cards))[q] == 2
    ensures |cards| == 5 && rank == CategoryOf(cards) ==> key == KeyOf(cards)
    ensures KeyUnder(multiset(Ranks(cards)), rank, key)
  {
    hide Category, KeyOf, CategoryOf, Counted, OneOther, Kickers, TopPairs, Counts, IsSplit;
    var unsorted := RanksOf(cards);
    var ranks := SortDescending(unsorted);
    var count := Frequencies(ranks);
    ghost var bag := multiset(Ranks(cards));
    ghost var own := |cards| == 5 && rank == CategoryOf(cards);
    match rank {
      case HighCard =>
        key := ranks;
        if own { SortedKey(cards, ranks); }

      case OnePair =>
        key := LeaderAndKickers(cards, count, 2, own);

      case TwoPair =>
        key := PairsAndKicker(cards, count, own);

      case ThreeOfAKind =>
        key := LeaderAndKickers(cards, count, 3, own);

      case FullHouse =>
        var trips, _ := SplitByCount(count, 3);
        var pairs, _ := SplitByCount(count, 2);
        key := [LastOr(trips), LastOr(pairs)];
        LastIsCounted(bag, count, 3, trips);
        LastIsCounted(bag, count, 2, pairs);
        if own { FullHouseKey(cards, count, trips, pairs); }

      case FourOfAKind =>
        var quads, others := SplitByCount(count, 4);
        key := [LastOr(quads), LastOr(others)];
        LastIsCounted(bag, count, 4, quads);
        LastIsOther(bag, count, 4, others);
        if own { QuadsKey(cards, count, quads, others); }

      case _ =>
        key := TopOrWheel(cards, ranks, rank, own);
    }
  }

  /** The two highest pairs and another rank: the key of two pairs. */
  method PairsAndKicker(cards: seq<CardValue>, count: map<int, nat>, ghost own: bool) returns (key: seq<int>)
    requires Counts(count, multiset(Ranks(cards)))
    requires exists p, q :: p != q && multiset(Ranks(cards))[p] == 2 && multiset(Ranks(cards))[q] == 2
    requires own ==> |cards| == 5 && CategoryOf(cards) == TwoPair
    ensures own ==> key == KeyOf(cards)
    ensures KeyUnder(multiset(Ranks(cards)), TwoPair, key)
  {
    hide CategoryOf, KeyOf, TopPairs, OneOther, Counts;
    var pairs, others := SplitByCount(count, 2);
    var sorted := SortDescending(pairs);
    TwoPairsSplit(multiset(Ranks(cards)), count, pairs, sorted);
    key := [sorted[0], sorted[1], LastOr(others)];
    SortedPairsAreTop(multiset(Ranks(cards)), count, pairs, sorted);
    LastIsOther(multiset(Ranks(cards)), count, 2, others);
    if own { TwoPairKey(cards, count, pairs, others, sorted); }
  }

  /** The highest rank, or the five of what looks like the wheel: the key of straights and flushes. */
  method TopOrWheel(cards: seq<CardValue>, ranks: seq<int>, rank: HandRank, ghost own: bool) returns (key: seq<int>)
    requires RunOrFlush(rank) && cards != []
    requires Descending(ranks) && multiset(ranks) == multiset(Ranks(cards))
    requires own ==> |cards| == 5 && rank == CategoryOf(cards)
    ensures own ==> key == KeyOf(cards)
    ensures KeyUnder(multiset(Ranks(cards)), rank, key)
  {
    hide CategoryOf, KeyOf, Descending;
    assert |ranks| > 0 by { assert |ranks| == |multiset(ranks)|; }
    SortedEnds(multiset(Ranks(cards)), ranks);
    var aceLow := false;
    if rank == Straight || rank == StraightFlush {
      if |ranks| == 5 && ranks[0] == 12 && ranks[4] == 0 { aceLow := true; }
    }
    key := [if aceLow then 3 else ranks[0]];
    if own { SortedKey(cards, ranks); }
  }

  /** The rank counted `n` times and the others downwards: the key of a pair and of three of a kind. */
  method LeaderAndKickers(cards: seq<CardValue>, count: map<int, nat>, n: nat, ghost own: bool) returns (key: seq<int>)
    requires Counts(count, multiset(Ranks(cards)))
    requires own ==> |cards| == 5 && Leads(n, CategoryOf(cards))
    ensures own ==> key == KeyOf(cards)
    ensures key != [] && Counted(multiset(Ranks(cards)), n, key[0]) && Kickers(multiset(Ranks(cards)), n, key[1..])
  {
    hide CategoryOf, KeyOf, Counted, Kickers, Counts;
    var hits, others := SplitByCount(count, n);
    var kickers := SortDescending(others);
    key := [LastOr(hits)] + kickers;
    assert key[1..] == kickers;
    LastIsCounted(multiset(Ranks(cards)), count, n, hits);
    SortedOthersAreKickers(multiset(Ranks(cards)), count, n, others, kickers);
    if own { LeaderKey(cards, count, n, hits, others, kickers); }
  }

  lemma QuadsKey(cards: seq<CardValue>, count: map<int, nat>, quads: seq<int>, others: seq<int>)
    requires |cards| == 5 && Counts(count, multiset(Ranks(cards))) && CategoryOf(cards) == FourOfAKind
    requires IsSplit(count, 4, quads)
    requires Distinct(others) && forall r :: r in others <==> r in count && count[r] != 4
    ensures KeyOf(cards) == [LastOr(quads), LastOr(others)]
  {
    hide Category, Key, Group, HasFlush, Ranks, Counts, FiveRanks;
    var bag := multiset(Ranks(cards));
    RanksAreFive(cards);
    GroupedShape(bag, HasFlush(cards));
    OthersAreSingles(bag, count, 4, others);
    SplitIsGroup(bag, count, 1, others);
    LeaderKey(cards, count, 4, quads, others, others);
  }
}
