/** Layering all-in bets into side pots. Payees are abstract: any type with equality. */
module SidePots {
  import opened Bags

  datatype SidePot<T> = SidePot(amount: int, eligible: seq<T>)

  /** A player's total bet for the hand. */
  datatype Stake<T> = Stake(player: T, bet: int)

  function Stakes<T>(players: seq<T>, bets: seq<int>): (r: seq<Stake<T>>)
    requires |players| == |bets|
  {
    seq(|players|, i requires 0 <= i < |players| => Stake(players[i], bets[i]))
  }

  function BetOf<T>(s: Stake<T>): int { s.bet }

  function Bets<T>(stakes: seq<Stake<T>>): seq<int> {
    Map(BetOf, stakes)
  }

  /** The players whose bet reaches the threshold, in table order. */
  function EligibleAt<T>(stakes: seq<Stake<T>>, threshold: int): (r: seq<T>) {
    if stakes == [] then []
    else
      var last := stakes[|stakes| - 1];
      EligibleAt(stakes[..|stakes| - 1], threshold) + if last.bet >= threshold then [last.player] else []
  }

  ghost function Total<T>(pots: seq<SidePot<T>>): int {
    if pots == [] then 0 else Total(pots[..|pots| - 1]) + pots[|pots| - 1].amount
  }

  lemma TotalSnoc<T>(pots: seq<SidePot<T>>, pot: SidePot<T>)
    ensures Total(pots + [pot]) == Total(pots) + pot.amount
  {
  }

  lemma TotalStep<T>(pots: seq<SidePot<T>>, k: nat)
    requires 0 < k <= |pots|
    ensures Total(pots[..k]) == Total(pots[..k - 1]) + pots[k - 1].amount
  {
    assert pots[..k][..k - 1] == pots[..k - 1];
  }

  ghost predicate NonNegative<T>(stakes: seq<Stake<T>>) {
    forall i :: 0 <= i < |stakes| ==> stakes[i].bet >= 0
  }

  ghost predicate Ascending(s: seq<int>) {
    forall i, j :: 0 <= i < j < |s| ==> s[i] <= s[j]
  }

  ghost predicate StrictlyAscending(s: seq<int>) {
    forall i, j :: 0 <= i < j < |s| ==> s[i] < s[j]
  }

  /** The level below level `k`; the first level is measured from zero. */
  ghost function Below(levels: seq<int>, k: nat): int
    requires k <= |levels|
  {
    if k == 0 then 0 else levels[k - 1]
  }

  /**
   * `pots` layers the stakes: one pot per bet level, in increasing order, holding every reaching
   * player's contribution between that level and the one below, and open to exactly those players.
   * A lowest level of zero makes no pot.
   */
  ghost predicate Layered<T>(stakes: seq<Stake<T>>, levels: seq<int>, pots: seq<SidePot<T>>) {
    && |levels| == |pots|
    && StrictlyAscending(levels)
    && (forall x :: x in levels <==> x in Bets(stakes) && (x != 0 || !NonNegative(stakes)))
    && (forall k :: 0 <= k < |pots| ==> IsLayer(stakes, levels, k, pots[k]))
  }

  ghost predicate IsLayer<T>(stakes: seq<Stake<T>>, levels: seq<int>, k: nat, pot: SidePot<T>)
    requires k < |levels|
  {
    && multiset(pot.eligible) == multiset(EligibleAt(stakes, levels[k]))
    && pot.amount == (levels[k] - Below(levels, k)) * |pot.eligible|
  }

  // ---------- Permuted stakes ----------

  lemma {:induction false} EligiblePrefix<T>(a: seq<Stake<T>>, b: seq<Stake<T>>, threshold: int)
    ensures EligibleAt(a + b, threshold) == EligibleAt(a, threshold) + EligibleAt(b, threshold)
    decreases |b|
  {
    if b == [] {
      assert a + b == a;
    } else {
      assert (a + b)[..|a + b| - 1] == a + b[..|b| - 1];
      EligiblePrefix(a, b[..|b| - 1], threshold);
    }
  }

  lemma EligibleDrop<T>(s: seq<Stake<T>>, i: nat, threshold: int)
    requires i < |s|
    ensures multiset(EligibleAt(s, threshold)) == multiset(EligibleAt(Drop(s, i), threshold)) +
      multiset(EligibleAt([s[i]], threshold))
  {
    assert s == s[..i] + ([s[i]] + s[i + 1..]);
    EligiblePrefix(s[..i], [s[i]] + s[i + 1..], threshold);
    EligiblePrefix([s[i]], s[i + 1..], threshold);
    EligiblePrefix(s[..i], s[i + 1..], threshold);
  }

  /** Who is eligible does not depend on the order of the stakes. */
  lemma {:induction false} EligiblePermuted<T>(a: seq<Stake<T>>, b: seq<Stake<T>>, threshold: int)
    requires multiset(a) == multiset(b)
    ensures multiset(EligibleAt(a, threshold)) == multiset(EligibleAt(b, threshold))
    decreases |a|
  {
    if a == [] {
      assert |multiset(b)| == 0;
    } else {
      assert a[0] in multiset(b);
      var i :| 0 <= i < |b| && b[i] == a[0];
      RemoveBoth(a, b, i);
      assert Drop(a, 0) == a[1..];
      EligiblePermuted(Drop(a, 0), Drop(b, i), threshold);
      EligibleDrop(a, 0, threshold);
      EligibleDrop(b, i, threshold);
    }
  }

  lemma {:induction false} SumConcat(a: seq<int>, b: seq<int>)
    ensures Sum(a + b) == Sum(a) + Sum(b)
    decreases |b|
  {
    if b == [] {
      assert a + b == a;
    } else {
      assert (a + b)[..|a + b| - 1] == a + b[..|b| - 1];
      SumConcat(a, b[..|b| - 1]);
    }
  }

  lemma SumSnoc(a: seq<int>, x: int)
    ensures Sum(a + [x]) == Sum(a) + x
  {
  }

  lemma SumDrop(s: seq<int>, i: nat)
    requires i < |s|
    ensures Sum(s) == Sum(Drop(s, i)) + s[i]
  {
    hide Sum;
    var a, b := s[..i], s[i + 1..];
    assert s == (a + [s[i]]) + b;
    SumConcat(a + [s[i]], b);
    SumSnoc(a, s[i]);
    SumConcat(a, b);
  }

  lemma {:induction false} SumPermuted(a: seq<int>, b: seq<int>)
    requires multiset(a) == multiset(b)
    ensures Sum(a) == Sum(b)
    decreases |a|
  {
    if a == [] {
      assert |multiset(b)| == 0;
    } else {
      assert a[0] in multiset(b);
      var i :| 0 <= i < |b| && b[i] == a[0];
      RemoveBoth(a, b, i);
      assert Drop(a, 0) == a[1..];
      SumPermuted(Drop(a, 0), Drop(b, i));
      SumDrop(a, 0);
      SumDrop(b, i);
    }
  }

  /** When everyone from `i` on reaches the threshold and nobody before does, the eligible players are the tail. */
  lemma {:induction false} TailIsEligible<T>(s: seq<Stake<T>>, i: nat, threshold: int)
    requires i <= |s|
    requires forall j :: 0 <= j < i ==> s[j].bet < threshold
    requires forall j :: i <= j < |s| ==> s[j].bet >= threshold
    ensures EligibleAt(s, threshold) == PlayersOf(s[i..])
    decreases |s|
  {
    if s != [] {
      var init := s[..|s| - 1];
      if i < |s| {
        TailIsEligible(init, i, threshold);
        assert PlayersOf(s[i..]) == PlayersOf(init[i..]) + [s[|s| - 1].player];
      } else {
        TailIsEligible(init, i - 1, threshold);
      }
    }
  }

  // ---------- The computation ----------

  function Arranged<T>(stakes: seq<Stake<T>>, indices: seq<nat>): (r: seq<Stake<T>>)
    requires forall i :: 0 <= i < |indices| ==> indices[i] < |stakes|
  {
    seq(|indices|, i requires 0 <= i < |indices| => stakes[indices[i]])
  }

  /** std::sort of the positions by bet: ascending, in any order among equal bets. */
  method SortIndicesByBet<T>(stakes: seq<Stake<T>>) returns (indices: seq<nat>)
    ensures |indices| == |stakes| && forall i :: 0 <= i < |indices| ==> indices[i] < |stakes|
    ensures multiset(Arranged(stakes, indices)) == multiset(stakes)
    ensures Ascending(Bets(Arranged(stakes, indices)))
  {
    hide Ascending, Bets;
    indices := [];
    NothingSorted(stakes);
    for i := 0 to |stakes|
      invariant SortedSoFar(stakes, indices, i)
    {
      var k := 0;
      while k < |indices| && stakes[indices[k]].bet <= stakes[i].bet
        invariant 0 <= k <= |indices|
        invariant forall j :: 0 <= j < k ==> stakes[indices[j]].bet <= stakes[i].bet
      {
        k := k + 1;
      }
      InsertIndex(stakes, indices, i, k);
      indices := indices[..k] + [i] + indices[k..];
    }
    assert stakes[..|stakes|] == stakes;
  }

  ghost predicate SortedSoFar<T>(stakes: seq<Stake<T>>, indices: seq<nat>, i: nat) {
    && |indices| == i <= |stakes|
    && (forall k :: 0 <= k < |indices| ==> indices[k] < |stakes|)
    && multiset(Arranged(stakes, indices)) == multiset(stakes[..i])
    && Ascending(Bets(Arranged(stakes, indices)))
  }

  lemma NothingSorted<T>(stakes: seq<Stake<T>>)
    ensures SortedSoFar(stakes, [], 0)
  {
  }

  lemma InsertIndex<T>(stakes: seq<Stake<T>>, indices: seq<nat>, i: nat, k: nat)
    requires SortedSoFar(stakes, indices, i) && i < |stakes| && k <= |indices|
    requires forall j :: 0 <= j < k ==> stakes[indices[j]].bet <= stakes[i].bet
    requires k < |indices| ==> stakes[indices[k]].bet > stakes[i].bet
    ensures SortedSoFar(stakes, indices[..k] + [i] + indices[k..], i + 1)
  {
    hide Ascending;
    var sorted := Arranged(stakes, indices);
    var longer := indices[..k] + [i] + indices[k..];
    ArrangedInsert(stakes, indices, i, k);
    SortedInsert(sorted, k, stakes[i]);
    assert stakes[..i + 1] == stakes[..i] + [stakes[i]];
  }

  lemma SortedInsert<T>(sorted: seq<Stake<T>>, k: nat, x: Stake<T>)
    requires Ascending(Bets(sorted)) && k <= |sorted|
    requires forall j :: 0 <= j < k ==> sorted[j].bet <= x.bet
    requires k < |sorted| ==> sorted[k].bet > x.bet
    ensures multiset(sorted[..k] + [x] + sorted[k..]) == multiset(sorted) + multiset{x}
    ensures Ascending(Bets(sorted[..k] + [x] + sorted[k..]))
  {
    hide Ascending, Bets;
    assert sorted == sorted[..k] + sorted[k..];
    BetsInserted(sorted, k, x);
    InsertAscending(Bets(sorted), k, x.bet);
  }

  lemma BetsInserted<T>(sorted: seq<Stake<T>>, k: nat, x: Stake<T>)
    requires k <= |sorted|
    ensures |Bets(sorted)| == |sorted| && forall j :: 0 <= j < |sorted| ==> Bets(sorted)[j] == sorted[j].bet
    ensures Bets(sorted[..k] + [x] + sorted[k..]) == Bets(sorted)[..k] + [x.bet] + Bets(sorted)[k..]
  {
  }

  lemma ArrangedInsert<T>(stakes: seq<Stake<T>>, indices: seq<nat>, i: nat, k: nat)
    requires forall j :: 0 <= j < |indices| ==> indices[j] < |stakes|
    requires i < |stakes| && k <= |indices|
    ensures
      var longer := indices[..k] + [i] + indices[k..];
      var sorted := Arranged(stakes, indices);
      && (forall j :: 0 <= j < |longer| ==> longer[j] < |stakes|)
      && Arranged(stakes, longer) == sorted[..k] + [stakes[i]] + sorted[k..]
  {
  }

  lemma InsertAscending(s: seq<int>, k: nat, x: int)
    requires Ascending(s) && k <= |s|
    requires forall j :: 0 <= j < k ==> s[j] <= x
    requires k < |s| ==> s[k] > x
    ensures Ascending(s[..k] + [x] + s[k..])
  {
  }

  /** What holds of the pots made from the first `i` of the sorted stakes. */
  ghost predicate LayeredUpTo<T>(
      stakes: seq<Stake<T>>, sorted: seq<int>, i: nat, levels: seq<int>, pots: seq<SidePot<T>>) {
    && i <= |sorted| && |levels| == |pots|
    && StrictlyAscending(levels)
    && Below(levels, |levels|) == (if i == 0 then 0 else sorted[i - 1])
    && (forall x :: x in levels <==> x in sorted[..i] && (x != 0 || sorted[0] < 0))
    && (forall k :: 0 <= k < |pots| ==> IsLayer(stakes, levels, k, pots[k]))
    && Total(pots) == Sum(sorted[..i]) + Below(levels, |levels|) * (|sorted| - i)
  }

  lemma SkipLevel<T>(stakes: seq<Stake<T>>, sorted: seq<int>, i: nat, levels: seq<int>, pots: seq<SidePot<T>>)
    requires Ascending(sorted) && i < |sorted| && LayeredUpTo(stakes, sorted, i, levels, pots)
    requires sorted[i] == Below(levels, |levels|)
    ensures LayeredUpTo(stakes, sorted, i + 1, levels, pots)
  {
    hide IsLayer, Sum, Total, Ascending;
    assert sorted[..i + 1] == sorted[..i] + [sorted[i]];
    SumSnoc(sorted[..i], sorted[i]);
    if i > 0 { assert sorted[i - 1] in sorted[..i]; }
  }

  lemma AddLevel<T>(
      stakes: seq<Stake<T>>, sorted: seq<int>, i: nat, levels: seq<int>, pots: seq<SidePot<T>>, pot: SidePot<T>)
    requires Ascending(sorted) && i < |sorted| && LayeredUpTo(stakes, sorted, i, levels, pots)
    requires sorted[i] != Below(levels, |levels|)
    requires multiset(pot.eligible) == multiset(EligibleAt(stakes, sorted[i]))
    requires |pot.eligible| == |sorted| - i
    requires pot.amount == (sorted[i] - Below(levels, |levels|)) * (|sorted| - i)
    ensures LayeredUpTo(stakes, sorted, i + 1, levels + [sorted[i]], pots + [pot])
  {
    hide EligibleAt, IsLayer, Bets, NonNegative;
    AddLevelMembers(stakes, sorted, i, levels, pots);
    AddLayer(stakes, levels, pots, sorted[i], pot);
    assert sorted[..i + 1] == sorted[..i] + [sorted[i]];
    assert sorted[..i + 1][..i] == sorted[..i];
    assert (pots + [pot])[..|pots|] == pots;
    TelescopeStep(Below(levels, |levels|), sorted[i], |sorted| - i);
  }

  lemma AddLayer<T>(stakes: seq<Stake<T>>, levels: seq<int>, pots: seq<SidePot<T>>, level: int, pot: SidePot<T>)
    requires |levels| == |pots|
    requires forall k :: 0 <= k < |pots| ==> IsLayer(stakes, levels, k, pots[k])
    requires multiset(pot.eligible) == multiset(EligibleAt(stakes, level))
    requires pot.amount == (level - Below(levels, |levels|)) * |pot.eligible|
    ensures forall k :: 0 <= k <= |pots| ==> IsLayer(stakes, levels + [level], k, (pots + [pot])[k])
  {
    hide EligibleAt;
    forall k | 0 <= k <= |pots| ensures IsLayer(stakes, levels + [level], k, (pots + [pot])[k]) {
      if k < |pots| {
        assert IsLayer(stakes, levels, k, pots[k]);
        assert Below(levels + [level], k) == Below(levels, k);
      }
    }
  }

  lemma TelescopeStep(prev: int, current: int, n: int)
    ensures prev * n + (current - prev) * n == current + current * (n - 1)
  {
  }

  lemma AddLevelMembers<T>(stakes: seq<Stake<T>>, sorted: seq<int>, i: nat, levels: seq<int>, pots: seq<SidePot<T>>)
    requires Ascending(sorted) && i < |sorted| && LayeredUpTo(stakes, sorted, i, levels, pots)
    requires sorted[i] != Below(levels, |levels|)
    ensures StrictlyAscending(levels + [sorted[i]])
    ensures forall x :: x in levels + [sorted[i]] <==> x in sorted[..i + 1] && (x != 0 || sorted[0] < 0)
  {
    assert sorted[..i + 1] == sorted[..i] + [sorted[i]];
    assert sorted[0] <= sorted[i];
    forall k | 0 <= k < |levels| ensures levels[k] < sorted[i] {
      assert levels[k] in levels;
      assert levels[|levels| - 1] == sorted[i - 1] <= sorted[i];
    }
  }

  /** The later pots list the last of those an earlier pot lists, in the same order. */
  ghost predicate Nested<T>(pots: seq<SidePot<T>>) {
    forall j, k :: 0 <= j < k < |pots| ==>
      var all, some := pots[j].eligible, pots[k].eligible;
      |some| <= |all| && some == all[|all| - |some|..]
  }

  /** Every pot lists the players of the sorted stakes from some place before `i` on. */
  ghost predicate ListTails<T>(arranged: seq<Stake<T>>, pots: seq<SidePot<T>>, i: nat) {
    && i <= |arranged|
    && (forall j :: 0 <= j < |pots| ==>
          |arranged| - i <= |pots[j].eligible| <= |arranged|
          && pots[j].eligible == PlayersOf(arranged[|arranged| - |pots[j].eligible|..]))
    && (forall j, k :: 0 <= j < k < |pots| ==> |pots[k].eligible| <= |pots[j].eligible|)
  }

  lemma OneMoreTail<T>(arranged: seq<Stake<T>>, pots: seq<SidePot<T>>, i: nat, pot: SidePot<T>)
    requires ListTails(arranged, pots, i) && i < |arranged| && pot.eligible == PlayersOf(arranged[i..])
    ensures ListTails(arranged, pots + [pot], i + 1)
  {
  }

  lemma SameTails<T>(arranged: seq<Stake<T>>, pots: seq<SidePot<T>>, i: nat)
    requires ListTails(arranged, pots, i) && i < |arranged|
    ensures ListTails(arranged, pots, i + 1)
  {
  }

  lemma NoTails<T>(arranged: seq<Stake<T>>)
    ensures ListTails(arranged, [], 0)
  {
  }

  lemma TailsAreNested<T>(arranged: seq<Stake<T>>, pots: seq<SidePot<T>>, i: nat)
    requires ListTails(arranged, pots, i)
    ensures Nested(pots)
  {
  }

  method CalculateSidePots<T>(players: seq<T>, bets: seq<int>) returns (pots: seq<SidePot<T>>, ghost levels: seq<int>)
    requires |players| == |bets|
    ensures Layered(Stakes(players, bets), levels, pots)
    ensures Total(pots) == Sum(bets)
    ensures Nested(pots)
  {
    hide ListTails, EligibleAt, IsLayer, LayeredUpTo, Layered, Total, Sum, Ascending;
    pots, levels := [], [];
    ghost var stakes := Stakes(players, bets);
    assert Bets(stakes) == bets;
    if players == [] {
      NoLayers(stakes);
      return;
    }
    var indices := SortIndicesByBet(Stakes(players, bets));
    ghost var arranged := Arranged(stakes, indices);
    ghost var sorted := Bets(arranged);
    MapSameBag(BetOf, arranged, stakes);
    SumPermuted(sorted, bets);
    StartLayers(stakes, sorted);
    NoTails(arranged);

    var previousBet := 0;
    for i := 0 to |indices|
      invariant LayeredUpTo(stakes, sorted, i, levels, pots)
      invariant ListTails(arranged, pots, i)
      invariant previousBet == Below(levels, |levels|)
    {
      var currentBet := bets[indices[i]];
      if currentBet == previousBet {
        SkipLevel(stakes, sorted, i, levels, pots);
        SameTails(arranged, pots, i);
        continue;
      }
      var eligible := PlayersFrom(players, bets, indices, i);
      var pot := SidePot((currentBet - previousBet) * (|indices| - i), eligible);
      AddPot(stakes, arranged, i, levels, pots, pot);
      OneMoreTail(arranged, pots, i, pot);
      pots, levels := pots + [pot], levels + [currentBet];
      previousBet := currentBet;
    }
    FinishLayers(stakes, sorted, levels, pots);
    TailsAreNested(arranged, pots, |indices|);
  }

  lemma NoLayers<T>(stakes: seq<Stake<T>>)
    requires stakes == []
    ensures Layered(stakes, [], []) && Total<T>([]) == Sum(Bets(stakes))
  {
  }

  lemma StartLayers<T>(stakes: seq<Stake<T>>, sorted: seq<int>)
    ensures LayeredUpTo(stakes, sorted, 0, [], [])
  {
  }

  /** The players from position `i` of the sorted order on. */
  method PlayersFrom<T>(players: seq<T>, bets: seq<int>, indices: seq<nat>, i: nat) returns (eligible: seq<T>)
    requires |players| == |bets| && i <= |indices|
    requires forall k :: 0 <= k < |indices| ==> indices[k] < |players|
    ensures eligible == PlayersOf(Arranged(Stakes(players, bets), indices)[i..])
  {
    eligible := [];
    for j := i to |indices|
      invariant eligible == PlayersOf(Arranged(Stakes(players, bets), indices)[i..j])
    {
      eligible := eligible + [players[indices[j]]];
    }
  }

  function PlayersOf<T>(stakes: seq<Stake<T>>): seq<T> {
    seq(|stakes|, i requires 0 <= i < |stakes| => stakes[i].player)
  }

  /** The pot made at a new level extends the layering. */
  lemma AddPot<T>(
      stakes: seq<Stake<T>>, arranged: seq<Stake<T>>, i: nat, levels: seq<int>, pots: seq<SidePot<T>>, pot: SidePot<T>)
    requires multiset(arranged) == multiset(stakes) && Ascending(Bets(arranged))
    requires i < |arranged| && LayeredUpTo(stakes, Bets(arranged), i, levels, pots)
    requires arranged[i].bet != Below(levels, |levels|)
    requires pot == SidePot((arranged[i].bet - Below(levels, |levels|)) * (|arranged| - i), PlayersOf(arranged[i..]))
    ensures LayeredUpTo(stakes, Bets(arranged), i + 1, levels + [arranged[i].bet], pots + [pot])
  {
    hide EligibleAt, IsLayer, LayeredUpTo, Ascending, Sum, Total;
    var sorted := Bets(arranged);
    LevelIsNew(stakes, sorted, i, levels, pots);
    assert forall j :: 0 <= j < |arranged| ==> arranged[j].bet == sorted[j];
    TailIsEligible(arranged, i, sorted[i]);
    EligiblePermuted(arranged, stakes, sorted[i]);
    AddLevel(stakes, sorted, i, levels, pots, pot);
  }

  /** A bet that differs from the previous one in sorted order is above all earlier ones. */
  lemma LevelIsNew<T>(stakes: seq<Stake<T>>, sorted: seq<int>, i: nat, levels: seq<int>, pots: seq<SidePot<T>>)
    requires Ascending(sorted) && i < |sorted| && LayeredUpTo(stakes, sorted, i, levels, pots)
    requires sorted[i] != Below(levels, |levels|)
    ensures forall j :: 0 <= j < i ==> sorted[j] < sorted[i]
    ensures forall j :: i <= j < |sorted| ==> sorted[j] >= sorted[i]
  {
  }

  lemma FinishLayers<T>(stakes: seq<Stake<T>>, sorted: seq<int>, levels: seq<int>, pots: seq<SidePot<T>>)
    requires sorted != [] && Ascending(sorted) && multiset(sorted) == multiset(Bets(stakes))
    requires LayeredUpTo(stakes, sorted, |sorted|, levels, pots)
    ensures Layered(stakes, levels, pots) && Total(pots) == Sum(sorted)
  {
    assert sorted[..|sorted|] == sorted;
    forall x ensures x in sorted <==> x in Bets(stakes) {
      assert x in sorted <==> x in multiset(sorted);
      assert x in Bets(stakes) <==> x in multiset(Bets(stakes));
    }
    assert sorted[0] in Bets(stakes);
    if sorted[0] >= 0 {
      forall i | 0 <= i < |stakes| ensures stakes[i].bet >= 0 {
        assert Bets(stakes)[i] in sorted;
      }
    } else {
      var i :| 0 <= i < |stakes| && Bets(stakes)[i] == sorted[0];
      assert stakes[i].bet < 0;
    }
  }

  method GetEligiblePlayersForPot<T>(players: seq<T>, bets: seq<int>, threshold: int) returns (eligible: seq<T>)
    requires |players| == |bets|
    ensures eligible == EligibleAt(Stakes(players, bets), threshold)
  {
    eligible := [];
    ghost var stakes := Stakes(players, bets);
    for i := 0 to |players|
      invariant eligible == EligibleAt(stakes[..i], threshold)
    {
      assert stakes[..i + 1][..i] == stakes[..i];
      if bets[i] >= threshold { eligible := eligible + [players[i]]; }
    }
    assert stakes[..|players|] == stakes;
  }

  // ---------- What layering means ----------

  function Min(a: int, b: int): int { if a < b then a else b }

  /** What the players put in, counting each only up to `cap`. */
  ghost function Capped<T>(stakes: seq<Stake<T>>, cap: int): int {
    if stakes == [] then 0
    else Capped(stakes[..|stakes| - 1], cap) + Min(stakes[|stakes| - 1].bet, cap)
  }

  /** Raising the cap past a gap without bets adds the gap once for every player above it. */
  lemma {:induction false} CappedStep<T>(stakes: seq<Stake<T>>, low: int, high: int)
    requires low <= high
    requires forall i :: 0 <= i < |stakes| ==> stakes[i].bet <= low || stakes[i].bet >= high
    requires low < high
    ensures Capped(stakes, high) == Capped(stakes, low) + (high - low) * |EligibleAt(stakes, high)|
    decreases |stakes|
  {
    if stakes != [] {
      var init, last := stakes[..|stakes| - 1], stakes[|stakes| - 1];
      CappedStep(init, low, high);
      AddOneGap(high - low, |EligibleAt(init, high)|);
      assert last.bet <= low || last.bet >= high;
    }
  }

  lemma AddOneGap(gap: int, n: int)
    ensures gap * (n + 1) == gap * n + gap
  {
  }

  lemma {:induction false} CappedAtZero<T>(stakes: seq<Stake<T>>)
    requires NonNegative(stakes)
    ensures Capped(stakes, 0) == 0
    decreases |stakes|
  {
    if stakes != [] { CappedAtZero(stakes[..|stakes| - 1]); }
  }

  /** Pots are layers over a gap: no bet lies strictly between a level and the one below. */
  lemma GapIsEmpty<T>(stakes: seq<Stake<T>>, levels: seq<int>, pots: seq<SidePot<T>>, k: nat)
    requires Layered(stakes, levels, pots) && NonNegative(stakes) && k < |levels|
    ensures 0 <= Below(levels, k) < levels[k]
    ensures forall i :: 0 <= i < |stakes| ==> stakes[i].bet <= Below(levels, k) || stakes[i].bet >= levels[k]
  {
    assert levels[k] in levels && (k > 0 ==> levels[k - 1] in levels);
    forall x | x in levels ensures x > 0 { BetIsSomeones(stakes, x); }
    forall i | 0 <= i < |stakes| ensures stakes[i].bet <= Below(levels, k) || stakes[i].bet >= levels[k] {
      assert Bets(stakes)[i] == stakes[i].bet;
      if stakes[i].bet != 0 {
        assert stakes[i].bet in levels;
        var j :| 0 <= j < |levels| && levels[j] == stakes[i].bet;
      }
    }
  }

  lemma BetIsSomeones<T>(stakes: seq<Stake<T>>, x: int)
    requires x in Bets(stakes) && NonNegative(stakes)
    ensures x >= 0
  {
  }

  /** The lowest `k` pots together hold everyone's bet up to level `k`. */
  lemma {:induction false} LowestPotsHoldCapped<T>(
      stakes: seq<Stake<T>>, levels: seq<int>, pots: seq<SidePot<T>>, k: nat)
    requires Layered(stakes, levels, pots) && NonNegative(stakes) && k <= |pots|
    ensures Total(pots[..k]) == Capped(stakes, Below(levels, k))
    decreases k
  {
    hide Layered, NonNegative, EligibleAt, Capped;
    if k == 0 {
      CappedAtZero(stakes);
      assert pots[..0] == [];
    } else {
      LowestPotsHoldCapped(stakes, levels, pots, k - 1);
      TotalStep(pots, k);
      LayerAt(stakes, levels, pots, k - 1);
      GapIsEmpty(stakes, levels, pots, k - 1);
      CappedStep(stakes, Below(levels, k - 1), levels[k - 1]);
    }
  }

  /** How many levels a bet reaches. */
  ghost function Reached(levels: seq<int>, bet: int): nat {
    if levels == [] then 0 else Reached(levels[..|levels| - 1], bet) + if levels[|levels| - 1] <= bet then 1 else 0
  }

  lemma {:induction false} ReachedIsPrefix(levels: seq<int>, bet: int)
    requires StrictlyAscending(levels)
    ensures Reached(levels, bet) <= |levels|
    ensures forall k :: 0 <= k < |levels| ==> (levels[k] <= bet <==> k < Reached(levels, bet))
    decreases |levels|
  {
    if levels != [] { ReachedIsPrefix(levels[..|levels| - 1], bet); }
  }

  lemma AscendingIndices(levels: seq<int>, i: nat, j: nat)
    requires StrictlyAscending(levels) && i < |levels| && j < |levels| && levels[i] <= levels[j]
    ensures i <= j
  {
  }

  /** A player's own bet, or anyone's, is the highest level it reaches. */
  lemma ReachedIsOwnBet<T>(stakes: seq<Stake<T>>, levels: seq<int>, pots: seq<SidePot<T>>, bet: int)
    requires Layered(stakes, levels, pots) && NonNegative(stakes)
    requires bet == 0 || bet in Bets(stakes)
    ensures Reached(levels, bet) <= |levels|
    ensures Below(levels, Reached(levels, bet)) == bet
  {
    ReachedIsPrefix(levels, bet);
    var m := Reached(levels, bet);
    if bet != 0 {
      BetIsSomeones(stakes, bet);
      assert bet in levels;
      var k :| 0 <= k < |levels| && levels[k] == bet;
      assert k < m;
      AscendingIndices(levels, m - 1, k);
    } else if m > 0 {
      GapIsEmpty(stakes, levels, pots, m - 1);
    }
  }

  /** What the layering says of pot `k`: how many players it lists, how much it holds. */
  lemma LayerAt<T>(stakes: seq<Stake<T>>, levels: seq<int>, pots: seq<SidePot<T>>, k: nat)
    requires Layered(stakes, levels, pots) && k < |pots|
    ensures |levels| == |pots|
    ensures |pots[k].eligible| == |EligibleAt(stakes, levels[k])| > 0
    ensures pots[k].amount == (levels[k] - Below(levels, k)) * |pots[k].eligible|
  {
    assert levels[k] in levels;
    assert levels[k] in Bets(stakes);
    var i :| 0 <= i < |stakes| && Bets(stakes)[i] == levels[k];
    EligibleMembers(stakes, levels[k]);
    assert stakes[i].player in EligibleAt(stakes, levels[k]);
    hide EligibleAt;
    assert IsLayer(stakes, levels, k, pots[k]);
    assert |pots[k].eligible| == |multiset(pots[k].eligible)| == |multiset(EligibleAt(stakes, levels[k]))|;
  }

  /** Each pot is positive and divides evenly among its players, and its levels climb. */
  lemma PotsArePositiveAndEven<T>(stakes: seq<Stake<T>>, levels: seq<int>, pots: seq<SidePot<T>>, k: nat)
    requires Layered(stakes, levels, pots) && NonNegative(stakes) && k < |pots|
    ensures pots[k].eligible != [] && pots[k].amount > 0
    ensures pots[k].amount / |pots[k].eligible| == levels[k] - Below(levels, k)
    ensures pots[k].amount % |pots[k].eligible| == 0
  {
    hide Layered, NonNegative, EligibleAt;
    LayerAt(stakes, levels, pots, k);
    GapIsEmpty(stakes, levels, pots, k);
    DivModUnique(pots[k].amount, |pots[k].eligible|, levels[k] - Below(levels, k), 0);
  }

  lemma DivModUnique(x: int, n: int, q: int, r: int)
    requires n > 0 && x == q * n + r && 0 <= r < n
    ensures x / n == q && x % n == r
  {
    var d := q - x / n;
    assert d * n == q * n - x / n * n;
    assert d * n == x % n - r;
    if d >= 1 { MulAtLeast(d, n); }
    if d <= -1 { MulAtLeast(-d, n); }
  }

  lemma MulAtLeast(d: int, n: int)
    requires d >= 1 && n > 0
    ensures d * n >= n
  {
  }

  lemma {:induction false} EligibleMembers<T>(stakes: seq<Stake<T>>, threshold: int)
    ensures forall p :: p in EligibleAt(stakes, threshold) <==>
      exists i :: 0 <= i < |stakes| && stakes[i].player == p && stakes[i].bet >= threshold
    decreases |stakes|
  {
    if stakes != [] {
      var init := stakes[..|stakes| - 1];
      EligibleMembers(init, threshold);
      forall p ensures p in EligibleAt(stakes, threshold) <==>
        exists i :: 0 <= i < |stakes| && stakes[i].player == p && stakes[i].bet >= threshold
      {
        if i :| 0 <= i < |stakes| && stakes[i].player == p && stakes[i].bet >= threshold {
          if i < |init| { assert init[i] == stakes[i]; }
        }
        if p in EligibleAt(init, threshold) {
          var i :| 0 <= i < |init| && init[i].player == p && init[i].bet >= threshold;
          assert stakes[i] == init[i];
        }
      }
    }
  }

  ghost predicate DistinctPlayers<T>(stakes: seq<Stake<T>>) {
    forall i, j :: 0 <= i < j < |stakes| ==> stakes[i].player != stakes[j].player
  }

  /**
   * With distinct players, a player is in exactly the pots whose level the player's bet reaches: the sets are
   * nested.
   */
  lemma InPotIffReached<T>(stakes: seq<Stake<T>>, levels: seq<int>, pots: seq<SidePot<T>>, w: nat, k: nat)
    requires Layered(stakes, levels, pots) && DistinctPlayers(stakes) && w < |stakes| && k < |pots|
    ensures stakes[w].player in pots[k].eligible <==> levels[k] <= stakes[w].bet
    ensures stakes[w].player in pots[k].eligible <==> k < Reached(levels, stakes[w].bet)
  {
    ReachedIsPrefix(levels, stakes[w].bet);
    assert IsLayer(stakes, levels, k, pots[k]);
    EligibleMembers(stakes, levels[k]);
    var reaching := EligibleAt(stakes, levels[k]);
    assert stakes[w].player in pots[k].eligible <==> stakes[w].player in multiset(pots[k].eligible);
    assert stakes[w].player in multiset(reaching) <==> stakes[w].player in reaching;
    if stakes[w].player in reaching {
      var i :| 0 <= i < |stakes| && stakes[i].player == stakes[w].player && stakes[i].bet >= levels[k];
      assert i == w;
    }
  }

  /** An even share of a pot. */
  function EvenShare<T>(pot: SidePot<T>): int {
    if pot.eligible == [] then 0 else pot.amount / |pot.eligible|
  }

  /** A player's even shares of those of the first `m` pots the player is in. */
  ghost function EvenShares<T>(pots: seq<SidePot<T>>, p: T, m: nat): int
    requires m <= |pots|
  {
    if m == 0 then 0
    else EvenShares(pots, p, m - 1) + if p in pots[m - 1].eligible then EvenShare(pots[m - 1]) else 0
  }

  /** Shares equal to the gaps between levels add up to the last level counted. */
  lemma {:induction false} EvenSharesTelescope<T>(levels: seq<int>, pots: seq<SidePot<T>>, p: T, m: nat, r: nat)
    requires m <= |pots| == |levels|
    requires forall k :: 0 <= k < |pots| ==> (p in pots[k].eligible <==> k < r)
    requires forall k :: 0 <= k < |pots| ==> EvenShare(pots[k]) == levels[k] - Below(levels, k)
    ensures EvenShares(pots, p, m) == Below(levels, Min(m, r))
    decreases m
  {
    hide EvenShare;
    if m > 0 {
      EvenSharesTelescope(levels, pots, p, m - 1, r);
      var pot := pots[m - 1];
      assert p in pot.eligible <==> m - 1 < r;
      assert EvenShares(pots, p, m) ==
        EvenShares(pots, p, m - 1) + if p in pot.eligible then EvenShare(pot) else 0;
    }
  }

  /** Even shares give back exactly what each player bet. */
  lemma EvenSharesReturnBet<T>(stakes: seq<Stake<T>>, levels: seq<int>, pots: seq<SidePot<T>>, w: nat)
    requires Layered(stakes, levels, pots) && NonNegative(stakes) && DistinctPlayers(stakes) && w < |stakes|
    ensures EvenShares(pots, stakes[w].player, |pots|) == stakes[w].bet
  {
    hide NonNegative, DistinctPlayers, Reached, IsLayer, EligibleAt;
    var r := Reached(levels, stakes[w].bet);
    forall k | 0 <= k < |pots|
      ensures stakes[w].player in pots[k].eligible <==> k < r
      ensures EvenShare(pots[k]) == levels[k] - Below(levels, k)
    {
      PotsArePositiveAndEven(stakes, levels, pots, k);
      InPotIffReached(stakes, levels, pots, w, k);
    }
    ReachedIsPrefix(levels, stakes[w].bet);
    EvenSharesTelescope(levels, pots, stakes[w].player, |pots|, r);
    assert Bets(stakes)[w] == stakes[w].bet;
    ReachedIsOwnBet(stakes, levels, pots, stakes[w].bet);
  }
}
