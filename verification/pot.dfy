/** Paying the pots out to the winners' stacks. */
module Pot {
  import opened Bags
  import opened Players
  import opened SidePots
  import opened Payouts
  import opened Hands

  ghost function Paid(winners: seq<Player?>): set<Player> {
    set p: Player | p in winners
  }

  method AwardPot(player: Player?, amount: int)
    modifies (if player == null then {} else {player})`stack
    ensures player != null ==> player.stack == old(player.stack) + if amount > 0 then amount else 0
  {
    if player != null && amount > 0 { player.stack := player.stack + amount; }
  }

  /** One pot split among its takers; a null taker's share goes nowhere. */
  method SplitPot(takers: seq<Player?>, amount: int)
    requires takers != []
    modifies Paid(takers)`stack
    ensures forall p: Player :: p in takers ==> p.stack == old(p.stack) + Credit(amount, takers, |takers|, p)
  {
    var share := Quotient(amount, |takers|);
    var remainder := Remainder(amount, |takers|);
    for i := 0 to |takers|
      invariant forall p: Player :: p in takers ==> p.stack == old(p.stack) + Credit(amount, takers, i, p)
    {
      var award := share + if remainder < 0 || i < remainder then 1 else 0;
      if award > 0 { AwardPot(takers[i], award); }
    }
  }

  method FilterWinners(winners: seq<Player?>, eligible: seq<Player?>) returns (takers: seq<Player?>)
    ensures takers == EligibleWinners(winners, eligible)
  {
    takers := [];
    for i := 0 to |winners|
      invariant takers == EligibleWinners(winners[..i], eligible)
    {
      assert winners[..i + 1][..i] == winners[..i];
      if winners[i] in eligible { takers := takers + [winners[i]]; }
    }
    assert winners[..|winners|] == winners;
  }

  /** The side pots after the first `k` have been dealt with: those paid out hold nothing. */
  ghost function Processed(pots: seq<SidePot<Player?>>, winners: seq<Player?>, k: nat): (r: seq<SidePot<Player?>>)
    ensures |r| == |pots|
  {
    seq(|pots|, i requires 0 <= i < |pots| =>
      if i < k && Settles(winners, pots[i]) then pots[i].(amount := 0) else pots[i])
  }

  function WithChips<T>(pots: seq<SidePot<T>>): (r: seq<SidePot<T>>) {
    if pots == [] then []
    else WithChips(pots[..|pots| - 1]) + if pots[|pots| - 1].amount == 0 then [] else [pots[|pots| - 1]]
  }

  /** Erasing the emptied pots leaves the unsettled ones. */
  lemma {:induction false} ErasedIsUnsettled(pots: seq<SidePot<Player?>>, winners: seq<Player?>, k: nat)
    requires k >= |pots|
    ensures WithChips(Processed(pots, winners, k)) == Unsettled(pots, winners)
    decreases |pots|
  {
    if pots != [] {
      var init := pots[..|pots| - 1];
      ErasedIsUnsettled(init, winners, k);
      assert Processed(pots, winners, k)[..|pots| - 1] == Processed(init, winners, k);
    }
  }

  method EraseEmpty(pots: seq<SidePot<Player?>>) returns (kept: seq<SidePot<Player?>>)
    ensures kept == WithChips(pots)
  {
    kept := [];
    for i := 0 to |pots|
      invariant kept == WithChips(pots[..i])
    {
      assert pots[..i + 1][..i] == pots[..i];
      if pots[i].amount != 0 { kept := kept + [pots[i]]; }
    }
    assert pots[..|pots|] == pots;
  }

  /** One side pot: skipped when empty or without an eligible winner, otherwise split and emptied. */
  method SettleSidePot(sidePot: SidePot<Player?>, winners: seq<Player?>) returns (after: SidePot<Player?>)
    modifies Paid(winners)`stack
    ensures forall p: Player :: p in winners ==>
      p.stack == old(p.stack) + if sidePot.amount == 0 then 0 else PotCredit(sidePot, winners, p)
    ensures after == if Settles(winners, sidePot) then sidePot.(amount := 0) else sidePot
  {
    after := sidePot;
    if sidePot.amount == 0 { return; }
    var takers := FilterWinners(winners, sidePot.eligible);
    forall p: Player? | p !in takers ensures Credit(sidePot.amount, takers, |takers|, p) == 0 {
      NoCreditForOthers(sidePot.amount, takers, |takers|, p);
    }
    if takers == [] { return; }
    SplitPot(takers, sidePot.amount);
    after := sidePot.(amount := 0);
  }

  /** The main pot, then each side pot among the winners who may take it; emptied side pots are erased. */
  method DistributePot(hand: Hand, winners: seq<Player?>)
    modifies hand`pot, hand`sidePots, Paid(winners)`stack
    ensures forall p: Player :: p in winners ==>
      p.stack == old(p.stack) + Payout(old(hand.pot), old(hand.sidePots), winners, p)
    ensures hand.pot == LeftInMain(old(hand.pot), winners)
    ensures hand.sidePots == Unsettled(old(hand.sidePots), winners)
  {
    hide Settles, PotCredit, Credit;
    ghost var pots := hand.sidePots;
    if winners != [] && hand.pot > 0 {
      SplitPot(winners, hand.pot);
      hand.pot := 0;
    }
    for k := 0 to |hand.sidePots|
      invariant hand.sidePots == Processed(pots, winners, k)
      invariant hand.pot == if winners != [] && old(hand.pot) > 0 then 0 else old(hand.pot)
      invariant forall p: Player :: p in winners ==>
        p.stack == old(p.stack) + MainCredit(old(hand.pot), winners, p) + SideCredit(pots, winners, k, p)
    {
      var settled := SettleSidePot(hand.sidePots[k], winners);
      hand.sidePots := hand.sidePots[k := settled];
    }
    ErasedIsUnsettled(pots, winners, |pots|);
    var kept := EraseEmpty(hand.sidePots);
    hand.sidePots := kept;
  }

  // ---------- All the chips ----------

  ghost function Stacks(ps: seq<Player>): (r: seq<int>)
    reads ps
    ensures |r| == |ps|
  {
    seq(|ps|, i requires 0 <= i < |ps| reads ps => ps[i].stack)
  }

  /** The chips in the stacks of `ps` and in the pots of a hand. */
  ghost function ChipsOf(hand: Hand, ps: seq<Player>): int
    reads hand, ps
  {
    Sum(Stacks(ps)) + hand.pot + Total(hand.sidePots)
  }

  /** Stacks after a distribution: the winners are paid, nobody else's stack changes. */
  ghost predicate PaidTo<T>(
      before: seq<int>, after: seq<int>, pot: int, pots: seq<SidePot<T>>, ws: seq<T>, ps: seq<T>) {
    && |before| == |after| == |ps|
    && forall i :: 0 <= i < |ps| ==> after[i] == before[i] + if ps[i] in ws then Payout(pot, pots, ws, ps[i]) else 0
  }

  lemma {:induction false} StacksGrowByPayout<T>(
    before: seq<int>, after: seq<int>, pot: int, pots: seq<SidePot<T>>, ws: seq<T>, ps: seq<T>)
    requires PaidTo(before, after, pot, pots, ws, ps)
    ensures Sum(after) == Sum(before) + PayoutOfAll(pot, pots, ws, ps)
    decreases |ps|
  {
    if ps != [] {
      hide Payout;
      var n := |ps| - 1;
      StacksGrowByPayout(before[..n], after[..n], pot, pots, ws, ps[..n]);
      PayoutIffPaid(pot, pots, ws, ps[n]);
      if ps[n] !in ws { NobodyUnnamedIsPaid(pot, pots, ws, ps[n]); }
    }
  }

  lemma NobodyUnnamedIsPaid<T>(pot: int, pots: seq<SidePot<T>>, ws: seq<T>, p: T)
    requires p !in ws
    ensures !PaidAnything(pot, pots, ws, p)
  {
  }

  /**
   * Stacks and pots after a distribution hold what they held, plus what negative pots create, less what
   * `nobody`, a winner without a stack, is credited. When no negative side pot is paid the chips are kept
   * exactly when `nobody` is paid nothing; when it is paid nothing, exactly when no negative side pot is paid.
   */
  lemma DistributionKeepsChips<T>(
    before: seq<int>, after: seq<int>, pot: int, pots: seq<SidePot<T>>, ws: seq<T>, ps: seq<T>, nobody: T)
    requires Distinct(ps) && nobody !in ps && (forall p :: p in ws ==> p in ps || p == nobody)
    requires PaidTo(before, after, pot, pots, ws, ps)
    ensures
      var chipsBefore := Sum(before) + pot + Total(pots);
      var chipsAfter := Sum(after) + LeftInMain(pot, ws) + Total(Unsettled(pots, ws));
      && chipsAfter == chipsBefore + Surplus(pots, ws, |pots|) - Payout(pot, pots, ws, nobody)
      && (NoNegativePotPaid(pots, ws) ==> (chipsAfter == chipsBefore <==> !PaidAnything(pot, pots, ws, nobody)))
      && (!PaidAnything(pot, pots, ws, nobody) ==> (chipsAfter == chipsBefore <==> NoNegativePotPaid(pots, ws)))
      && (nobody !in ws ==> (chipsAfter == chipsBefore <==> NoNegativePotPaid(pots, ws)))
  {
    hide Payout, PayoutOfAll, Surplus, PaidAnything, NoNegativePotPaid, PaidTo, Total, Unsettled, Sum;
    StacksGrowByPayout(before, after, pot, pots, ws, ps);
    PayoutToStacks(pot, pots, ws, ps, nobody);
    if nobody !in ws { NobodyUnnamedIsPaid(pot, pots, ws, nobody); }
  }

  /**
   * The distribution seen from a table whose players are `ps`, the real winners among them. Chips vanish
   * with null winners who are paid, appear with negative side pots that are, and are kept otherwise.
   */
  method DistributeAtTable(hand: Hand, winners: seq<Player?>, ghost ps: seq<Player>)
    requires Distinct(ps) && (forall p :: p in winners && p != null ==> p in ps)
    modifies hand`pot, hand`sidePots, Paid(winners)`stack
    ensures
      var pot, pots := old(hand.pot), old(hand.sidePots);
      ChipsOf(hand, ps) == old(ChipsOf(hand, ps)) + Surplus(pots, winners, |pots|) - Payout(pot, pots, winners, null)
    ensures NoNegativePotPaid(old(hand.sidePots), winners) ==>
      (ChipsOf(hand, ps) == old(ChipsOf(hand, ps)) <==> !PaidAnything(old(hand.pot), old(hand.sidePots), winners, null))
    ensures null !in winners ==>
      (ChipsOf(hand, ps) == old(ChipsOf(hand, ps)) <==> NoNegativePotPaid(old(hand.sidePots), winners))
  {
    ghost var pot, pots, before := hand.pot, hand.sidePots, Stacks(ps);
    DistributePot(hand, winners);
    hide Payout, PaidAnything, NoNegativePotPaid, Unsettled, Surplus, Sum, Total;
    DistributionKeepsChips<Player?>(before, Stacks(ps), pot, pots, winners, ps, null);
  }
}
