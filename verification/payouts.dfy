/** Splitting pots among winners, and what layering followed by payout pays each winner. */
module Payouts {
  import opened Bags
  import opened SidePots

  // ---------- One pot ----------

  /** Integer division and remainder as C++ defines them: truncated towards zero. */
  function Quotient(a: int, n: int): int
    requires n > 0
  {
    if a >= 0 then a / n else -(-a / n)
  }

  function Remainder(a: int, n: int): int
    requires n > 0
  {
    a - Quotient(a, n) * n
  }

  /**
   * What winner `i` of `n` is awarded: the quotient, plus one chip while `i` is below the remainder.
   * A negative remainder is compared as an unsigned number, so it exceeds every index. Only positive
   * amounts are awarded.
   */
  function Share(amount: int, n: int, i: nat): (s: nat)
    requires n > 0
  {
    var r := Remainder(amount, n);
    var s := Quotient(amount, n) + if r < 0 || i < r then 1 else 0;
    if s > 0 then s else 0
  }

  ghost function SharesUpTo(amount: int, n: int, k: nat): nat
    requires n > 0
  {
    if k == 0 then 0 else SharesUpTo(amount, n, k - 1) + Share(amount, n, k - 1)
  }

  /** Shares of a pot differ by at most a chip, and the odd chips go to the earliest winners. */
  lemma SharesAreFair(amount: nat, n: int, i: nat, j: nat)
    requires i < j < n
    ensures 0 <= Share(amount, n, i) - Share(amount, n, j) <= 1
    ensures Share(amount, n, i) == amount / n + (if i < amount % n then 1 else 0)
  {
    ModIsRemainder(amount, n);
  }

  lemma ModIsRemainder(a: nat, n: int)
    requires n > 0
    ensures Quotient(a, n) == a / n >= 0
    ensures Remainder(a, n) == a % n
  {
  }

  lemma {:induction false} SharesPrefix(amount: nat, n: int, k: nat)
    requires 0 < n && k <= n
    ensures SharesUpTo(amount, n, k) == k * (amount / n) + Min(k, amount % n)
    decreases k
  {
    if k > 0 {
      SharesPrefix(amount, n, k - 1);
      ModIsRemainder(amount, n);
      assert k * (amount / n) == (k - 1) * (amount / n) + amount / n;
    }
  }

  /** The shares add up to the pot exactly when the pot is not negative. */
  lemma SharesAddUp(amount: int, n: int)
    requires n > 0
    ensures SharesUpTo(amount, n, n) == amount <==> amount >= 0
  {
    if amount >= 0 {
      SharesPrefix(amount, n, n);
      assert n * (amount / n) + amount % n == amount;
    }
  }

  // ---------- Who gets what from one pot ----------

  /** What the first `k` of the winners `ws` bring payee `p`. */
  ghost function Credit<T>(amount: int, ws: seq<T>, k: nat, p: T): nat
    requires k <= |ws|
  {
    if k == 0 then 0
    else Credit(amount, ws, k - 1, p) + if ws[k - 1] == p then Share(amount, |ws|, k - 1) else 0
  }

  lemma {:induction false} NoCreditForOthers<T>(amount: int, ws: seq<T>, k: nat, p: T)
    requires k <= |ws| && p !in ws
    ensures Credit(amount, ws, k, p) == 0
    decreases k
  {
    if k > 0 { NoCreditForOthers(amount, ws, k - 1, p); }
  }

  lemma {:induction false} CreditAtMost<T>(amount: int, ws: seq<T>, k: nat, p: T)
    requires 0 < k <= |ws|
    ensures Credit(amount, ws, k, p) <= SharesUpTo(amount, |ws|, k)
    decreases k
  {
    if k > 1 { CreditAtMost(amount, ws, k - 1, p); }
  }

  /** The winners who may take from a pot, in the order of the winners. */
  function EligibleWinners<T(==)>(ws: seq<T>, eligible: seq<T>): (r: seq<T>)
    ensures forall p :: p in r ==> p in ws && p in eligible
    ensures forall p :: p in ws && p in eligible ==> p in r
  {
    if ws == [] then []
    else
      var last := ws[|ws| - 1];
      EligibleWinners(ws[..|ws| - 1], eligible) + if last in eligible then [last] else []
  }

  ghost function PotCredit<T>(pot: SidePot<T>, ws: seq<T>, p: T): nat {
    var takers := EligibleWinners(ws, pot.eligible);
    Credit(pot.amount, takers, |takers|, p)
  }

  ghost function SideCredit<T>(pots: seq<SidePot<T>>, ws: seq<T>, k: nat, p: T): nat
    requires k <= |pots|
  {
    if k == 0 then 0
    else SideCredit(pots, ws, k - 1, p) + if pots[k - 1].amount == 0 then 0 else PotCredit(pots[k - 1], ws, p)
  }

  /** A main pot is split only when it is positive. */
  ghost function MainCredit<T>(pot: int, ws: seq<T>, p: T): nat {
    if pot > 0 then Credit(pot, ws, |ws|, p) else 0
  }

  ghost function Payout<T>(pot: int, pots: seq<SidePot<T>>, ws: seq<T>, p: T): nat {
    MainCredit(pot, ws, p) + SideCredit(pots, ws, |pots|, p)
  }

  lemma {:induction false} CreditOfOne<T>(amount: int, ws: seq<T>, i: nat, k: nat)
    requires Distinct(ws) && i < |ws| && k <= |ws|
    ensures Credit(amount, ws, k, ws[i]) == if i < k then Share(amount, |ws|, i) else 0
    decreases k
  {
    if k > 0 { CreditOfOne(amount, ws, i, k - 1); }
  }

  /** How many of the first `k` winners may take from a pot. */
  ghost function CountIn<T>(ws: seq<T>, k: nat, eligible: seq<T>): nat
    requires k <= |ws|
  {
    if k == 0 then 0 else CountIn(ws, k - 1, eligible) + if ws[k - 1] in eligible then 1 else 0
  }

  lemma {:induction false} CountInPrefix<T>(ws: seq<T>, n: nat, k: nat, eligible: seq<T>)
    requires k <= n <= |ws|
    ensures CountIn(ws[..n], k, eligible) == CountIn(ws, k, eligible)
    decreases k
  {
    if k > 0 { CountInPrefix(ws, n, k - 1, eligible); }
  }

  /** The takers stand in the winners' own order: an eligible winner comes after just the eligible ones before. */
  lemma {:induction false} TakersInOrder<T>(ws: seq<T>, eligible: seq<T>, i: nat)
    requires i < |ws| && ws[i] in eligible
    ensures
      var takers, before := EligibleWinners(ws, eligible), CountIn(ws, i, eligible);
      |takers| == CountIn(ws, |ws|, eligible) && before < |takers| && takers[before] == ws[i]
    decreases |ws|
  {
    var n := |ws| - 1;
    TakerCount(ws, eligible);
    TakerCount(ws[..n], eligible);
    CountInPrefix(ws, n, n, eligible);
    if i < n {
      TakersInOrder(ws[..n], eligible, i);
      CountInPrefix(ws, n, i, eligible);
    }
  }

  lemma {:induction false} TakerCount<T>(ws: seq<T>, eligible: seq<T>)
    ensures |EligibleWinners(ws, eligible)| == CountIn(ws, |ws|, eligible)
    decreases |ws|
  {
    if ws != [] {
      var n := |ws| - 1;
      TakerCount(ws[..n], eligible);
      CountInPrefix(ws, n, n, eligible);
    }
  }

  lemma {:induction false} TakersDiffer<T>(ws: seq<T>, eligible: seq<T>)
    requires Distinct(ws)
    ensures Distinct(EligibleWinners(ws, eligible))
    decreases |ws|
  {
    if ws != [] {
      var n := |ws| - 1;
      TakersDiffer(ws[..n], eligible);
      assert ws[n] !in ws[..n];
      assert ws[n] !in EligibleWinners(ws[..n], eligible);
    }
  }

  /** An even part, and one of the odd chips for a place below the remainder. */
  function EvenPart(amount: nat, n: nat, place: nat): nat
    requires n > 0
  {
    amount / n + if place < amount % n then 1 else 0
  }

  /** An eligible winner's part of a pot: the odd chips go to the earliest eligible winners, in the winners' order. */
  lemma OddChipsToEarliest<T>(pot: SidePot<T>, ws: seq<T>, i: nat)
    requires Distinct(ws) && i < |ws| && pot.amount >= 0
    ensures
      var m, e := CountIn(ws, |ws|, pot.eligible), CountIn(ws, i, pot.eligible);
      if ws[i] !in pot.eligible then PotCredit(pot, ws, ws[i]) == 0
      else m > 0 && PotCredit(pot, ws, ws[i]) == pot.amount / m + if e < pot.amount % m then 1 else 0
  {
    var takers := EligibleWinners(ws, pot.eligible);
    if ws[i] !in pot.eligible {
      NoCreditForOthers(pot.amount, takers, |takers|, ws[i]);
    } else {
      TakersInOrder(ws, pot.eligible, i);
      TakersDiffer(ws, pot.eligible);
      var e := CountIn(ws, i, pot.eligible);
      CreditOfOne(pot.amount, takers, e, |takers|);
      ModIsRemainder(pot.amount, |takers|);
    }
  }

  /** What winner `i` is due from the first `k` side pots, by the winners' positions alone. */
  ghost function DueFromPots<T>(pots: seq<SidePot<T>>, ws: seq<T>, i: nat, k: nat): nat
    requires i < |ws| && k <= |pots|
    requires forall j :: 0 <= j < |pots| ==> pots[j].amount >= 0
  {
    if k == 0 then 0
    else
      var pot := pots[k - 1];
      var m, e := CountIn(ws, |ws|, pot.eligible), CountIn(ws, i, pot.eligible);
      DueFromPots(pots, ws, i, k - 1) + if ws[i] in pot.eligible && m > 0 then EvenPart(pot.amount, m, e) else 0
  }

  lemma {:induction false} SideCreditIsDue<T>(pots: seq<SidePot<T>>, ws: seq<T>, i: nat, k: nat)
    requires Distinct(ws) && i < |ws| && k <= |pots|
    requires forall j :: 0 <= j < |pots| ==> pots[j].amount >= 0
    ensures SideCredit(pots, ws, k, ws[i]) == DueFromPots(pots, ws, i, k)
    decreases k
  {
    hide PotCredit, CountIn;
    if k > 0 {
      SideCreditIsDue(pots, ws, i, k - 1);
      OddChipsToEarliest(pots[k - 1], ws, i);
      if ws[i] in pots[k - 1].eligible { TakersInOrder(ws, pots[k - 1].eligible, i); }
    }
  }

  /** What each of several different winners is paid in all, from non-negative side pots and any main pot. */
  lemma PayoutByPosition<T>(pot: int, pots: seq<SidePot<T>>, ws: seq<T>, i: nat)
    requires Distinct(ws) && i < |ws|
    requires forall j :: 0 <= j < |pots| ==> pots[j].amount >= 0
    ensures Payout(pot, pots, ws, ws[i]) ==
      (if pot > 0 then EvenPart(pot, |ws|, i) else 0) + DueFromPots(pots, ws, i, |pots|)
  {
    SideCreditIsDue(pots, ws, i, |pots|);
    if pot > 0 {
      CreditOfOne(pot, ws, i, |ws|);
      ModIsRemainder(pot, |ws|);
    }
  }

  ghost predicate Settles<T>(ws: seq<T>, pot: SidePot<T>) {
    pot.amount != 0 && EligibleWinners(ws, pot.eligible) != []
  }

  /** The side pots that survive: those with chips and no eligible winner, in order. */
  function Unsettled<T(==)>(pots: seq<SidePot<T>>, ws: seq<T>): (r: seq<SidePot<T>>) {
    if pots == [] then []
    else
      var last := pots[|pots| - 1];
      Unsettled(pots[..|pots| - 1], ws) +
      if last.amount != 0 && EligibleWinners(ws, last.eligible) == [] then [last] else []
  }

  // ---------- Conservation ----------

  /** The credits of everyone in `ps`. */
  ghost function CreditOfAll<T>(amount: int, ws: seq<T>, k: nat, ps: seq<T>): nat
    requires k <= |ws|
  {
    if ps == [] then 0 else CreditOfAll(amount, ws, k, ps[..|ps| - 1]) + Credit(amount, ws, k, ps[|ps| - 1])
  }

  lemma {:induction false} CreditOfAllStep<T>(amount: int, ws: seq<T>, k: nat, ps: seq<T>)
    requires 0 < k <= |ws| && Distinct(ps)
    ensures CreditOfAll(amount, ws, k, ps) ==
            CreditOfAll(amount, ws, k - 1, ps) + if ws[k - 1] in ps then Share(amount, |ws|, k - 1) else 0
    decreases |ps|
  {
    if ps != [] {
      var init, last := ps[..|ps| - 1], ps[|ps| - 1];
      CreditOfAllStep(amount, ws, k, init);
      assert ps == init + [last];
      assert last !in init;
    }
  }

  /** If everyone paid is among `ps`, the credits of `ps` are all the shares. */
  lemma {:induction false} CreditsAreShares<T>(amount: int, ws: seq<T>, k: nat, ps: seq<T>)
    requires 0 < |ws| && k <= |ws| && Distinct(ps)
    requires forall p :: p in ws ==> p in ps
    ensures CreditOfAll(amount, ws, k, ps) == SharesUpTo(amount, |ws|, k)
    decreases k
  {
    if k == 0 {
      NothingCredited(amount, ws, ps);
    } else {
      CreditsAreShares(amount, ws, k - 1, ps);
      CreditOfAllStep(amount, ws, k, ps);
    }
  }

  lemma {:induction false} NothingCredited<T>(amount: int, ws: seq<T>, ps: seq<T>)
    ensures CreditOfAll(amount, ws, 0, ps) == 0
    decreases |ps|
  {
    if ps != [] { NothingCredited(amount, ws, ps[..|ps| - 1]); }
  }

  ghost function PayoutOfAll<T>(pot: int, pots: seq<SidePot<T>>, ws: seq<T>, ps: seq<T>): nat {
    if ps == [] then 0 else PayoutOfAll(pot, pots, ws, ps[..|ps| - 1]) + Payout(pot, pots, ws, ps[|ps| - 1])
  }

  /** What the first `k` side pots credit to everyone in `ps`. */
  ghost function SideCreditOfAll<T>(pots: seq<SidePot<T>>, ws: seq<T>, k: nat, ps: seq<T>): nat
    requires k <= |pots|
  {
    if ps == [] then 0 else SideCreditOfAll(pots, ws, k, ps[..|ps| - 1]) + SideCredit(pots, ws, k, ps[|ps| - 1])
  }

  lemma {:induction false} SideCreditOfAllStep<T>(pots: seq<SidePot<T>>, ws: seq<T>, k: nat, ps: seq<T>)
    requires 0 < k <= |pots|
    ensures
      var takers := EligibleWinners(ws, pots[k - 1].eligible);
      SideCreditOfAll(pots, ws, k, ps) ==
      SideCreditOfAll(pots, ws, k - 1, ps) +
      if pots[k - 1].amount == 0 then 0 else CreditOfAll(pots[k - 1].amount, takers, |takers|, ps)
    decreases |ps|
  {
    if ps != [] { SideCreditOfAllStep(pots, ws, k, ps[..|ps| - 1]); }
  }

  lemma {:induction false} PayoutSplits<T>(pot: int, pots: seq<SidePot<T>>, ws: seq<T>, ps: seq<T>)
    ensures PayoutOfAll(pot, pots, ws, ps) ==
            (if pot > 0 then CreditOfAll(pot, ws, |ws|, ps) else 0) + SideCreditOfAll(pots, ws, |pots|, ps)
    decreases |ps|
  {
    if ps != [] { PayoutSplits(pot, pots, ws, ps[..|ps| - 1]); }
  }

  lemma {:induction false} NoSideCredit<T>(pots: seq<SidePot<T>>, ws: seq<T>, ps: seq<T>)
    ensures SideCreditOfAll(pots, ws, 0, ps) == 0
    decreases |ps|
  {
    if ps != [] { NoSideCredit(pots, ws, ps[..|ps| - 1]); }
  }

  /** The chips by which payout and survivors exceed the pots: the fault of negative pots alone. */
  ghost function Surplus<T>(pots: seq<SidePot<T>>, ws: seq<T>, k: nat): nat
    requires k <= |pots|
  {
    if k == 0 then 0
    else
      var takers := EligibleWinners(ws, pots[k - 1].eligible);
      Surplus(pots, ws, k - 1)
      + if Settles(ws, pots[k - 1]) && pots[k - 1].amount < 0
        then SharesUpTo(pots[k - 1].amount, |takers|, |takers|) - pots[k - 1].amount
        else 0
  }

  lemma {:induction false} SurplusIsNegativePots<T>(pots: seq<SidePot<T>>, ws: seq<T>, k: nat)
    requires k <= |pots|
    ensures Surplus(pots, ws, k) == 0 <==> forall j :: 0 <= j < k ==> (Settles(ws, pots[j]) ==> pots[j].amount >= 0)
    decreases k
  {
    if k > 0 { SurplusIsNegativePots(pots, ws, k - 1); }
  }

  lemma {:induction false} SidePotsBalance<T>(pots: seq<SidePot<T>>, ws: seq<T>, k: nat, ps: seq<T>)
    requires k <= |pots| && Distinct(ps)
    requires forall p :: p in ws ==> p in ps
    ensures SideCreditOfAll(pots, ws, k, ps) + Total(Unsettled(pots[..k], ws)) ==
      Total(pots[..k]) + Surplus(pots, ws, k)
    decreases k
  {
    if k == 0 {
      NoSideCredit(pots, ws, ps);
    } else {
      SidePotsBalance(pots, ws, k - 1, ps);
      SideCreditOfAllStep(pots, ws, k, ps);
      TotalStep(pots, k);
      SettledPotBalances(pots[k - 1], ws, ps);
      UnsettledStep(pots, ws, k);
      hide Settles, CreditOfAll;
    }
  }

  /** What one pot pays out and leaves, against what it held. */
  lemma SettledPotBalances<T>(pot: SidePot<T>, ws: seq<T>, ps: seq<T>)
    requires Distinct(ps)
    requires forall p :: p in ws ==> p in ps
    ensures
      var takers := EligibleWinners(ws, pot.eligible);
      var paid := if pot.amount == 0 then 0 else CreditOfAll(pot.amount, takers, |takers|, ps);
      if Settles(ws, pot) then
        paid == SharesUpTo(pot.amount, |takers|, |takers|) && (pot.amount >= 0 ==> paid == pot.amount)
      else paid == 0
  {
    var takers := EligibleWinners(ws, pot.eligible);
    if takers != [] {
      CreditsAreShares(pot.amount, takers, |takers|, ps);
      SharesAddUp(pot.amount, |takers|);
    } else {
      NothingCredited(pot.amount, takers, ps);
    }
  }

  lemma UnsettledStep<T>(pots: seq<SidePot<T>>, ws: seq<T>, k: nat)
    requires 0 < k <= |pots|
    ensures Total(Unsettled(pots[..k], ws)) ==
            Total(Unsettled(pots[..k - 1], ws)) + if Settles(ws, pots[k - 1]) then 0 else pots[k - 1].amount
  {
    var init := pots[..k - 1];
    assert pots[..k][..k - 1] == init && pots[..k][k - 1] == pots[k - 1];
    TotalSnoc(Unsettled(init, ws), pots[k - 1]);
    assert Unsettled(init, ws) + [] == Unsettled(init, ws);
  }

  /** What a payout leaves in the main pot. */
  function LeftInMain<T>(pot: int, ws: seq<T>): int {
    if ws != [] && pot > 0 then 0 else pot
  }

  /** Credits and survivors exceed the pots by the surplus alone. */
  lemma PayoutBalances<T>(pot: int, pots: seq<SidePot<T>>, ws: seq<T>, ps: seq<T>)
    requires Distinct(ps) && forall p :: p in ws ==> p in ps
    ensures PayoutOfAll(pot, pots, ws, ps) + LeftInMain(pot, ws) + Total(Unsettled(pots, ws))
         == pot + Total(pots) + Surplus(pots, ws, |pots|)
  {
    PayoutSplits(pot, pots, ws, ps);
    SidePotsBalance(pots, ws, |pots|, ps);
    assert pots[..|pots|] == pots;
    if ws == [] {
      NothingCredited(pot, ws, ps);
    } else {
      CreditsAreShares(pot, ws, |ws|, ps);
      SharesAddUp(pot, |ws|);
    }
  }

  ghost predicate NoNegativePotPaid<T>(pots: seq<SidePot<T>>, ws: seq<T>) {
    forall j :: 0 <= j < |pots| && Settles(ws, pots[j]) ==> pots[j].amount >= 0
  }

  /**
   * What is credited to everyone, whether or not there is a stack to put it on, and what is left are what
   * the pots held, exactly when no side pot that is paid holds a negative amount.
   */
  lemma PayoutConserves<T>(pot: int, pots: seq<SidePot<T>>, ws: seq<T>, ps: seq<T>)
    requires Distinct(ps) && forall p :: p in ws ==> p in ps
    ensures PayoutOfAll(pot, pots, ws, ps) + LeftInMain(pot, ws) + Total(Unsettled(pots, ws)) == pot + Total(pots)
       <==> NoNegativePotPaid(pots, ws)
  {
    PayoutBalances(pot, pots, ws, ps);
    SurplusIsNegativePots(pots, ws, |pots|);
  }

  // ---------- Winners without a stack ----------

  /** Splitting `amount` among `ws` brings `p` a chip: an early enough place, or a negative amount close to zero. */
  ghost predicate Receives<T>(amount: int, ws: seq<T>, p: T) {
    exists i :: 0 <= i < |ws| && ws[i] == p && (i < amount || -|ws| < amount < 0)
  }

  lemma ShareIsPositive(amount: int, n: int, i: nat)
    requires i < n
    ensures Share(amount, n, i) > 0 <==> i < amount || -n < amount < 0
    ensures amount < 0 ==> Share(amount, n, i) <= 1
  {
    if amount >= 0 {
      ModIsRemainder(amount, n);
      if amount < n { SidePots.DivModUnique(amount, n, 0, amount); } else { QuotientAtLeastOne(amount, n); }
    } else if -n < amount {
      SidePots.DivModUnique(-amount, n, 0, -amount);
    } else {
      QuotientAtLeastOne(-amount, n);
    }
  }

  lemma QuotientAtLeastOne(a: int, n: int)
    requires a >= n > 0
    ensures a / n >= 1
  {
  }

  lemma {:induction false} CreditIffNamed<T>(amount: int, ws: seq<T>, k: nat, p: T)
    requires k <= |ws|
    ensures Credit(amount, ws, k, p) > 0 <==>
      exists i :: 0 <= i < k && ws[i] == p && (i < amount || -|ws| < amount < 0)
    decreases k
  {
    if k > 0 {
      hide Share;
      CreditIffNamed(amount, ws, k - 1, p);
      ShareIsPositive(amount, |ws|, k - 1);
    }
  }

  ghost predicate ReceivesFrom<T>(pot: SidePot<T>, ws: seq<T>, p: T) {
    Receives(pot.amount, EligibleWinners(ws, pot.eligible), p)
  }

  /** Whether `p` receives anything from any of the pots. */
  ghost predicate PaidAnything<T>(pot: int, pots: seq<SidePot<T>>, ws: seq<T>, p: T) {
    || (pot > 0 && Receives(pot, ws, p))
    || exists j :: 0 <= j < |pots| && ReceivesFrom(pots[j], ws, p)
  }

  lemma {:induction false} SideCreditIffPaid<T>(pots: seq<SidePot<T>>, ws: seq<T>, k: nat, p: T)
    requires k <= |pots|
    ensures SideCredit(pots, ws, k, p) > 0 <==>
      exists j :: 0 <= j < k && ReceivesFrom(pots[j], ws, p)
    decreases k
  {
    if k > 0 {
      hide PotCredit, ReceivesFrom;
      SideCreditIffPaid(pots, ws, k - 1, p);
      PotCreditIffNamed(pots[k - 1], ws, p);
    }
  }

  lemma PotCreditIffNamed<T>(pot: SidePot<T>, ws: seq<T>, p: T)
    ensures PotCredit(pot, ws, p) > 0 <==> ReceivesFrom(pot, ws, p)
    ensures ReceivesFrom(pot, ws, p) ==> pot.amount != 0
  {
    var takers := EligibleWinners(ws, pot.eligible);
    CreditIffNamed(pot.amount, takers, |takers|, p);
  }

  lemma PayoutIffPaid<T>(pot: int, pots: seq<SidePot<T>>, ws: seq<T>, p: T)
    ensures Payout(pot, pots, ws, p) > 0 <==> PaidAnything(pot, pots, ws, p)
  {
    CreditIffNamed(pot, ws, |ws|, p);
    SideCreditIffPaid(pots, ws, |pots|, p);
  }

  lemma PayoutOfAllAndOne<T>(pot: int, pots: seq<SidePot<T>>, ws: seq<T>, ps: seq<T>, p: T)
    ensures PayoutOfAll(pot, pots, ws, ps + [p]) == PayoutOfAll(pot, pots, ws, ps) + Payout(pot, pots, ws, p)
  {
    assert (ps + [p])[..|ps|] == ps;
  }

  /**
   * With `nobody` a winner who has no stack: the chips in the stacks and pots change by what negative pots
   * create less what `nobody` is credited. When no negative pot is paid they are kept exactly when
   * `nobody` is paid nothing; when `nobody` is paid nothing, exactly when no negative pot is paid.
   */
  lemma PayoutToStacks<T>(pot: int, pots: seq<SidePot<T>>, ws: seq<T>, ps: seq<T>, nobody: T)
    requires Distinct(ps) && nobody !in ps && forall p :: p in ws ==> p in ps || p == nobody
    ensures
      var after := PayoutOfAll(pot, pots, ws, ps) + LeftInMain(pot, ws) + Total(Unsettled(pots, ws));
      && after == pot + Total(pots) + Surplus(pots, ws, |pots|) - Payout(pot, pots, ws, nobody)
      && (NoNegativePotPaid(pots, ws) ==> (after == pot + Total(pots) <==> !PaidAnything(pot, pots, ws, nobody)))
      && (!PaidAnything(pot, pots, ws, nobody) ==> (after == pot + Total(pots) <==> NoNegativePotPaid(pots, ws)))
  {
    hide Payout, PayoutOfAll, Surplus, Settles, PaidAnything, NoNegativePotPaid;
    PayoutBalances(pot, pots, ws, ps + [nobody]);
    PayoutOfAllAndOne(pot, pots, ws, ps, nobody);
    PayoutIffPaid(pot, pots, ws, nobody);
    assert Surplus(pots, ws, |pots|) == 0 <==> NoNegativePotPaid(pots, ws) by {
      SurplusIsNegativePots(pots, ws, |pots|);
      NoNegativePotPaidMeans(pots, ws);
    }
  }

  lemma NoNegativePotPaidMeans<T>(pots: seq<SidePot<T>>, ws: seq<T>)
    ensures NoNegativePotPaid(pots, ws) <==>
      forall j :: 0 <= j < |pots| ==> (Settles(ws, pots[j]) ==> pots[j].amount >= 0)
  {
  }

  /** What survives is exactly the side pots with chips and no eligible winner. */
  lemma {:induction false} UnsettledMembers<T>(pots: seq<SidePot<T>>, ws: seq<T>)
    ensures forall pot :: pot in Unsettled(pots, ws) <==>
      pot in pots && pot.amount != 0 && forall w :: w in ws ==> w !in pot.eligible
    decreases |pots|
  {
    if pots != [] {
      var init, last := pots[..|pots| - 1], pots[|pots| - 1];
      UnsettledMembers(init, ws);
      assert pots == init + [last];
      var takers := EligibleWinners(ws, last.eligible);
      assert takers == [] <==> forall w :: w in ws ==> w !in last.eligible by {
        if takers != [] { assert takers[0] in takers; }
      }
    }
  }

  /** A pot that nobody among the winners takes. */
  ghost predicate Stays<T>(pot: SidePot<T>, ws: seq<T>) {
    pot.amount != 0 && forall w :: w in ws ==> w !in pot.eligible
  }

  lemma StaysWithoutTakers<T>(pot: SidePot<T>, ws: seq<T>)
    ensures Stays(pot, ws) <==> pot.amount != 0 && EligibleWinners(ws, pot.eligible) == []
  {
    var takers := EligibleWinners(ws, pot.eligible);
    if takers != [] { assert takers[0] in takers; }
  }

  /** `kept` are the pots at the places `at`, ascending, which are those of the pots that stay. */
  ghost predicate KeptInOrder<T>(pots: seq<SidePot<T>>, ws: seq<T>, kept: seq<SidePot<T>>, at: seq<nat>) {
    && |at| == |kept|
    && (forall k :: 0 <= k < |at| ==> at[k] < |pots| && kept[k] == pots[at[k]])
    && (forall k, l :: 0 <= k < l < |at| ==> at[k] < at[l])
    && (forall j: nat :: j < |pots| ==> (j in at <==> Stays(pots[j], ws)))
  }

  lemma KeepOneMore<T>(pots: seq<SidePot<T>>, pot: SidePot<T>, ws: seq<T>, kept: seq<SidePot<T>>, at: seq<nat>)
    requires KeptInOrder(pots, ws, kept, at)
    ensures Stays(pot, ws) ==> KeptInOrder(pots + [pot], ws, kept + [pot], at + [|pots|])
    ensures !Stays(pot, ws) ==> KeptInOrder(pots + [pot], ws, kept, at)
  {
    hide Stays;
    var more := pots + [pot];
    forall j: nat | j < |more| ensures j in at + [|pots|] <==> (j < |pots| ==> Stays(more[j], ws)) {
    }
    assert |pots| !in at;
  }

  lemma UnsettledSnoc<T>(init: seq<SidePot<T>>, pot: SidePot<T>, ws: seq<T>)
    ensures Unsettled(init + [pot], ws) == Unsettled(init, ws) + if Stays(pot, ws) then [pot] else []
  {
    hide Stays, EligibleWinners;
    assert (init + [pot])[..|init|] == init;
    StaysWithoutTakers(pot, ws);
  }

  /** What survives a payout survives in its order. */
  lemma {:induction false} UnsettledInOrder<T>(pots: seq<SidePot<T>>, ws: seq<T>) returns (at: seq<nat>)
    ensures KeptInOrder(pots, ws, Unsettled(pots, ws), at)
    decreases |pots|, 1
  {
    if pots == [] {
      at := [];
    } else {
      at := AndTheLast(pots, ws);
    }
  }

  lemma {:induction false} AndTheLast<T>(pots: seq<SidePot<T>>, ws: seq<T>) returns (at: seq<nat>)
    requires pots != []
    ensures KeptInOrder(pots, ws, Unsettled(pots, ws), at)
    decreases |pots|, 0
  {
    hide KeptInOrder, Unsettled, EligibleWinners, Stays;
    var init, pot := pots[..|pots| - 1], pots[|pots| - 1];
    assert pots == init + [pot];
    at := UnsettledInOrder(init, ws);
    UnsettledSnoc(init, pot, ws);
    KeepOneMore(init, pot, ws, Unsettled(init, ws), at);
    if Stays(pot, ws) {
      at := at + [|init|];
    } else {
      assert Unsettled(pots, ws) == Unsettled(init, ws);
    }
  }

  // ---------- Layering followed by payout ----------

  lemma SoleWinnerTakesPot<T>(pot: SidePot<T>, w: T)
    requires pot.amount > 0
    ensures PotCredit(pot, [w], w) == if w in pot.eligible then pot.amount else 0
  {
    var takers := EligibleWinners([w], pot.eligible);
    assert [w][..0] == [];
    assert EligibleWinners<T>([], pot.eligible) == [];
    if w in pot.eligible {
      assert takers == [w];
      ModIsRemainder(pot.amount, 1);
      assert Credit(pot.amount, [w], 1, w) == Credit(pot.amount, [w], 0, w) + Share(pot.amount, 1, 0);
    }
  }

  lemma PotCreditAtMost<T>(pot: SidePot<T>, ws: seq<T>, p: T)
    requires pot.amount > 0
    ensures PotCredit(pot, ws, p) <= pot.amount
    ensures p !in pot.eligible ==> PotCredit(pot, ws, p) == 0
  {
    var takers := EligibleWinners(ws, pot.eligible);
    if takers != [] {
      CreditAtMost(pot.amount, takers, |takers|, p);
      SharesAddUp(pot.amount, |takers|);
    }
    if p !in pot.eligible { NoCreditForOthers(pot.amount, takers, |takers|, p); }
  }

  /** Alone, a winner collects the main pot if it is positive, and nothing without side pots. */
  lemma SoleWinnerTakesMain<T>(pot: int, w: T)
    ensures Payout(pot, [], [w], w) == if pot > 0 then pot else 0
  {
    MainCreditOfSole(pot, w);
  }

  /**
   * If `p` is credited the first `r` pots in full (or in part) and nothing else, the credits are (at most)
   * their total.
   */
  lemma {:induction false} SideCreditIsPrefix<T>(pots: seq<SidePot<T>>, ws: seq<T>, p: T, k: nat, r: nat)
    requires k <= |pots|
    requires forall j :: 0 <= j < k ==> pots[j].amount > 0
    requires forall j :: 0 <= j < k ==> PotCredit(pots[j], ws, p) <= if j < r then pots[j].amount else 0
    ensures SideCredit(pots, ws, k, p) <= Total(pots[..Min(k, r)])
    ensures (forall j :: 0 <= j < Min(k, r) ==> PotCredit(pots[j], ws, p) == pots[j].amount) ==>
              SideCredit(pots, ws, k, p) == Total(pots[..Min(k, r)])
    decreases k
  {
    hide PotCredit;
    if k == 0 {
      assert pots[..0] == [];
    } else {
      SideCreditIsPrefix(pots, ws, p, k - 1, r);
      if k <= r { TotalStep(pots, k); }
    }
  }

  /** A player is credited from no pot above the player's own bet. */
  lemma CreditsStopAtOwnBet<T>(stakes: seq<Stake<T>>, levels: seq<int>, pots: seq<SidePot<T>>, ws: seq<T>, w: nat)
    requires Layered(stakes, levels, pots) && NonNegative(stakes) && DistinctPlayers(stakes) && w < |stakes|
    ensures Reached(levels, stakes[w].bet) <= |pots|
    ensures forall j :: 0 <= j < |pots| ==> pots[j].amount > 0
    ensures forall j :: 0 <= j < |pots| ==>
      PotCredit(pots[j], ws, stakes[w].player) <= if j < Reached(levels, stakes[w].bet) then pots[j].amount else 0
    ensures forall j :: 0 <= j < Reached(levels, stakes[w].bet) ==> stakes[w].player in pots[j].eligible
    ensures Total(pots[..Reached(levels, stakes[w].bet)]) == Capped(stakes, stakes[w].bet)
  {
    hide PotCredit, Reached;
    ReachedIsPrefix(levels, stakes[w].bet);
    forall j | 0 <= j < |pots|
      ensures pots[j].amount > 0
      ensures stakes[w].player in pots[j].eligible <==> j < Reached(levels, stakes[w].bet)
      ensures PotCredit(pots[j], ws, stakes[w].player) <=
        if j < Reached(levels, stakes[w].bet) then pots[j].amount else 0
    {
      PotsArePositiveAndEven(stakes, levels, pots, j);
      InPotIffReached(stakes, levels, pots, w, j);
      PotCreditAtMost(pots[j], ws, stakes[w].player);
    }
    assert Bets(stakes)[w] == stakes[w].bet;
    ReachedIsOwnBet(stakes, levels, pots, stakes[w].bet);
    LowestPotsHoldCapped(stakes, levels, pots, Reached(levels, stakes[w].bet));
  }

  /**
   * The all-in rule: from side pots a sole winner takes from every player at most what the winner
   * bet. Chips still in the main pot are paid on top, so the rule holds exactly when none are.
   */
  lemma SoleWinnerTakesMatchedBets<T>(stakes: seq<Stake<T>>, levels: seq<int>, pots: seq<SidePot<T>>, w: nat, pot: int)
    requires Layered(stakes, levels, pots) && NonNegative(stakes) && DistinctPlayers(stakes) && w < |stakes|
    ensures Payout(pot, pots, [stakes[w].player], stakes[w].player) ==
      Capped(stakes, stakes[w].bet) + if pot > 0 then pot else 0
    ensures Payout(pot, pots, [stakes[w].player], stakes[w].player) == Capped(stakes, stakes[w].bet) <==> pot <= 0
  {
    hide Layered, NonNegative, DistinctPlayers, PotCredit, Reached, Total, SideCredit, Capped, Credit;
    var p := stakes[w].player;
    CreditsStopAtOwnBet(stakes, levels, pots, [p], w);
    forall j | 0 <= j < Reached(levels, stakes[w].bet) ensures PotCredit(pots[j], [p], p) == pots[j].amount {
      SoleWinnerTakesPot(pots[j], p);
    }
    SideCreditIsPrefix(pots, [p], p, |pots|, Reached(levels, stakes[w].bet));
    MainCreditOfSole(pot, p);
  }

  lemma MainCreditOfSole<T>(pot: int, w: T)
    ensures MainCredit(pot, [w], w) == if pot > 0 then pot else 0
  {
    if pot > 0 {
      ModIsRemainder(pot, 1);
      assert Credit(pot, [w], 1, w) == Credit(pot, [w], 0, w) + Share(pot, 1, 0);
    }
  }

  /** With any winners, nobody is paid from the side pots more than the bets matched by that player's own bet. */
  lemma NobodyTakesMoreThanMatched<T>(
    stakes: seq<Stake<T>>, levels: seq<int>, pots: seq<SidePot<T>>, ws: seq<T>, w: nat, pot: int)
    requires Layered(stakes, levels, pots) && NonNegative(stakes) && DistinctPlayers(stakes) && w < |stakes|
    ensures Payout(pot, pots, ws, stakes[w].player) <=
      Capped(stakes, stakes[w].bet) + MainCredit(pot, ws, stakes[w].player)
    ensures pot <= 0 ==> Payout(pot, pots, ws, stakes[w].player) <= Capped(stakes, stakes[w].bet)
  {
    hide Layered, NonNegative, DistinctPlayers, PotCredit, Reached, Total, SideCredit, Capped;
    CreditsStopAtOwnBet(stakes, levels, pots, ws, w);
    SideCreditIsPrefix(pots, ws, stakes[w].player, |pots|, Reached(levels, stakes[w].bet));
  }

  /** `top` is the player with the largest bet among the winners, all of whom are players. */
  ghost predicate IsTopWinner<T>(stakes: seq<Stake<T>>, ws: seq<T>, top: nat) {
    && top < |stakes| && stakes[top].player in ws
    && (forall p :: p in ws ==> exists i :: 0 <= i < |stakes| && stakes[i].player == p)
    && (forall i :: 0 <= i < |stakes| && stakes[i].player in ws ==> stakes[i].bet <= stakes[top].bet)
  }

  /** A pot is settled exactly when the top winner reaches it. */
  lemma SettledIffTopReaches<T>(
      stakes: seq<Stake<T>>, levels: seq<int>, pots: seq<SidePot<T>>, ws: seq<T>, top: nat, k: nat)
    requires Layered(stakes, levels, pots) && NonNegative(stakes) && DistinctPlayers(stakes)
    requires IsTopWinner(stakes, ws, top) && k < |pots|
    ensures EligibleWinners(ws, pots[k].eligible) != [] <==> k < Reached(levels, stakes[top].bet)
  {
    InPotIffReached(stakes, levels, pots, top, k);
    var takers := EligibleWinners(ws, pots[k].eligible);
    if takers != [] {
      assert takers[0] in takers;
      var i :| 0 <= i < |stakes| && stakes[i].player == takers[0];
      InPotIffReached(stakes, levels, pots, i, k);
    }
    if stakes[top].player in pots[k].eligible { assert stakes[top].player in takers; }
  }

  /** When exactly the lowest `r` pots have takers, what is paid in all is the total of those pots. */
  lemma {:induction false} PaidPotsArePrefix<T>(pots: seq<SidePot<T>>, ws: seq<T>, ps: seq<T>, k: nat, r: nat)
    requires k <= |pots| && Distinct(ps) && forall p :: p in ws ==> p in ps
    requires forall j :: 0 <= j < k ==> pots[j].amount > 0
    requires forall j :: 0 <= j < k ==> (Settles(ws, pots[j]) <==> j < r)
    ensures SideCreditOfAll(pots, ws, k, ps) == Total(pots[..Min(k, r)])
    decreases k
  {
    hide SharesUpTo, CreditOfAll, SideCreditOfAll, EligibleWinners, Distinct, Settles;
    if k == 0 {
      NoSideCredit(pots, ws, ps);
    } else {
      PaidPotsArePrefix(pots, ws, ps, k - 1, r);
      SideCreditOfAllStep(pots, ws, k, ps);
      SettledPotBalances(pots[k - 1], ws, ps);
      if k <= r { TotalStep(pots, k); }
    }
  }

  /**
   * Together the winners are paid every bet up to the largest winning bet, and a positive main pot on
   * top; so they are paid just the matched bets exactly when the main pot holds nothing.
   */
  lemma WinnersTakeMatchedBets<T>(
    stakes: seq<Stake<T>>, levels: seq<int>, pots: seq<SidePot<T>>, ws: seq<T>, ps: seq<T>, top: nat, pot: int)
    requires Layered(stakes, levels, pots) && NonNegative(stakes) && DistinctPlayers(stakes)
    requires IsTopWinner(stakes, ws, top)
    requires Distinct(ps) && forall p :: p in ws ==> p in ps
    ensures PayoutOfAll(pot, pots, ws, ps) == Capped(stakes, stakes[top].bet) + if pot > 0 then pot else 0
    ensures PayoutOfAll(pot, pots, ws, ps) == Capped(stakes, stakes[top].bet) <==> pot <= 0
  {
    var r := Reached(levels, stakes[top].bet);
    forall j | 0 <= j < |pots| ensures pots[j].amount > 0 && (Settles(ws, pots[j]) <==> j < r) {
      PotsArePositiveAndEven(stakes, levels, pots, j);
      SettledIffTopReaches(stakes, levels, pots, ws, top, j);
    }
    assert Bets(stakes)[top] == stakes[top].bet;
    assert ws != [];
    ReachedIsOwnBet(stakes, levels, pots, stakes[top].bet);
    hide Layered, NonNegative, DistinctPlayers, Reached, IsTopWinner, Settles;
    PayoutSplits(pot, pots, ws, ps);
    PaidPotsArePrefix(pots, ws, ps, |pots|, r);
    LowestPotsHoldCapped(stakes, levels, pots, r);
    hide CreditOfAll, SharesUpTo;
    CreditsAreShares(pot, ws, |ws|, ps);
    SharesAddUp(pot, |ws|);
  }
}
