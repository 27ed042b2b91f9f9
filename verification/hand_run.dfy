/** A hand as a value: what each action and each new betting round does to it, and what whole runs keep. */
module HandRun {
  import opened Bags
  import opened Cards
  import opened Decks

  datatype BettingRound = Preflop | Flop | Turn | River | Showdown

  /** The action strings; any other text is `Other`. */
  datatype ActionKind = Fold | Call | Raise | Other(text: string)

  const BIG_BLIND := 4

  /** A history entry; players are named by their position in the hand. */
  datatype Entry = Entry(who: nat, action: ActionKind, amount: int)

  /** The betting record of a hand with `players` players. `toAct` is `players` when nobody is to act. */
  datatype Book = Book(
    players: nat, bets: seq<int>, folded: seq<bool>, pot: int, minRaise: int, toAct: nat, history: seq<Entry>)

  /** std::vector::resize. */
  function Resize<T>(s: seq<T>, n: nat, fill: T): (r: seq<T>)
    ensures |r| == n
    ensures forall i :: 0 <= i < n ==> r[i] == if i < |s| then s[i] else fill
  {
    if n <= |s| then s[..n] else s + seq(n - |s|, _ => fill)
  }

  /** Both per-player vectors brought to the number of players. */
  function Sized(b: Book): Book {
    b.(bets := Resize(b.bets, b.players, 0), folded := Resize(b.folded, b.players, false))
  }

  ghost predicate IsSized(b: Book) {
    |b.bets| == |b.folded| == b.players
  }

  /** What the core action path accepts from a player holding `stack`. */
  predicate Accepts(minRaise: int, stack: int, action: ActionKind, amount: int) {
    match action
    case Fold => true
    case Call => 0 <= amount <= stack
    case Raise => minRaise <= amount <= stack && 0 <= amount
    case Other(_) => false
  }

  /** The chips an accepted action moves from the player to the pot. */
  function Debit(action: ActionKind, amount: int): int {
    if action.Call? || action.Raise? then amount else 0
  }

  /** Heads-up, the turn passes to the other player. */
  function NextToAct(b: Book): nat {
    if b.players == 2 then (if b.toAct == 0 then 1 else 0) else b.toAct
  }

  /** The record after an accepted action by player `who`; a stranger (`who` out of range) has no entries to update. */
  function Record(b: Book, who: nat, action: ActionKind, amount: int): Book {
    var s := Sized(b);
    s.(folded := if action.Fold? && who < s.players then s.folded[who := true] else s.folded,
       bets := if who < s.players then s.bets[who := s.bets[who] + Debit(action, amount)] else s.bets,
       pot := s.pot + Debit(action, amount),
       minRaise := if action.Raise? then amount else s.minRaise,
       history := s.history + [Entry(who, action, amount)],
       toAct := NextToAct(s))
  }

  /** Moving the chips first and writing the history afterwards records the action. */
  lemma RecordInTwoSteps(b: Book, who: nat, action: ActionKind, amount: int)
    ensures
      var s := Sized(b);
      var moved := Record(s, who, action, amount).(history := s.history, toAct := s.toAct);
      Record(b, who, action, amount) ==
      moved.(history := s.history + [Entry(who, action, amount)], toAct := NextToAct(moved))
    ensures |Sized(b).bets| == |Sized(b).folded| == b.players
  {
  }

  datatype HandView = HandView(
    stacks: seq<int>, book: Book, hole: seq<seq<Card>>, board: seq<Card>, undealt: seq<Card>, round: BettingRound)

  /**
   * The core acts for whoever it is handed: a player of the hand, or a stranger to it, of whom only the
   * stack matters.
   */
  datatype Event =
    | Act(who: nat, action: ActionKind, amount: int)
    | ActAsStranger(stack: int, action: ActionKind, amount: int)
    | Advance

  function NextRound(r: BettingRound): BettingRound {
    match r
    case Preflop => Flop
    case Flop => Turn
    case Turn => River
    case River => Showdown
    case Showdown => Showdown
  }

  /** How many community cards are dealt on entering a round. */
  function CardsFor(r: BettingRound): nat {
    match r
    case Flop => 3
    case Turn => 1
    case River => 1
    case _ => 0
  }

  /** Dealing stops (with an exception) when the deck is out of cards. */
  function Dealable(undealt: seq<Card>, count: nat): nat {
    if count <= |undealt| then count else |undealt|
  }

  /** Whether an action goes through. A position nobody holds has no player to act. */
  predicate Accepted(v: HandView, e: Event) {
    match e
    case Act(who, action, amount) => who < |v.stacks| && Accepts(v.book.minRaise, v.stacks[who], action, amount)
    case ActAsStranger(stack, action, amount) => Accepts(v.book.minRaise, stack, action, amount)
    case Advance => !v.round.Showdown?
  }

  function Step(v: HandView, e: Event): HandView {
    if !Accepted(v, e) then (if e.Advance? || (e.Act? && e.who >= |v.stacks|) then v else v.(book := Sized(v.book)))
    else
      match e
      case Act(who, action, amount) =>
        v.(book := Record(v.book, who, action, amount),
           stacks := v.stacks[who := v.stacks[who] - Debit(action, amount)])
      case ActAsStranger(_, action, amount) =>
        v.(book := Record(v.book, v.book.players, action, amount))
      case Advance =>
        var round := NextRound(v.round);
        var n := Dealable(v.undealt, CardsFor(round));
        v.(round := round, board := v.board + v.undealt[..n], undealt := v.undealt[n..])
  }

  function Run(v: HandView, events: seq<Event>): HandView {
    if events == [] then v else Step(Run(v, events[..|events| - 1]), events[|events| - 1])
  }

  /** The state a hand starts from: `order` is the shuffled deck, the vectors may hold stale entries. */
  function Started(stacks: seq<int>, order: seq<Card>, staleBets: seq<int>, staleFolded: seq<bool>): HandView
    requires |stacks| == 2 && |order| >= 4
  {
    HandView(stacks,
             Book(2, Resize(staleBets, 2, 0), Resize(staleFolded, 2, false), 0, BIG_BLIND, 0, []),
             [order[..2], order[2..4]], [], order[4..], Preflop)
  }

  // ---------- Chips ----------

  lemma {:induction false} SumUpdate(s: seq<int>, i: nat, x: int)
    requires i < |s|
    ensures Sum(s[i := x]) == Sum(s) - s[i] + x
    decreases |s|
  {
    if i == |s| - 1 {
      assert s[i := x][..|s| - 1] == s[..|s| - 1];
    } else {
      SumUpdate(s[..|s| - 1], i, x);
      assert s[i := x][..|s| - 1] == s[..|s| - 1][i := x];
    }
  }

  ghost predicate NonNegativeStacks(stacks: seq<int>) {
    forall i :: 0 <= i < |stacks| ==> stacks[i] >= 0
  }

  function Raises(history: seq<Entry>): nat {
    if history == [] then 0
    else Raises(history[..|history| - 1]) + if history[|history| - 1].action.Raise? then 1 else 0
  }

  ghost predicate WellFormed(v: HandView) {
    |v.stacks| == v.book.players && IsSized(v.book)
  }

  /** The chips an accepted stranger brings to the table. */
  function Brought(v: HandView, e: Event): int {
    if e.ActAsStranger? && Accepted(v, e) then Debit(e.action, e.amount) else 0
  }

  function BroughtInRun(v: HandView, events: seq<Event>): int {
    if events == [] then 0
    else
      var init := events[..|events| - 1];
      BroughtInRun(v, init) + Brought(Run(v, init), events[|events| - 1])
  }

  /** One event, accepted or not: chips move between stacks, pot and bets together; a stranger's only reach the pot. */
  lemma StepKeepsChips(v: HandView, e: Event)
    requires WellFormed(v)
    ensures WellFormed(Step(v, e))
    ensures Sum(Step(v, e).stacks) + Step(v, e).book.pot == Sum(v.stacks) + v.book.pot + Brought(v, e)
    ensures Sum(Step(v, e).book.bets) - Step(v, e).book.pot == Sum(v.book.bets) - v.book.pot - Brought(v, e)
    ensures NonNegativeStacks(v.stacks) ==> NonNegativeStacks(Step(v, e).stacks)
    ensures v.book.minRaise >= 0 ==> Step(v, e).book.minRaise >= v.book.minRaise
    ensures Brought(v, e) >= 0
  {
    hide Record, Sized;
    SizedIsItself(v.book);
    if !e.Advance? && Accepted(v, e) {
      RecordKeepsChips(v.book, if e.Act? then e.who else v.book.players, e.action, e.amount);
      if e.Act? { SumUpdate(v.stacks, e.who, v.stacks[e.who] - Debit(e.action, e.amount)); }
    }
  }

  lemma SizedIsItself(b: Book)
    requires IsSized(b)
    ensures Sized(b) == b
  {
  }

  /** What a record adds to the pot it adds to the bets of a player, and to no bet for a stranger. */
  lemma RecordKeepsChips(b: Book, who: nat, action: ActionKind, amount: int)
    requires IsSized(b)
    ensures
      var after := Record(b, who, action, amount);
      && IsSized(after) && after.players == b.players
      && after.pot == b.pot + Debit(action, amount)
      && Sum(after.bets) == Sum(b.bets) + (if who < b.players then Debit(action, amount) else 0)
      && after.minRaise == if action.Raise? then amount else b.minRaise
  {
    hide Sized, Sum;
    SizedIsItself(b);
    if who < b.players { SumUpdate(b.bets, who, b.bets[who] + Debit(action, amount)); }
  }

  /** Between players and strangers alike, an action changes nothing exactly when it is refused. */
  lemma RefusedChangesNothing(v: HandView, e: Event)
    requires WellFormed(v)
    ensures Step(v, e) == v <==> !Accepted(v, e)
  {
    assert Sized(v.book) == v.book;
    if !e.Advance? && Accepted(v, e) {
      assert |Step(v, e).book.history| == |v.book.history| + 1;
    }
  }

  /** Every accepted raise costs at least the minimum raise, which never falls below the big blind. */
  lemma StepPaysForRaises(v: HandView, e: Event)
    requires WellFormed(v) && v.book.minRaise >= BIG_BLIND
    ensures
      var w := Step(v, e);
      BIG_BLIND * Raises(w.book.history) + Sum(w.stacks) <=
      BIG_BLIND * Raises(v.book.history) + Sum(v.stacks) + Brought(v, e)
  {
    assert Sized(v.book) == v.book;
    if !e.Advance? && Accepted(v, e) {
      if e.Act? { SumUpdate(v.stacks, e.who, v.stacks[e.who] - Debit(e.action, e.amount)); }
      assert Step(v, e).book.history[..|v.book.history|] == v.book.history;
    }
  }

  /**
   * Over any run of a hand: chips are conserved up to what strangers bring, the pot is ahead of the bets
   * by just that, stacks stay non-negative, raises are bounded.
   */
  lemma {:induction false} RunKeepsChips(v: HandView, events: seq<Event>)
    requires WellFormed(v) && v.book.minRaise >= BIG_BLIND && NonNegativeStacks(v.stacks)
    ensures
      var w, brought := Run(v, events), BroughtInRun(v, events);
      && WellFormed(w) && NonNegativeStacks(w.stacks) && w.book.minRaise >= v.book.minRaise
      && Sum(w.stacks) + w.book.pot == Sum(v.stacks) + v.book.pot + brought
      && Sum(w.book.bets) - w.book.pot == Sum(v.book.bets) - v.book.pot - brought
      && BIG_BLIND * Raises(w.book.history) + Sum(w.stacks) <=
         BIG_BLIND * Raises(v.book.history) + Sum(v.stacks) + brought
      && brought >= 0
    decreases |events|
  {
    if events != [] {
      var before := Run(v, events[..|events| - 1]);
      RunKeepsChips(v, events[..|events| - 1]);
      StepKeepsChips(before, events[|events| - 1]);
      StepPaysForRaises(before, events[|events| - 1]);
    }
  }

  lemma {:induction false} SumNonNegative(s: seq<int>)
    requires NonNegativeStacks(s)
    ensures Sum(s) >= 0
    decreases |s|
  {
    if s != [] { SumNonNegative(s[..|s| - 1]); }
  }

  /** What strangers bring over a run, seen after each of its prefixes, never falls. */
  lemma {:induction false} BroughtGrows(v: HandView, events: seq<Event>, k: nat)
    requires WellFormed(v) && v.book.minRaise >= BIG_BLIND && NonNegativeStacks(v.stacks) && k <= |events|
    ensures 0 <= BroughtInRun(v, events[..k]) <= BroughtInRun(v, events)
    decreases |events|
  {
    RunKeepsChips(v, events[..k]);
    if k == |events| {
      assert events[..k] == events;
    } else {
      var init := events[..|events| - 1];
      BroughtGrows(v, init, k);
      assert init[..k] == events[..k];
      RunKeepsChips(v, init);
      StepKeepsChips(Run(v, init), events[|events| - 1]);
    }
  }

  /** From the start of a hand: the chips, the raises, and by how much the pot and the recorded bets differ. */
  lemma HandKeepsChips(
    stacks: seq<int>, order: seq<Card>, staleBets: seq<int>, staleFolded: seq<bool>, events: seq<Event>)
    requires |stacks| == 2 && |order| >= 4 && NonNegativeStacks(stacks)
    ensures
      var start := Started(stacks, order, staleBets, staleFolded);
      var v, brought := Run(start, events), BroughtInRun(start, events);
      && Sum(v.stacks) + v.book.pot == Sum(stacks) + brought
      && v.book.pot - Sum(v.book.bets) == brought - Sum(Resize(staleBets, 2, 0))
      && NonNegativeStacks(v.stacks)
      && v.book.minRaise >= 4
      && 4 * Raises(v.book.history) <= Sum(stacks) + brought
  {
    var start := Started(stacks, order, staleBets, staleFolded);
    RunKeepsChips(start, events);
    SumNonNegative(Run(start, events).stacks);
  }

  /**
   * The pot equals the recorded bets in every state of a run exactly when the vector reused at the start
   * held bets adding up to nothing, as a new or reset hand's does, and no stranger brought a chip.
   */
  lemma PotIsBetsThroughout(
    stacks: seq<int>, order: seq<Card>, staleBets: seq<int>, staleFolded: seq<bool>, events: seq<Event>)
    requires |stacks| == 2 && |order| >= 4 && NonNegativeStacks(stacks)
    ensures
      var start := Started(stacks, order, staleBets, staleFolded);
      (forall k :: 0 <= k <= |events| ==> Run(start, events[..k]).book.pot == Sum(Run(start, events[..k]).book.bets))
      <==> Sum(Resize(staleBets, 2, 0)) == 0 && BroughtInRun(start, events) == 0
  {
    hide Run, BroughtInRun, Started, Sum;
    var start := Started(stacks, order, staleBets, staleFolded);
    StartIsWellFormed(stacks, order, staleBets, staleFolded);
    assert events[..|events|] == events && events[..0] == [];
    HandKeepsChips(stacks, order, staleBets, staleFolded, []);
    NothingBroughtYet(start);
    forall k | 0 <= k <= |events|
      ensures Run(start, events[..k]).book.pot - Sum(Run(start, events[..k]).book.bets)
           == BroughtInRun(start, events[..k]) - Sum(Resize(staleBets, 2, 0))
      ensures 0 <= BroughtInRun(start, events[..k]) <= BroughtInRun(start, events)
    {
      HandKeepsChips(stacks, order, staleBets, staleFolded, events[..k]);
      BroughtGrows(start, events, k);
    }
  }

  lemma StartIsWellFormed(stacks: seq<int>, order: seq<Card>, staleBets: seq<int>, staleFolded: seq<bool>)
    requires |stacks| == 2 && |order| >= 4
    ensures
      var start := Started(stacks, order, staleBets, staleFolded);
      WellFormed(start) && start.book.minRaise == BIG_BLIND && start.stacks == stacks
  {
  }

  lemma NothingBroughtYet(v: HandView)
    ensures BroughtInRun(v, []) == 0
  {
  }

  // ---------- The history is the record ----------

  /** The record rebuilt from a history alone, for a hand in which `first` was to act first. */
  ghost function Replay(players: nat, first: nat, history: seq<Entry>): Book {
    if history == [] then
      Book(players, seq(players, _ => 0), seq(players, _ => false), 0, BIG_BLIND, first, [])
    else
      var last := history[|history| - 1];
      Record(Replay(players, first, history[..|history| - 1]), last.who, last.action, last.amount)
  }

  ghost predicate Logged(b: Book, first: nat) {
    b == Replay(b.players, first, b.history)
  }

  lemma RecordIsLogged(b: Book, first: nat, who: nat, action: ActionKind, amount: int)
    requires Logged(b, first)
    ensures Logged(Record(b, who, action, amount), first)
  {
  }

  lemma {:induction false} ReplayIsSized(players: nat, first: nat, history: seq<Entry>)
    ensures IsSized(Replay(players, first, history)) && Replay(players, first, history).players == players
    ensures Replay(players, first, history).history == history
    decreases |history|
  {
    if history != [] {
      var init, last := history[..|history| - 1], history[|history| - 1];
      ReplayIsSized(players, first, init);
      ReplayStep(players, first, history);
      hide Replay, Record;
      RecordShape(Replay(players, first, init), last.who, last.action, last.amount);
    }
  }

  lemma RecordShape(b: Book, who: nat, action: ActionKind, amount: int)
    ensures
      var after := Record(b, who, action, amount);
      IsSized(after) && after.players == b.players && after.history == b.history + [Entry(who, action, amount)]
  {
  }

  ghost predicate FoldedIn(history: seq<Entry>, i: nat) {
    exists k :: 0 <= k < |history| && history[k].who == i && history[k].action.Fold?
  }

  /** The replay has folded exactly the players whose fold is in the history. */
  lemma {:induction false} ReplayFolds(players: nat, first: nat, history: seq<Entry>, i: nat)
    requires i < players
    ensures |Replay(players, first, history).folded| == players
    ensures Replay(players, first, history).folded[i] <==> FoldedIn(history, i)
    decreases |history|
  {
    ReplayIsSized(players, first, history);
    if history != [] {
      var init, last := history[..|history| - 1], history[|history| - 1];
      ReplayIsSized(players, first, init);
      ReplayFolds(players, first, init, i);
      FoldedStep(history, i);
      ReplayStep(players, first, history);
      hide FoldedIn, Replay, Record;
      RecordFolds(Replay(players, first, init), last.who, last.action, last.amount, i);
    }
  }

  lemma RecordFolds(b: Book, who: nat, action: ActionKind, amount: int, i: nat)
    requires IsSized(b) && i < b.players
    ensures
      var after := Record(b, who, action, amount);
      |after.folded| == b.players && (after.folded[i] <==> b.folded[i] || (who == i && action.Fold?))
  {
    assert Sized(b) == b;
  }

  lemma ReplayStep(players: nat, first: nat, history: seq<Entry>)
    requires history != []
    ensures
      var init, last := history[..|history| - 1], history[|history| - 1];
      Replay(players, first, history) == Record(Replay(players, first, init), last.who, last.action, last.amount)
  {
  }

  lemma FoldedStep(history: seq<Entry>, i: nat)
    requires history != []
    ensures
      var init, last := history[..|history| - 1], history[|history| - 1];
      FoldedIn(history, i) <==> FoldedIn(init, i) || (last.who == i && last.action.Fold?)
  {
    var init := history[..|history| - 1];
    if k :| 0 <= k < |init| && init[k].who == i && init[k].action.Fold? {
      assert history[k] == init[k];
    }
  }

  /** The record is the replay on top of what the per-player vectors held before. */
  ghost predicate LoggedOver(b: Book, first: nat, bets: seq<int>, folded: seq<bool>) {
    var replay := Replay(b.players, first, b.history);
    && IsSized(b) && IsSized(replay) && replay.players == b.players == |bets| == |folded|
    && b.pot == replay.pot && b.minRaise == replay.minRaise && b.toAct == replay.toAct
    && (forall i :: 0 <= i < b.players ==> b.bets[i] == bets[i] + replay.bets[i])
    && (forall i :: 0 <= i < b.players ==> (b.folded[i] <==> folded[i] || replay.folded[i]))
  }

  lemma RecordIsLoggedOver(
    b: Book, first: nat, bets: seq<int>, folded: seq<bool>, who: nat, action: ActionKind, amount: int)
    requires LoggedOver(b, first, bets, folded)
    ensures LoggedOver(Record(b, who, action, amount), first, bets, folded)
  {
    var after, replay := Record(b, who, action, amount), Replay(b.players, first, b.history);
    assert after.history[..|after.history| - 1] == b.history;
    assert Sized(b) == b && Sized(replay) == replay;
    ReplayIsSized(b.players, first, after.history);
    assert Replay(b.players, first, after.history) == Record(replay, who, action, amount);
  }

  /**
   * In every state of every run, on new and reused hands alike: replaying the history gives pot, minimum
   * raise and turn, and gives bets and folds on top of those the reused vectors held.
   */
  lemma {:induction false} HistoryRebuildsBook(
    stacks: seq<int>, order: seq<Card>, staleBets: seq<int>, staleFolded: seq<bool>, events: seq<Event>)
    requires |stacks| == 2 && |order| >= 4
    ensures
      var v := Run(Started(stacks, order, staleBets, staleFolded), events);
      && |v.stacks| == 2 && v.book.players == 2
      && LoggedOver(v.book, 0, Resize(staleBets, 2, 0), Resize(staleFolded, 2, false))
    decreases |events|
  {
    if events != [] {
      var e := events[|events| - 1];
      HistoryRebuildsBook(stacks, order, staleBets, staleFolded, events[..|events| - 1]);
      var v := Run(Started(stacks, order, staleBets, staleFolded), events[..|events| - 1]);
      assert Sized(v.book) == v.book;
      if !e.Advance? && Accepted(v, e) {
        RecordIsLoggedOver(v.book, 0, Resize(staleBets, 2, 0), Resize(staleFolded, 2, false),
                           if e.Act? then e.who else 2, e.action, e.amount);
      }
    }
  }

  /**
   * A record over what the vectors held is the replay itself exactly when they held no bets and no folds but
   * repeated ones.
   */
  lemma LoggedIffNothingStale(b: Book, first: nat, bets: seq<int>, folded: seq<bool>)
    requires LoggedOver(b, first, bets, folded)
    ensures Logged(b, first) <==>
      forall i :: 0 <= i < b.players ==> bets[i] == 0 && (folded[i] ==> FoldedIn(b.history, i))
  {
    var replay := Replay(b.players, first, b.history);
    ReplayIsSized(b.players, first, b.history);
    forall i | 0 <= i < b.players
      ensures b.bets[i] == replay.bets[i] <==> bets[i] == 0
      ensures b.folded[i] == replay.folded[i] <==> (folded[i] ==> FoldedIn(b.history, i))
    {
      ReplayFolds(b.players, first, b.history, i);
    }
    assert b == replay <==> b.bets == replay.bets && b.folded == replay.folded;
  }

  /**
   * So the history alone rebuilds the record of a hand exactly when each stale bet is zero and each stale
   * fold was repeated.
   */
  lemma HistoryIsTheRecord(
    stacks: seq<int>, order: seq<Card>, staleBets: seq<int>, staleFolded: seq<bool>, events: seq<Event>)
    requires |stacks| == 2 && |order| >= 4
    ensures
      var b := Run(Started(stacks, order, staleBets, staleFolded), events).book;
      Logged(b, 0) <==>
        forall i :: 0 <= i < 2 ==>
          Resize(staleBets, 2, 0)[i] == 0 && (Resize(staleFolded, 2, false)[i] ==> FoldedIn(b.history, i))
  {
    HistoryRebuildsBook(stacks, order, staleBets, staleFolded, events);
    var b := Run(Started(stacks, order, staleBets, staleFolded), events).book;
    LoggedIffNothingStale(b, 0, Resize(staleBets, 2, 0), Resize(staleFolded, 2, false));
  }

  // ---------- What the history says of each player ----------

  predicate Pays(action: ActionKind) {
    action.Call? || action.Raise?
  }

  /** The amounts player `who` called and raised. */
  function AmountsOf(history: seq<Entry>, who: nat): int {
    if history == [] then 0
    else
      var last := history[|history| - 1];
      AmountsOf(history[..|history| - 1], who) + if last.who == who && Pays(last.action) then last.amount else 0
  }

  function AllAmounts(history: seq<Entry>): int {
    if history == [] then 0
    else
      var last := history[|history| - 1];
      AllAmounts(history[..|history| - 1]) + if Pays(last.action) then last.amount else 0
  }

  /** The last raise, or the big blind of 4. */
  function LastRaise(history: seq<Entry>): int {
    if history == [] then 4
    else
      var last := history[|history| - 1];
      if last.action.Raise? then last.amount else LastRaise(history[..|history| - 1])
  }

  lemma RecordAmounts(b: Book, who: nat, action: ActionKind, amount: int, i: nat)
    requires IsSized(b) && i < b.players
    ensures
      var after, paid := Record(b, who, action, amount), if Pays(action) then amount else 0;
      && IsSized(after) && after.players == b.players
      && after.bets[i] == b.bets[i] + (if who == i then paid else 0)
      && after.pot == b.pot + paid
      && after.minRaise == (if action.Raise? then amount else b.minRaise)
      && (b.players == 2 && b.toAct < 2 ==> after.toAct == 1 - b.toAct)
  {
    SizedIsItself(b);
  }

  lemma EmptyReplay(players: nat, first: nat)
    ensures
      var b := Replay(players, first, []);
      IsSized(b) && b.players == players && b.pot == 0 && b.minRaise == 4 && b.toAct == first
      && forall i :: 0 <= i < players ==> b.bets[i] == 0
  {
  }

  /**
   * A replay gives each player the sum of that player's amounts as bet, the sum of all as pot, the last
   * raise or 4 as minimum, and to two players the turn in alternation.
   */
  lemma {:induction false} ReplayMeans(players: nat, first: nat, history: seq<Entry>, i: nat)
    requires i < players
    ensures
      var b := Replay(players, first, history);
      && IsSized(b) && b.players == players
      && b.bets[i] == AmountsOf(history, i)
      && b.pot == AllAmounts(history)
      && b.minRaise == LastRaise(history)
      && (players == 2 && first < 2 ==> b.toAct == (first + |history|) % 2)
    decreases |history|
  {
    hide Replay, Record, Sized;
    if history == [] {
      EmptyReplay(players, first);
    } else {
      var init, last := history[..|history| - 1], history[|history| - 1];
      ReplayMeans(players, first, init, i);
      ReplayStep(players, first, history);
      RecordAmounts(Replay(players, first, init), last.who, last.action, last.amount, i);
    }
  }

  /** The accepted actions of a run, in order; a stranger stands past the last player. */
  function AcceptedEntries(v: HandView, events: seq<Event>): seq<Entry> {
    if events == [] then []
    else
      var init, e := events[..|events| - 1], events[|events| - 1];
      AcceptedEntries(v, init) +
      if e.Advance? || !Accepted(Run(v, init), e) then []
      else [Entry(if e.Act? then e.who else v.book.players, e.action, e.amount)]
  }

  /** The history grows by exactly the accepted actions, and each player's stack falls by the player's own amounts. */
  lemma {:induction false} RunPaysOwnAmounts(v: HandView, events: seq<Event>, i: nat)
    requires WellFormed(v) && i < |v.stacks|
    ensures
      var w, entries := Run(v, events), AcceptedEntries(v, events);
      && WellFormed(w) && w.book.players == v.book.players
      && w.book.history == v.book.history + entries
      && w.stacks[i] == v.stacks[i] - AmountsOf(entries, i)
    decreases |events|
  {
    if events != [] {
      var init, e := events[..|events| - 1], events[|events| - 1];
      RunPaysOwnAmounts(v, init, i);
      var before, entries := Run(v, init), AcceptedEntries(v, init);
      SizedIsItself(before.book);
      hide Record, Sized;
      if !e.Advance? && Accepted(before, e) {
        var entry := Entry(if e.Act? then e.who else v.book.players, e.action, e.amount);
        RecordShape(before.book, entry.who, e.action, e.amount);
        assert (entries + [entry])[..|entries|] == entries;
      } else {
        assert entries + [] == entries;
      }
    }
  }

  /** From a start, in numbers: each player's stack and bet, the pot, the minimum raise and the turn. */
  lemma HandByAmounts(
    stacks: seq<int>, order: seq<Card>, staleBets: seq<int>, staleFolded: seq<bool>, events: seq<Event>, i: nat)
    requires |stacks| == 2 && |order| >= 4 && i < 2
    ensures
      var start := Started(stacks, order, staleBets, staleFolded);
      var v, entries := Run(start, events), AcceptedEntries(start, events);
      && |v.stacks| == |v.book.bets| == 2
      && v.book.history == entries
      && v.stacks[i] == stacks[i] - AmountsOf(entries, i)
      && v.book.bets[i] == Resize(staleBets, 2, 0)[i] + AmountsOf(entries, i)
      && v.book.pot == AllAmounts(entries)
      && v.book.minRaise == LastRaise(entries)
      && v.book.toAct == |entries| % 2
  {
    hide Run, AcceptedEntries, Replay, AmountsOf, AllAmounts, LastRaise, Resize;
    var start := Started(stacks, order, staleBets, staleFolded);
    StartIsWellFormed(stacks, order, staleBets, staleFolded);
    RunPaysOwnAmounts(start, events, i);
    HistoryRebuildsBook(stacks, order, staleBets, staleFolded, events);
    var v := Run(start, events);
    assert v.book.history == AcceptedEntries(start, events);
    ReplayMeans(2, 0, v.book.history, i);
  }

  // ---------- Rounds ----------

  function RoundNumber(r: BettingRound): nat {
    match r
    case Preflop => 0
    case Flop => 1
    case Turn => 2
    case River => 3
    case Showdown => 4
  }

  function Advances(events: seq<Event>): nat {
    if events == [] then 0 else Advances(events[..|events| - 1]) + if events[|events| - 1].Advance? then 1 else 0
  }

  lemma StepRound(v: HandView, e: Event)
    ensures RoundNumber(Step(v, e).round) == RoundNumber(v.round) + if e.Advance? &&
      RoundNumber(v.round) < 4 then 1 else 0
  {
    hide Record, Sized;
  }

  /** A hand goes through preflop, flop, turn, river and showdown, one round an advance, and stays at the showdown. */
  lemma {:induction false} RoundsInOrder(v: HandView, events: seq<Event>)
    requires v.round == Preflop
    ensures RoundNumber(Run(v, events).round) == if Advances(events) < 4 then Advances(events) else 4
    decreases |events|
  {
    hide Step;
    if events != [] {
      var init, e := events[..|events| - 1], events[|events| - 1];
      RoundsInOrder(v, init);
      StepRound(Run(v, init), e);
    }
  }

  // ---------- Cards ----------

  function BoardSize(r: BettingRound): nat {
    match r
    case Preflop => 0
    case Flop => 3
    case Turn => 4
    case River => 5
    case Showdown => 5
  }

  /** Hole cards, board and the rest of the deck are the deck; the round fixes the size of the board. */
  ghost predicate CardsInPlace(v: HandView) {
    && |v.hole| == 2 && |v.hole[0]| == |v.hole[1]| == 2
    && |v.board| == BoardSize(v.round)
    && FullDeck(v.hole[0] + v.hole[1] + v.board + v.undealt)
  }

  lemma StartDealsCards(stacks: seq<int>, order: seq<Card>, staleBets: seq<int>, staleFolded: seq<bool>)
    requires |stacks| == 2 && FullDeck(order)
    ensures CardsInPlace(Started(stacks, order, staleBets, staleFolded))
  {
    assert order[..2] + order[2..4] + [] + order[4..] == order;
  }

  lemma CardsLeft(v: HandView)
    requires CardsInPlace(v)
    ensures |v.undealt| == 48 - BoardSize(v.round)
  {
  }

  lemma StepKeepsCards(v: HandView, e: Event)
    requires CardsInPlace(v)
    ensures CardsInPlace(Step(v, e))
    ensures Step(v, e).hole == v.hole
    ensures Step(v, e).hole[0] + Step(v, e).hole[1] + Step(v, e).board + Step(v, e).undealt
         == v.hole[0] + v.hole[1] + v.board + v.undealt
    ensures e.Advance? ==> Dealable(v.undealt, CardsFor(NextRound(v.round))) == CardsFor(NextRound(v.round))
  {
    CardsLeft(v);
    hide FullDeck;
    if e.Advance? && !v.round.Showdown? {
      var n := CardsFor(NextRound(v.round));
      assert v.hole[0] + v.hole[1] + v.board + v.undealt
          == v.hole[0] + v.hole[1] + (v.board + v.undealt[..n]) + v.undealt[n..];
    }
  }

  /**
   * Over any run no card appears twice or vanishes: the cards lie in the order of the shuffled deck, first
   * two hole cards each, then the board of 0, 3, 4, 5 or 5 cards, then the rest; dealing never runs out.
   */
  lemma {:induction false} RunKeepsCards(
      stacks: seq<int>, order: seq<Card>, staleBets: seq<int>, staleFolded: seq<bool>, events: seq<Event>)
    requires |stacks| == 2 && FullDeck(order)
    ensures
      var v := Run(Started(stacks, order, staleBets, staleFolded), events);
      && CardsInPlace(v)
      && |v.hole| == 2 && |v.hole[0]| == |v.hole[1]| == 2
      && v.hole[0] + v.hole[1] + v.board + v.undealt == order
      && (v.round == Preflop ==> |v.board| == 0)
      && (v.round == Flop ==> |v.board| == 3)
      && (v.round == Turn ==> |v.board| == 4)
      && (v.round == River || v.round == Showdown ==> |v.board| == 5)
      && |v.undealt| >= CardsFor(NextRound(v.round))
    decreases |events|
  {
    if events == [] {
      StartDealsCards(stacks, order, staleBets, staleFolded);
      assert order[..2] + order[2..4] + [] + order[4..] == order;
    } else {
      RunKeepsCards(stacks, order, staleBets, staleFolded, events[..|events| - 1]);
      StepKeepsCards(Run(Started(stacks, order, staleBets, staleFolded), events[..|events| - 1]), events[|events| - 1]);
    }
    CardsLeft(Run(Started(stacks, order, staleBets, staleFolded), events));
  }
}
