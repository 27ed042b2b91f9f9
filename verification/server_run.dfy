/** The server's action path as a value, shown to refine the core path. */
module ServerRun {
  import opened HandRun

  /** Growing a vector to hold position `n - 1`. */
  function Grown<T>(s: seq<T>, n: nat, fill: T): (r: seq<T>)
    ensures |r| == if |s| < n then n else |s|
    ensures forall i :: 0 <= i < |r| ==> r[i] == if i < |s| then s[i] else fill
  {
    if |s| < n then s + seq(n - |s|, _ => fill) else s
  }

  /** Whether the server lets player `who` act at all. A missing fold entry counts as not folded. */
  predicate MayAct(b: Book, who: nat, present: bool) {
    present && who < b.players && !(who < |b.folded| && b.folded[who])
  }

  predicate ServerAccepts(b: Book, who: nat, present: bool, stack: int, action: ActionKind, amount: int) {
    && MayAct(b, who, present)
    && !action.Other?
    && amount >= 0
    && (action.Fold? ==> amount == 0)
    && stack >= 0
    && (action.Call? || action.Raise? ==> amount <= stack)
    && (action.Raise? ==> amount >= b.minRaise)
    && b.toAct == who
  }

  function ServerRecord(b: Book, who: nat, action: ActionKind, amount: int): Book {
    b.(folded := if action.Fold? then Grown(b.folded, who + 1, false)[who := true] else b.folded,
       bets := if action.Fold? then b.bets
               else var bets := Grown(b.bets, who + 1, 0); bets[who := bets[who] + amount],
       pot := b.pot + Debit(action, amount),
       minRaise := if action.Raise? then amount else b.minRaise,
       history := b.history + [Entry(who, action, amount)],
       toAct := NextToAct(b))
  }

  ghost predicate Fits(b: Book) {
    |b.bets| <= b.players && |b.folded| <= b.players
  }

  /**
   * The server accepts exactly the core's actions that come from the present, unfolded player in turn, folds
   * without chips.
   */
  lemma ServerAcceptsLess(b: Book, who: nat, present: bool, stack: int, action: ActionKind, amount: int)
    ensures ServerAccepts(b, who, present, stack, action, amount) <==>
      Accepts(b.minRaise, stack, action, amount) && MayAct(b, who, present) && b.toAct == who && stack >= 0
      && (action.Fold? ==> amount == 0)
    ensures ServerAccepts(b, who, present, stack, action, amount) <==>
      && present && who < b.players && !(who < |b.folded| && b.folded[who]) && b.toAct == who && stack >= 0
      && ((action == Fold && amount == 0)
          || (action == Call && 0 <= amount <= stack)
          || (action == Raise && 0 <= amount && b.minRaise <= amount <= stack))
    ensures Accepts(b.minRaise, stack, action, amount) <==>
      || action == Fold
      || (action == Call && 0 <= amount <= stack)
      || (action == Raise && 0 <= amount && b.minRaise <= amount <= stack)
  {
  }

  lemma GrownResized<T>(s: seq<T>, who: nat, players: nat, fill: T, x: T)
    requires who < players && |s| <= players
    ensures Resize(Grown(s, who + 1, fill)[who := x], players, fill) == Resize(s, players, fill)[who := x]
  {
  }

  /** What the server records is what the core records, once missing entries are read as their defaults. */
  lemma ServerRefinesCore(b: Book, who: nat, action: ActionKind, amount: int)
    requires Fits(b) && who < b.players && !action.Other?
    ensures Fits(ServerRecord(b, who, action, amount))
    ensures
      var core := Record(b, who, action, amount);
      Sized(ServerRecord(b, who, action, amount)) == core && Record(Sized(b), who, action, amount) == core
  {
    var after := ServerRecord(b, who, action, amount);
    assert Sized(Sized(b)) == Sized(b);
    if action.Fold? {
      GrownResized(b.folded, who, b.players, false, true);
      var bets := Resize(b.bets, b.players, 0);
      assert bets[who := bets[who] + 0] == bets;
    } else {
      var bets := Grown(b.bets, who + 1, 0);
      GrownResized(b.bets, who, b.players, 0, bets[who] + amount);
    }
  }

  // ---------- Runs ----------

  /** A request as the server sees it: `present` is whether that player is connected and not sitting out. */
  datatype Request = Request(who: nat, present: bool, action: ActionKind, amount: int)

  datatype ServerState = ServerState(stacks: seq<int>, book: Book)

  ghost predicate Granted(s: ServerState, r: Request) {
    r.who < |s.stacks| && ServerAccepts(s.book, r.who, r.present, s.stacks[r.who], r.action, r.amount)
  }

  ghost function ServerStep(s: ServerState, r: Request): ServerState {
    if Granted(s, r) then
      ServerState(s.stacks[r.who := s.stacks[r.who] - Debit(r.action, r.amount)],
                  ServerRecord(s.book, r.who, r.action, r.amount))
    else s
  }

  ghost function ServerRun(s: ServerState, requests: seq<Request>): ServerState {
    if requests == [] then s
    else ServerStep(ServerRun(s, requests[..|requests| - 1]), requests[|requests| - 1])
  }

  /** The requests of a run the server granted, as events of the core. */
  ghost function GrantedEvents(s: ServerState, requests: seq<Request>): seq<Event> {
    if requests == [] then []
    else
      var init, last := requests[..|requests| - 1], requests[|requests| - 1];
      GrantedEvents(s, init) +
      if Granted(ServerRun(s, init), last) then [Act(last.who, last.action, last.amount)] else []
  }

  ghost predicate Seated(s: ServerState) {
    |s.stacks| == s.book.players && Fits(s.book)
  }

  ghost function CoreView(s: ServerState): HandView {
    HandView(s.stacks, Sized(s.book), [], [], [], Preflop)
  }

  /**
   * Every server run is a core run: feeding the granted requests to the core accepts each of them and
   * ends with the same stacks, pot, bets, folds, minimum raise, turn and history.
   */
  lemma {:induction false} ServerRunRefinesCore(s: ServerState, requests: seq<Request>)
    requires Seated(s)
    ensures Seated(ServerRun(s, requests))
    ensures Run(CoreView(s), GrantedEvents(s, requests)) == CoreView(ServerRun(s, requests))
    decreases |requests|
  {
    if requests != [] {
      var init, last := requests[..|requests| - 1], requests[|requests| - 1];
      ServerRunRefinesCore(s, init);
      var before := ServerRun(s, init);
      if Granted(before, last) {
        ServerRefinesCore(before.book, last.who, last.action, last.amount);
        var events := GrantedEvents(s, init);
        assert (events + [Act(last.who, last.action, last.amount)])[..|events|] == events;
        ServerAcceptsLess(before.book, last.who, last.present, before.stacks[last.who], last.action, last.amount);
      } else {
        assert GrantedEvents(s, requests) == GrantedEvents(s, init);
      }
    }
  }

  // ---------- Turns ----------

  ghost predicate Alternates(history: seq<Entry>) {
    forall i :: 0 < i < |history| ==> history[i].who != history[i - 1].who
  }

  /** The turn belongs to the player who did not act last. */
  ghost predicate TurnsKept(b: Book) {
    && Alternates(b.history)
    && (b.history != [] ==> b.toAct != b.history[|b.history| - 1].who)
    && (forall i :: 0 <= i < |b.history| ==> b.history[i].who < 2)
  }

  lemma RecordKeepsTurns(b: Book, who: nat, action: ActionKind, amount: int)
    requires b.players == 2 && TurnsKept(b) && b.toAct == who < 2
    ensures TurnsKept(ServerRecord(b, who, action, amount))
    ensures ServerRecord(b, who, action, amount).toAct == 1 - who
  {
  }

  /** Heads-up, the players whose actions are granted strictly alternate. */
  lemma {:induction false} GrantedActionsAlternate(s: ServerState, requests: seq<Request>)
    requires s.book.players == 2 && s.book.history == [] && |s.stacks| == 2
    ensures ServerRun(s, requests).book.players == 2 && |ServerRun(s, requests).stacks| == 2
    ensures TurnsKept(ServerRun(s, requests).book)
    decreases |requests|
  {
    if requests != [] {
      var init, last := requests[..|requests| - 1], requests[|requests| - 1];
      GrantedActionsAlternate(s, init);
      var before := ServerRun(s, init);
      if Granted(before, last) { RecordKeepsTurns(before.book, last.who, last.action, last.amount); }
    }
  }

  /** On the server's unsized vectors too, replaying the history rebuilds the record of the hand. */
  lemma {:induction false} ServerHistoryIsLog(s: ServerState, first: nat, requests: seq<Request>)
    requires Seated(s) && Logged(Sized(s.book), first)
    ensures Seated(ServerRun(s, requests))
    ensures Logged(Sized(ServerRun(s, requests).book), first)
    decreases |requests|
  {
    if requests != [] {
      var init, last := requests[..|requests| - 1], requests[|requests| - 1];
      ServerHistoryIsLog(s, first, init);
      var before := ServerRun(s, init);
      if Granted(before, last) {
        ServerRefinesCore(before.book, last.who, last.action, last.amount);
        RecordIsLogged(Sized(before.book), first, last.who, last.action, last.amount);
      }
    }
  }
}
