/** The table as a value, over any run of joins, leaves, hands and actions. */
module TableRun {
  import opened Selections
  import opened Players
  import opened HandRun
  import opened ServerRun

  datatype TableState = WaitingForPlayers | HandInProgress | HandComplete

  datatype Seat = Seat(id: string, stack: int, status: ConnectionStatus, sittingOut: bool)

  /** The two seats, the record of the current hand if there is one, and the table's own fields. */
  datatype TableView = TableView(
    seat1: Option<Seat>, seat2: Option<Seat>, hand: Option<Book>, pot: int, button: nat, state: TableState)
  {
    function At(i: nat): Option<Seat> {
      if i == 0 then seat1 else if i == 1 then seat2 else None
    }

    function Put(i: nat, s: Option<Seat>): TableView {
      if i == 0 then this.(seat1 := s) else if i == 1 then this.(seat2 := s) else this
    }
  }

  const EMPTY_TABLE := TableView(None, None, None, 0, 0, WaitingForPlayers)

  predicate Holds(s: Option<Seat>, id: string) {
    s.Some? && s.value.id == id
  }

  /** The seat of a player, or 2. */
  function SeatOf(v: TableView, id: string): nat {
    if Holds(v.seat1, id) then 0 else if Holds(v.seat2, id) then 1 else 2
  }

  function IsPresent(s: Seat): bool {
    s.status.Connected? && !s.sittingOut
  }

  // ---------- The operations ----------

  predicate CanAssign(v: TableView, id: string, seat: int) {
    0 <= seat <= 1 && v.At(seat).None? && SeatOf(v, id) == 2
  }

  function Assign(v: TableView, s: Seat, seat: int): TableView {
    if CanAssign(v, s.id, seat) then v.Put(seat, Some(s)) else v
  }

  function Remove(v: TableView, id: string): TableView {
    v.Put(SeatOf(v, id), None)
  }

  predicate CanStart(v: TableView) {
    v.state.WaitingForPlayers? && v.seat1.Some? && v.seat2.Some? && v.hand.None?
  }

  function FirstToAct(button: nat): nat {
    if button == 0 then 1 else 0
  }

  /** The player after the button acts first; the per-player vectors start empty. */
  function NewHand(button: nat): Book {
    Book(2, [], [], 0, BIG_BLIND, FirstToAct(button), [])
  }

  function Start(v: TableView): TableView {
    if CanStart(v) then v.(hand := Some(NewHand(v.button)), pot := 0, state := HandInProgress) else v
  }

  predicate CanPlay(v: TableView, id: string, action: ActionKind, amount: int) {
    v.hand.Some? && v.At(SeatOf(v, id)).Some? &&
    var s := v.At(SeatOf(v, id)).value;
    ServerAccepts(v.hand.value, SeatOf(v, id), IsPresent(s), s.stack, action, amount)
  }

  function Play(v: TableView, id: string, action: ActionKind, amount: int): TableView {
    if !CanPlay(v, id, action, amount) then v
    else
      var i := SeatOf(v, id);
      var s := v.At(i).value;
      var book := ServerRecord(v.hand.value, i, action, amount);
      v.Put(i, Some(s.(stack := s.stack - Debit(action, amount)))).(hand := Some(book), pot := book.pot)
  }

  predicate HasFolded(b: Book, i: nat) {
    i < |b.folded| && b.folded[i]
  }

  function Standing(b: Book): nat {
    (if HasFolded(b, 0) then 0 else 1) + if HasFolded(b, 1) then 0 else 1
  }

  /** The last player standing. */
  function LastStanding(b: Book): nat {
    if HasFolded(b, 0) then 1 else 0
  }

  function Award(s: Option<Seat>, chips: int): Option<Seat> {
    if s.Some? && chips > 0 then Some(s.value.(stack := s.value.stack + chips)) else s
  }

  function Refill(s: Option<Seat>): Option<Seat> {
    if s.Some? then Some(s.value.(stack := ToppedUp(s.value.stack))) else s
  }

  /** The seats after the pot of a hand with at most one player standing has been paid out. */
  function PaidOut(v: TableView): TableView
    requires v.hand.Some?
  {
    var b := v.hand.value;
    if Standing(b) == 1 then v.Put(LastStanding(b), Award(v.At(LastStanding(b)), b.pot)) else v
  }

  /**
   * Ending a hand: pay the last player standing, top up, clear the hand, move the button. With both
   * standing no winner can be evaluated (nobody has five cards), the exception leaves the table alone.
   */
  function End(v: TableView): TableView {
    if v.hand.None? || Standing(v.hand.value) == 2 then v
    else
      var paid := PaidOut(v);
      paid.(seat1 := Refill(paid.seat1), seat2 := Refill(paid.seat2),
            hand := None, pot := 0, button := (v.button + 1) % 2, state := WaitingForPlayers)
  }

  // ---------- Events ----------

  datatype TableEvent =
    | Join(id: string)
    | Leave(id: string)
    | StartHand
    | Act(id: string, action: ActionKind, amount: int)
    | Presence(id: string, status: ConnectionStatus, sittingOut: bool)

  /** A new player takes the first empty seat with a starting stack; a full table starts a hand. */
  function JoinSeat(v: TableView): int {
    if v.seat1.None? then 0 else if v.seat2.None? then 1 else -1
  }

  function Newcomer(id: string): Seat {
    Seat(id, STARTING_STACK, Connected, false)
  }

  predicate IsComplete(v: TableView) {
    v.hand.Some? && Standing(v.hand.value) <= 1
  }

  function Driven(v: TableView, e: TableEvent): TableView {
    match e
    case Join(id) =>
      if CanAssign(v, id, JoinSeat(v)) then Start(Assign(v, Newcomer(id), JoinSeat(v))) else v
    case Leave(id) => if v.hand.None? then Remove(v, id) else v
    case StartHand => Start(v)
    case Act(id, action, amount) =>
      var played := Play(v, id, action, amount);
      if CanPlay(v, id, action, amount) && IsComplete(played) then End(played) else played
    case Presence(id, status, sittingOut) =>
      var i := SeatOf(v, id);
      if v.At(i).Some? then v.Put(i, Some(v.At(i).value.(status := status, sittingOut := sittingOut))) else v
  }

  function TableAfter(events: seq<TableEvent>): TableView {
    if events == [] then EMPTY_TABLE else Driven(TableAfter(events[..|events| - 1]), events[|events| - 1])
  }

  // ---------- Accounting ----------

  function StackAt(s: Option<Seat>): int {
    if s.Some? then s.value.stack else 0
  }

  /** All chips on the table: both stacks and the pot of the hand. */
  function Chips(v: TableView): int {
    StackAt(v.seat1) + StackAt(v.seat2) + if v.hand.Some? then v.hand.value.pot else 0
  }

  function TopUpOf(s: Option<Seat>): int {
    if s.Some? then ToppedUp(s.value.stack) - s.value.stack else 0
  }

  /** A top-up brings a stack below 20 to 400 and never takes a chip. */
  lemma TopUpsOnlyAdd(s: Option<Seat>)
    requires s.Some?
    ensures StackAt(s) + TopUpOf(s) == if StackAt(s) < 20 then 400 else StackAt(s)
    ensures TopUpOf(s) >= 0
  {
  }

  predicate Completes(v: TableView, e: TableEvent) {
    e.Act? && CanPlay(v, e.id, e.action, e.amount) && IsComplete(Play(v, e.id, e.action, e.amount))
  }

  /** The chips an event brings in: a buy-in, minus a departing stack, or the top-ups after a hand. */
  function Injected(v: TableView, e: TableEvent): int {
    match e
    case Join(id) => if CanAssign(v, id, JoinSeat(v)) then STARTING_STACK else 0
    case Leave(id) => if v.hand.None? then -StackAt(v.At(SeatOf(v, id))) else 0
    case Act(id, action, amount) =>
      if Completes(v, e) then
        var paid := PaidOut(Play(v, id, action, amount));
        TopUpOf(paid.seat1) + TopUpOf(paid.seat2)
      else 0
    case _ => 0
  }

  function TotalInjected(events: seq<TableEvent>): int {
    if events == [] then 0
    else TotalInjected(events[..|events| - 1]) + Injected(TableAfter(events[..|events| - 1]), events[|events| - 1])
  }

  function HandsCompleted(events: seq<TableEvent>): nat {
    if events == [] then 0
    else HandsCompleted(events[..|events| - 1])
         + if Completes(TableAfter(events[..|events| - 1]), events[|events| - 1]) then 1 else 0
  }

  // ---------- The invariant ----------

  ghost predicate HandInv(b: Book, button: nat) {
    && b.players == 2 && Fits(b)
    && b.folded == []
    && b.pot >= 0 && b.minRaise >= BIG_BLIND
    && Logged(Sized(b), FirstToAct(button)) && TurnsKept(b)
  }

  ghost predicate SeatInv(s: Option<Seat>) {
    s.Some? ==> s.value.stack >= 0
  }

  ghost predicate TableInv(v: TableView) {
    && (v.state.HandInProgress? <==> v.hand.Some?) && !v.state.HandComplete?
    && SeatInv(v.seat1) && SeatInv(v.seat2)
    && (v.seat1.Some? && v.seat2.Some? ==> v.seat1.value.id != v.seat2.value.id)
    && v.button < 2
    && (v.hand.Some? ==> v.seat1.Some? && v.seat2.Some? && HandInv(v.hand.value, v.button) && v.pot == v.hand.value.pot)
    && (v.hand.None? ==> v.pot == 0)
  }

  lemma StartKeeps(v: TableView)
    requires TableInv(v)
    ensures TableInv(Start(v)) && Chips(Start(v)) == Chips(v)
    ensures Start(v).button == v.button
    ensures Start(v).hand.Some? <==> v.hand.Some? || (v.seat1.Some? && v.seat2.Some?)
    ensures v.hand.None? && Start(v).hand.Some? ==>
      var b := Start(v).hand.value;
      (v.button == 0 ==> b.toAct == 1) && (v.button == 1 ==> b.toAct == 0) && b.pot == 0 && b.minRaise == 4
  {
  }

  lemma AssignKeeps(v: TableView, s: Seat, seat: int)
    requires TableInv(v) && s.stack >= 0 && v.hand.None?
    ensures TableInv(Assign(v, s, seat))
    ensures Chips(Assign(v, s, seat)) == Chips(v) + if CanAssign(v, s.id, seat) then s.stack else 0
    ensures CanAssign(v, s.id, seat) <==>
      (seat == 0 || seat == 1) && v.At(seat).None?
      && forall i: nat :: i < 2 && v.At(i).Some? ==> v.At(i).value.id != s.id
    ensures CanAssign(v, s.id, seat) ==>
      Assign(v, s, seat).At(seat) == Some(s) && Assign(v, s, seat).At(1 - seat) == v.At(1 - seat)
    ensures !CanAssign(v, s.id, seat) ==> Assign(v, s, seat) == v
  {
    assert v.At(0) == v.seat1 && v.At(1) == v.seat2;
  }

  /** Removing a player empties the seat that holds the id and no other. */
  lemma RemoveEmptiesOneSeat(v: TableView, id: string, i: nat)
    requires TableInv(v) && i < 2
    ensures Remove(v, id).At(i) == if v.At(i).Some? && v.At(i).value.id == id then None else v.At(i)
    ensures Remove(v, id).hand == v.hand && Remove(v, id).button == v.button && Remove(v, id).state == v.state
  {
    hide HandInv;
  }

  /** A granted action keeps the record of the hand, up to the fold that ends it. */
  lemma GrantedKeepsBook(b: Book, button: nat, i: nat, present: bool, stack: int, action: ActionKind, amount: int)
    requires HandInv(b, button) && ServerAccepts(b, i, present, stack, action, amount)
    ensures
      var after := ServerRecord(b, i, action, amount);
      && i < 2 && 0 <= Debit(action, amount) <= stack
      && after.pot == b.pot + Debit(action, amount)
      && Standing(after) == (if action.Fold? then 1 else 2)
      && (action.Fold? ==> HasFolded(after, i) && !HasFolded(after, 1 - i))
      && (!action.Fold? ==> HandInv(after, button))
  {
    var after := ServerRecord(b, i, action, amount);
    ServerRefinesCore(b, i, action, amount);
    RecordIsLogged(Sized(b), FirstToAct(button), i, action, amount);
    RecordKeepsTurns(b, i, action, amount);
    hide Logged, Replay, Record, TurnsKept;
    assert after.minRaise >= BIG_BLIND;
  }

  /**
   * The completeness test reads `folded` at both positions after every accepted action. Both entries
   * exist exactly when the action is a fold by the second seat: the vector starts empty and a fold
   * grows it only to the folding player's position.
   */
  lemma FoldFlagsInBounds(v: TableView, id: string, action: ActionKind, amount: int)
    requires TableInv(v) && CanPlay(v, id, action, amount)
    ensures |Play(v, id, action, amount).hand.value.folded| >= 2 <==> action.Fold? && SeatOf(v, id) == 1
  {
    hide Logged, TurnsKept, Sized;
  }

  /** When the table lets an action through, condition by condition. */
  lemma CanPlayMeans(v: TableView, id: string, action: ActionKind, amount: int)
    ensures CanPlay(v, id, action, amount) <==>
      && v.hand.Some?
      && exists i: nat :: i < 2 && v.At(i).Some? && i == SeatOf(v, id) &&
           var seat, b := v.At(i).value, v.hand.value;
           && seat.id == id && seat.status == Connected && !seat.sittingOut && seat.stack >= 0
           && i < b.players && b.toAct == i && !(i < |b.folded| && b.folded[i])
           && ((action == Fold && amount == 0)
               || (action == Call && 0 <= amount <= seat.stack)
               || (action == Raise && 0 <= amount && b.minRaise <= amount <= seat.stack))
  {
    assert v.At(0) == v.seat1 && v.At(1) == v.seat2;
  }

  /** The acting seat pays exactly the amount of a call or raise, into the pot; the other seat keeps its chips. */
  lemma PlayMovesAmount(v: TableView, id: string, action: ActionKind, amount: int)
    requires TableInv(v) && CanPlay(v, id, action, amount)
    ensures
      var i, w := SeatOf(v, id), Play(v, id, action, amount);
      var paid := if action == Fold then 0 else amount;
      && i < 2 && w.hand.Some?
      && StackAt(w.At(i)) == StackAt(v.At(i)) - paid
      && w.At(1 - i) == v.At(1 - i)
      && w.hand.value.pot == v.hand.value.pot + paid
      && w.hand.value.minRaise == (if action == Raise then amount else v.hand.value.minRaise)
      && w.hand.value.toAct == 1 - i
  {
    hide Logged, Replay, Sized;
  }

  /** Accepted or not, an action moves chips between a stack and the pot, and only a fold completes the hand. */
  lemma PlayKeeps(v: TableView, id: string, action: ActionKind, amount: int)
    requires TableInv(v)
    ensures
      var w := Play(v, id, action, amount);
      && Chips(w) == Chips(v) && w.button == v.button
      && (Completes(v, TableEvent.Act(id, action, amount)) <==> CanPlay(v, id, action, amount) && action.Fold?)
      && (!Completes(v, TableEvent.Act(id, action, amount)) ==> TableInv(w))
  {
    hide HandInv, ServerAccepts, ServerRecord;
    if CanPlay(v, id, action, amount) {
      var i := SeatOf(v, id);
      var s := v.At(i).value;
      GrantedKeepsBook(v.hand.value, v.button, i, IsPresent(s), s.stack, action, amount);
    }
  }

  /** A fold ends the hand: the other player collects the whole pot, short stacks are refilled, the button moves. */
  lemma EndKeeps(v: TableView, id: string, action: ActionKind, amount: int)
    requires TableInv(v) && Completes(v, TableEvent.Act(id, action, amount))
    ensures
      var played := Play(v, id, action, amount);
      var paid := PaidOut(played);
      var w := End(played);
      && TableInv(w) && w.hand.None? && w.button == (v.button + 1) % 2
      && StackAt(paid.seat1) + StackAt(paid.seat2) == Chips(v)
      && StackAt(paid.At(1 - SeatOf(v, id))) == StackAt(v.At(1 - SeatOf(v, id))) + v.hand.value.pot
      && Chips(w) == Chips(v) + TopUpOf(paid.seat1) + TopUpOf(paid.seat2)
      && w.seat1.Some? && w.seat2.Some?
      && w.seat1.value.stack >= TOP_UP_THRESHOLD && w.seat2.value.stack >= TOP_UP_THRESHOLD
      && (var lost := StackAt(v.At(SeatOf(v, id))); StackAt(w.At(SeatOf(v, id))) == if lost < 20 then 400 else lost)
      && (var won := StackAt(v.At(1 - SeatOf(v, id))) + v.hand.value.pot;
          StackAt(w.At(1 - SeatOf(v, id))) == if won < 20 then 400 else won)
      && Chips(w) >= Chips(v)
  {
    PlayKeeps(v, id, action, amount);
    var i := SeatOf(v, id);
    var s := v.At(i).value;
    GrantedKeepsBook(v.hand.value, v.button, i, IsPresent(s), s.stack, action, amount);
    hide HandInv, ServerAccepts, ServerRecord, HasFolded, Completes, IsComplete;
    FoldPaysOther(v, id, action, amount);
    var played := Play(v, id, action, amount);
    EndClearsTable(played);
  }

  /** After a fold the other player's stack grows by the pot. */
  lemma FoldPaysOther(v: TableView, id: string, action: ActionKind, amount: int)
    requires TableInv(v) && CanPlay(v, id, action, amount) && action.Fold?
    ensures
      var played := Play(v, id, action, amount);
      var paid := PaidOut(played);
      && played.hand.Some? && Standing(played.hand.value) == 1
      && StackAt(paid.seat1) + StackAt(paid.seat2) == Chips(v)
      && StackAt(paid.At(1 - SeatOf(v, id))) == StackAt(v.At(1 - SeatOf(v, id))) + v.hand.value.pot
      && StackAt(paid.At(SeatOf(v, id))) == StackAt(v.At(SeatOf(v, id)))
      && SeatInv(paid.seat1) && SeatInv(paid.seat2) && paid.seat1.Some? && paid.seat2.Some?
      && paid.seat1.value.id == v.seat1.value.id && paid.seat2.value.id == v.seat2.value.id
  {
    var i := SeatOf(v, id);
    var s := v.At(i).value;
    GrantedKeepsBook(v.hand.value, v.button, i, IsPresent(s), s.stack, action, amount);
    hide HandInv, ServerAccepts, ServerRecord, Logged, TurnsKept;
  }

  /** Ending a hand with one player standing refills, clears the hand and moves the button. */
  lemma EndClearsTable(v: TableView)
    requires v.hand.Some? && Standing(v.hand.value) == 1
    requires SeatInv(PaidOut(v).seat1) && SeatInv(PaidOut(v).seat2) && PaidOut(v).seat1.Some? && PaidOut(v).seat2.Some?
    requires PaidOut(v).seat1.value.id != PaidOut(v).seat2.value.id
    ensures
      var paid := PaidOut(v);
      var w := End(v);
      && TableInv(w) && w.hand.None? && w.button == (v.button + 1) % 2
      && Chips(w) == StackAt(paid.seat1) + StackAt(paid.seat2) + TopUpOf(paid.seat1) + TopUpOf(paid.seat2)
      && w.seat1.Some? && w.seat2.Some?
      && w.seat1.value.stack == (if paid.seat1.value.stack < 20 then 400 else paid.seat1.value.stack)
      && w.seat2.value.stack == (if paid.seat2.value.stack < 20 then 400 else paid.seat2.value.stack)
  {
  }

  /** Every event keeps the invariant and accounts for every chip. */
  lemma DrivenKeeps(v: TableView, e: TableEvent)
    requires TableInv(v)
    ensures TableInv(Driven(v, e))
    ensures Chips(Driven(v, e)) == Chips(v) + Injected(v, e)
    ensures Driven(v, e).button == if Completes(v, e) then (v.button + 1) % 2 else v.button
  {
    hide HandInv;
    match e
    case Join(id) =>
      if CanAssign(v, id, JoinSeat(v)) {
        AssignKeeps(v, Newcomer(id), JoinSeat(v));
        StartKeeps(Assign(v, Newcomer(id), JoinSeat(v)));
      }
    case Leave(id) =>
    case StartHand => StartKeeps(v);
    case Act(id, action, amount) =>
      PlayKeeps(v, id, action, amount);
      if Completes(v, e) { EndKeeps(v, id, action, amount); }
    case Presence(id, status, sittingOut) =>
  }

  lemma EmptyTableInv()
    ensures TableInv(EMPTY_TABLE) && Chips(EMPTY_TABLE) == 0 && EMPTY_TABLE.button == 0
  {
  }

  /**
   * After any sequence of events: the chips on the table are exactly the buy-ins, departures and
   * top-ups; a hand is in progress iff one exists; the table's pot is the hand's pot; the seats hold
   * different players; the button has moved once per completed hand.
   */
  lemma {:induction false} TableRunKeeps(events: seq<TableEvent>)
    ensures TableInv(TableAfter(events))
    ensures Chips(TableAfter(events)) == TotalInjected(events)
    ensures TableAfter(events).button == HandsCompleted(events) % 2
    decreases |events|
  {
    EmptyTableInv();
    hide TableInv, Driven, Injected, Completes, Chips;
    if events != [] {
      var init := events[..|events| - 1];
      TableRunKeeps(init);
      DrivenKeeps(TableAfter(init), events[|events| - 1]);
    }
  }

  /**
   * When the last event completed a hand, the folding seat has what it had, the other seat has won the pot,
   * and each is brought to 400 if that leaves it below 20 and left alone otherwise.
   */
  lemma CompletedHandPays(events: seq<TableEvent>)
    requires events != [] && Completes(TableAfter(events[..|events| - 1]), events[|events| - 1])
    ensures
      var v, w := TableAfter(events[..|events| - 1]), TableAfter(events);
      var i := SeatOf(v, events[|events| - 1].id);
      && i < 2 && v.hand.Some? && w.hand.None? && w.seat1.Some? && w.seat2.Some?
      && (var lost := StackAt(v.At(i)); StackAt(w.At(i)) == if lost < 20 then 400 else lost)
      && (var won := StackAt(v.At(1 - i)) + v.hand.value.pot; StackAt(w.At(1 - i)) == if won < 20 then 400 else won)
  {
    hide TableInv, Completes, Driven, SeatOf, StackAt, Chips, TotalInjected, HandsCompleted;
    var init, e := events[..|events| - 1], events[|events| - 1];
    TableRunKeeps(init);
    CompletionPays(TableAfter(init), e);
  }

  lemma CompletionPays(v: TableView, e: TableEvent)
    requires TableInv(v) && Completes(v, e)
    ensures
      var w, i := Driven(v, e), SeatOf(v, e.id);
      && i < 2 && v.hand.Some? && w.hand.None? && w.seat1.Some? && w.seat2.Some?
      && (var lost := StackAt(v.At(i)); StackAt(w.At(i)) == if lost < 20 then 400 else lost)
      && (var won := StackAt(v.At(1 - i)) + v.hand.value.pot; StackAt(w.At(1 - i)) == if won < 20 then 400 else won)
  {
    hide TableInv, Play, End, PaidOut, IsComplete, StackAt, TopUpOf, Chips;
    EndKeeps(v, e.id, e.action, e.amount);
  }

  /** Ending a hand conserves chips exactly when somebody is left to take the pot, or there is none. */
  lemma EndConservesUnlessAllFolded(v: TableView)
    requires v.hand.Some? && v.seat1.Some? && v.seat2.Some? && v.hand.value.pot >= 0
    ensures
      var paid := PaidOut(v);
      Standing(v.hand.value) < 2 ==>
        (Chips(End(v)) == Chips(v) + TopUpOf(paid.seat1) + TopUpOf(paid.seat2)
         <==> Standing(v.hand.value) == 1 || v.hand.value.pot == 0)
  {
  }

  // ---------- Reading the fold flags ----------

  /** After an accepted action the completeness test reads one flag for each player; here both exist. */
  ghost predicate ReadsInBounds(v: TableView, e: TableEvent) {
    e.Act? && CanPlay(v, e.id, e.action, e.amount) ==> |Play(v, e.id, e.action, e.amount).hand.value.folded| >= 2
  }

  ghost predicate SecondSeatFolds(v: TableView, e: TableEvent) {
    e.Act? && CanPlay(v, e.id, e.action, e.amount) ==> e.action.Fold? && SeatOf(v, e.id) == 1
  }

  /**
   * A run never reads past the fold flags exactly when the only actions accepted in it are folds by the
   * second seat.
   */
  lemma RunReadsInBounds(events: seq<TableEvent>)
    ensures (forall k :: 0 <= k < |events| ==> ReadsInBounds(TableAfter(events[..k]), events[k]))
       <==> (forall k :: 0 <= k < |events| ==> SecondSeatFolds(TableAfter(events[..k]), events[k]))
  {
    forall k | 0 <= k < |events|
      ensures ReadsInBounds(TableAfter(events[..k]), events[k]) <==> SecondSeatFolds(TableAfter(events[..k]), events[k])
    {
      var v, e := TableAfter(events[..k]), events[k];
      TableRunKeeps(events[..k]);
      hide TableInv, TableAfter, CanPlay, Play;
      if e.Act? && CanPlay(v, e.id, e.action, e.amount) { FoldFlagsInBounds(v, e.id, e.action, e.amount); }
    }
  }
}
