/** Sessions, presence and timers as a value, over any run of connections, joins, losses and expiries. */
module SessionRun {
  import opened Selections
  import opened Players
  import opened HandRun
  import opened TableRun

  /** A timer object: absent, armed, or expired but still held. */
  datatype Timer = Absent | Pending | Expired

  datatype Timers = Timers(grace: Timer, removal: Timer)

  type TimerMap = map<string, Timers>

  function TimersOf(ts: TimerMap, id: string): Timers {
    if id in ts then ts[id] else Timers(Absent, Absent)
  }

  function GraceStarted(ts: TimerMap, id: string): TimerMap {
    ts[id := TimersOf(ts, id).(grace := Pending)]
  }

  function RemovalStarted(ts: TimerMap, id: string): TimerMap {
    ts[id := TimersOf(ts, id).(removal := Pending)]
  }

  function Cancelled(ts: TimerMap, id: string): TimerMap {
    ts - {id}
  }

  /** Everything the session layer keeps, over an abstract type of connections. */
  datatype GameView<S> = GameView(
    playerSessions: map<string, S>, sessionToPlayer: map<S, string>, table: TableView, timers: TimerMap)

  // ---------- The session maps ----------

  function Registered<S(==)>(v: GameView<S>, id: string, s: S): GameView<S> {
    v.(playerSessions := v.playerSessions[id := s], sessionToPlayer := v.sessionToPlayer[s := id])
  }

  function SessionRemoved<S(==)>(v: GameView<S>, id: string): GameView<S> {
    if id in v.playerSessions then
      v.(sessionToPlayer := v.sessionToPlayer - {v.playerSessions[id]}, playerSessions := v.playerSessions - {id})
    else v
  }

  /** A rejoining session gives up the player it spoke for and takes over `id`. */
  function Rebound<S(==)>(v: GameView<S>, id: string, s: S): GameView<S> {
    if s in v.sessionToPlayer then
      Registered(v.(playerSessions := v.playerSessions - {v.sessionToPlayer[s]},
        sessionToPlayer := v.sessionToPlayer - {s}), id, s)
    else Registered(v, id, s)
  }

  ghost predicate Inverse<S(!new)>(v: GameView<S>) {
    && (forall id :: id in v.playerSessions ==>
          v.playerSessions[id] in v.sessionToPlayer && v.sessionToPlayer[v.playerSessions[id]] == id)
    && (forall s :: s in v.sessionToPlayer ==>
          v.sessionToPlayer[s] in v.playerSessions && v.playerSessions[v.sessionToPlayer[s]] == s)
  }

  // ---------- Presence ----------

  function WithPresence(t: TableView, id: string, status: ConnectionStatus, sittingOut: bool): TableView {
    Driven(t, Presence(id, status, sittingOut))
  }

  function IsSeated(t: TableView, id: string): bool {
    SeatOf(t, id) < 2
  }

  function SeatFor(t: TableView, id: string): Seat
    requires IsSeated(t, id)
  {
    t.At(SeatOf(t, id)).value
  }

  // ---------- Events ----------

  datatype GameEvent<S> =
    | Welcome(session: S, id: string)
    | JoinTable(session: S)
    | Rejoin(session: S, id: string)
    | Lost(session: S)
    | GraceExpires(id: string)
    | RemovalExpires(id: string)
    | Action(id: string, action: ActionKind, amount: int)

  function Joined<S(==)>(v: GameView<S>, s: S): GameView<S> {
    if s !in v.sessionToPlayer || IsSeated(v.table, v.sessionToPlayer[s]) then v
    else v.(table := Driven(v.table, Join(v.sessionToPlayer[s])))
  }

  predicate CanReconnect(t: TableView, id: string) {
    IsSeated(t, id) && !SeatFor(t, id).status.Connected?
  }

  /** A join naming an earlier player id; unless that player is away it is an ordinary join. */
  function Rejoined<S(==)>(v: GameView<S>, s: S, id: string): GameView<S> {
    if !CanReconnect(v.table, id) then Joined(v, s)
    else if id in v.playerSessions && v.playerSessions[id] != s then v
    else Rebound(v, id, s).(timers := Cancelled(v.timers, id), table := WithPresence(v.table, id, Connected, false))
  }

  function Disconnect<S(==)>(v: GameView<S>, s: S): GameView<S> {
    if s !in v.sessionToPlayer then v
    else
      var id := v.sessionToPlayer[s];
      var w := SessionRemoved(v, id);
      if !IsSeated(v.table, id) then w
      else w.(timers := GraceStarted(v.timers, id), table := WithPresence(v.table, id, Disconnected, false))
  }

  /** The grace period ends: the player sits out and the removal timer starts. */
  function GraceOver<S>(v: GameView<S>, id: string): GameView<S> {
    if TimersOf(v.timers, id).grace.Pending? then
      var fired := v.timers[id := v.timers[id].(grace := Expired)];
      v.(timers := RemovalStarted(fired, id),
         table :=
           if IsSeated(v.table, id) then WithPresence(v.table, id, SeatFor(v.table, id).status, true) else v.table)
    else v
  }

  /** The removal timer only announces the player; nothing else changes. */
  function RemovalOver<S>(v: GameView<S>, id: string): GameView<S> {
    if TimersOf(v.timers, id).removal.Pending? then
      v.(timers := v.timers[id := v.timers[id].(removal := Expired)])
    else v
  }

  function Handled<S(==)>(v: GameView<S>, e: GameEvent<S>): GameView<S> {
    match e
    case Welcome(s, id) => Registered(v, id, s)
    case JoinTable(s) => Joined(v, s)
    case Rejoin(s, id) => Rejoined(v, s, id)
    case Lost(s) => Disconnect(v, s)
    case GraceExpires(id) => GraceOver(v, id)
    case RemovalExpires(id) => RemovalOver(v, id)
    case Action(id, action, amount) => v.(table := Driven(v.table, TableEvent.Act(id, action, amount)))
  }

  /** A welcome goes to a connection not seen before, with an id never used before. */
  ghost predicate Admissible<S>(v: GameView<S>, e: GameEvent<S>) {
    e.Welcome? ==> e.session !in v.sessionToPlayer && e.id !in v.playerSessions && !IsSeated(v.table, e.id)
  }

  ghost function NewGame<S>(): GameView<S> {
    GameView(map[], map[], EMPTY_TABLE, map[])
  }

  ghost function GameAfter<S>(events: seq<GameEvent<S>>): GameView<S> {
    if events == [] then NewGame() else Handled(GameAfter(events[..|events| - 1]), events[|events| - 1])
  }

  ghost predicate AdmissibleRun<S>(events: seq<GameEvent<S>>) {
    events != [] ==>
      var init := events[..|events| - 1];
      AdmissibleRun(init) && Admissible(GameAfter(init), events[|events| - 1])
  }

  // ---------- The invariant ----------

  /** The presence of a seated player, its session and its timers agree. */
  ghost predicate PresenceInv<S>(v: GameView<S>, id: string)
    requires IsSeated(v.table, id)
  {
    var seat, timers := SeatFor(v.table, id), TimersOf(v.timers, id);
    && !seat.status.Reconnecting?
    && (id in v.playerSessions ==> seat.status.Connected?)
    && (id in v.timers <==> seat.status.Disconnected?)
    && (seat.sittingOut <==> timers.grace.Expired?)
    && (timers.grace.Pending? ==> timers.removal.Absent?)
    && (timers.removal.Absent? || timers.grace.Expired?)
    && (id in v.timers ==> !timers.grace.Absent?)
  }

  ghost predicate GameInv<S(!new)>(v: GameView<S>) {
    && Inverse(v)
    && TableInv(v.table)
    && (forall id :: id in v.timers ==> IsSeated(v.table, id))
    && (forall id :: IsSeated(v.table, id) ==> PresenceInv(v, id))
  }

  /** Registering keeps the maps inverse exactly when neither side was bound to someone else. */
  lemma RegisteringKeepsInverse<S(!new)>(v: GameView<S>, id: string, s: S)
    requires Inverse(v)
    ensures Inverse(Registered(v, id, s)) <==>
      (id in v.playerSessions ==> v.playerSessions[id] == s) && (s in v.sessionToPlayer ==> v.sessionToPlayer[s] == id)
  {
    var w := Registered(v, id, s);
    if id in v.playerSessions && v.playerSessions[id] != s {
      var t := v.playerSessions[id];
      assert t in w.sessionToPlayer && w.sessionToPlayer[t] == id && w.playerSessions[id] != t;
    }
    if s in v.sessionToPlayer && v.sessionToPlayer[s] != id {
      var old_id := v.sessionToPlayer[s];
      assert old_id in w.playerSessions && w.playerSessions[old_id] == s && w.sessionToPlayer[s] != old_id;
    }
  }

  lemma RemovingKeepsInverse<S(!new)>(v: GameView<S>, id: string)
    requires Inverse(v)
    ensures Inverse(SessionRemoved(v, id))
  {
  }

  lemma RebindingKeepsInverse<S(!new)>(v: GameView<S>, id: string, s: S)
    requires Inverse(v) && (id in v.playerSessions ==> v.playerSessions[id] == s)
    ensures Inverse(Rebound(v, id, s))
  {
  }

  /** Changing one player's presence changes that seat's presence only. */
  lemma PresenceChangesOneSeat(t: TableView, id: string, status: ConnectionStatus, sittingOut: bool, other: string)
    requires TableInv(t) && IsSeated(t, id)
    ensures
      var w := WithPresence(t, id, status, sittingOut);
      && TableInv(w)
      && SeatOf(w, other) == SeatOf(t, other)
      && (IsSeated(t, other) ==>
            SeatFor(w, other) ==
            if other == id then SeatFor(t, id).(status := status, sittingOut := sittingOut) else SeatFor(t, other))
  {
    DrivenKeeps(t, Presence(id, status, sittingOut));
    hide TableInv;
  }

  ghost predicate SameOccupant(a: Option<Seat>, b: Option<Seat>) {
    a.Some? == b.Some? && (a.Some? ==> b.value == a.value.(stack := b.value.stack))
  }

  ghost predicate SameOccupants(a: TableView, b: TableView) {
    SameOccupant(a.seat1, b.seat1) && SameOccupant(a.seat2, b.seat2)
  }

  lemma PlayingKeepsOccupants(t: TableView, id: string, action: ActionKind, amount: int)
    ensures SameOccupants(t, Play(t, id, action, amount))
  {
  }

  lemma EndingKeepsOccupants(t: TableView)
    ensures SameOccupants(t, End(t))
  {
  }

  /** Actions and hand endings touch chips, never presence. */
  lemma ActingKeepsPresence(t: TableView, id: string, action: ActionKind, amount: int, other: string)
    requires TableInv(t)
    ensures
      var w := Driven(t, TableEvent.Act(id, action, amount));
      && TableInv(w)
      && SeatOf(w, other) == SeatOf(t, other)
      && (IsSeated(t, other) ==>
            SeatFor(w, other).status == SeatFor(t, other).status &&
              SeatFor(w, other).sittingOut == SeatFor(t, other).sittingOut)
  {
    hide TableInv, Play, End, CanPlay, IsComplete;
    DrivenKeeps(t, TableEvent.Act(id, action, amount));
    PlayingKeepsOccupants(t, id, action, amount);
    EndingKeepsOccupants(Play(t, id, action, amount));
  }

  /** A newcomer arrives connected and not sitting out; the others stay as they were. */
  lemma JoiningKeepsPresence(t: TableView, id: string, other: string)
    requires TableInv(t) && !IsSeated(t, id)
    ensures
      var w := Driven(t, Join(id));
      && TableInv(w)
      && (IsSeated(t, other) ==> IsSeated(w, other) && SeatFor(w, other) == SeatFor(t, other))
      && (IsSeated(w, other) && !IsSeated(t, other) ==>
            other == id && SeatFor(w, other).status.Connected? && !SeatFor(w, other).sittingOut)
  {
    DrivenKeeps(t, Join(id));
    hide TableInv;
  }

  lemma JoinedKeeps<S(!new)>(v: GameView<S>, s: S)
    requires GameInv(v)
    ensures GameInv(Joined(v, s))
  {
    if s in v.sessionToPlayer && !IsSeated(v.table, v.sessionToPlayer[s]) {
      var id := v.sessionToPlayer[s];
      var w := Joined(v, s);
      forall other
        ensures IsSeated(v.table, other) ==> IsSeated(w.table, other)
        ensures IsSeated(w.table, other) ==> PresenceInv(w, other)
      {
        JoiningKeepsPresence(v.table, id, other);
        if IsSeated(v.table, other) { assert PresenceInv(v, other); }
      }
      JoiningKeepsPresence(v.table, id, id);
    }
  }

  lemma RejoinedKeeps<S(!new)>(v: GameView<S>, s: S, id: string)
    requires GameInv(v)
    ensures GameInv(Rejoined(v, s, id))
  {
    if !CanReconnect(v.table, id) {
      JoinedKeeps(v, s);
    } else if !(id in v.playerSessions && v.playerSessions[id] != s) {
      var w := Rejoined(v, s, id);
      RebindingKeepsInverse(v, id, s);
      forall other
        ensures IsSeated(w.table, other) == IsSeated(v.table, other)
        ensures IsSeated(w.table, other) ==> PresenceInv(w, other)
      {
        PresenceChangesOneSeat(v.table, id, Connected, false, other);
        if IsSeated(v.table, other) { assert PresenceInv(v, other); }
      }
      PresenceChangesOneSeat(v.table, id, Connected, false, id);
    }
  }

  lemma DisconnectKeeps<S(!new)>(v: GameView<S>, s: S)
    requires GameInv(v)
    ensures GameInv(Disconnect(v, s))
  {
    if s in v.sessionToPlayer {
      var id := v.sessionToPlayer[s];
      var w := Disconnect(v, s);
      RemovingKeepsInverse(v, id);
      forall other
        ensures IsSeated(w.table, other) == IsSeated(v.table, other)
        ensures IsSeated(w.table, other) ==> PresenceInv(w, other)
      {
        if IsSeated(v.table, id) { PresenceChangesOneSeat(v.table, id, Disconnected, false, other); }
        if IsSeated(v.table, other) { assert PresenceInv(v, other); }
      }
      if IsSeated(v.table, id) { PresenceChangesOneSeat(v.table, id, Disconnected, false, id); }
    }
  }

  lemma GraceOverKeeps<S(!new)>(v: GameView<S>, id: string)
    requires GameInv(v)
    ensures GameInv(GraceOver(v, id))
  {
    if TimersOf(v.timers, id).grace.Pending? {
      var w := GraceOver(v, id);
      var status := SeatFor(v.table, id).status;
      forall other
        ensures IsSeated(w.table, other) == IsSeated(v.table, other)
        ensures IsSeated(w.table, other) ==> PresenceInv(w, other)
      {
        PresenceChangesOneSeat(v.table, id, status, true, other);
        if IsSeated(v.table, other) { assert PresenceInv(v, other); }
      }
      PresenceChangesOneSeat(v.table, id, status, true, id);
    }
  }

  lemma RemovalOverKeeps<S(!new)>(v: GameView<S>, id: string)
    requires GameInv(v)
    ensures GameInv(RemovalOver(v, id))
  {
    var w := RemovalOver(v, id);
    forall other | IsSeated(w.table, other) ensures PresenceInv(w, other) {
      assert PresenceInv(v, other);
    }
  }

  lemma ActionKeeps<S(!new)>(v: GameView<S>, id: string, action: ActionKind, amount: int)
    requires GameInv(v)
    ensures GameInv(v.(table := Driven(v.table, TableEvent.Act(id, action, amount))))
  {
    var w := v.(table := Driven(v.table, TableEvent.Act(id, action, amount)));
    forall other
      ensures IsSeated(w.table, other) == IsSeated(v.table, other)
      ensures IsSeated(w.table, other) ==> PresenceInv(w, other)
    {
      ActingKeepsPresence(v.table, id, action, amount, other);
      if IsSeated(v.table, other) { assert PresenceInv(v, other); }
    }
    ActingKeepsPresence(v.table, id, action, amount, id);
  }

  lemma HandledKeeps<S(!new)>(v: GameView<S>, e: GameEvent<S>)
    requires GameInv(v) && Admissible(v, e)
    ensures GameInv(Handled(v, e))
  {
    match e
    case Welcome(s, id) =>
      RegisteringKeepsInverse(v, id, s);
      var w := Registered(v, id, s);
      forall other | IsSeated(w.table, other) ensures PresenceInv(w, other) {
        assert PresenceInv(v, other);
      }
    case JoinTable(s) => JoinedKeeps(v, s);
    case Rejoin(s, id) => RejoinedKeeps(v, s, id);
    case Lost(s) => DisconnectKeeps(v, s);
    case GraceExpires(id) => GraceOverKeeps(v, id);
    case RemovalExpires(id) => RemovalOverKeeps(v, id);
    case Action(id, action, amount) => ActionKeeps(v, id, action, amount);
  }

  /**
   * After any run: the session maps are inverse; a seated player with a live session is connected and
   * not sitting out; timers and sitting out belong to disconnected players; grace and removal are
   * never both pending.
   */
  lemma {:induction false} GameRunKeeps<S(!new)>(events: seq<GameEvent<S>>)
    requires AdmissibleRun(events)
    ensures
      var v := GameAfter(events);
      && Inverse(v) && TableInv(v.table)
      && (forall id :: IsSeated(v.table, id) && id in v.playerSessions ==>
            SeatFor(v.table, id).status.Connected? && !SeatFor(v.table, id).sittingOut)
      && (forall id :: IsSeated(v.table, id) && (id in v.timers || SeatFor(v.table, id).sittingOut) ==>
            SeatFor(v.table, id).status.Disconnected?)
      && (forall id :: id in v.timers ==>
            IsSeated(v.table, id) && !(v.timers[id].grace.Pending? && v.timers[id].removal.Pending?))
  {
    GameInvHolds(events);
    var v := GameAfter(events);
    forall id | IsSeated(v.table, id)
      ensures id in v.playerSessions ==> SeatFor(v.table, id).status.Connected? && !SeatFor(v.table, id).sittingOut
      ensures id in v.timers || SeatFor(v.table, id).sittingOut ==> SeatFor(v.table, id).status.Disconnected?
      ensures id in v.timers ==> !(v.timers[id].grace.Pending? && v.timers[id].removal.Pending?)
    {
      assert PresenceInv(v, id);
    }
  }

  lemma {:induction false} GameInvHolds<S(!new)>(events: seq<GameEvent<S>>)
    requires AdmissibleRun(events)
    ensures GameInv(GameAfter(events))
    decreases |events|
  {
    if events == [] {
      EmptyTableInv();
    } else {
      GameInvHolds(events[..|events| - 1]);
      HandledKeeps(GameAfter(events[..|events| - 1]), events[|events| - 1]);
    }
  }

  /** When the grace period ends the player sits out, the grace timer has expired and the removal timer runs. */
  lemma GraceEndMeans<S(!new)>(v: GameView<S>, id: string, other: string)
    requires TableInv(v.table)
    ensures
      var w := GraceOver(v, id);
      if id !in v.timers || v.timers[id].grace != Pending then w == v
      else
        && w.timers == v.timers[id := Timers(Expired, Pending)]
        && w.playerSessions == v.playerSessions && w.sessionToPlayer == v.sessionToPlayer
        && SeatOf(w.table, other) == SeatOf(v.table, other)
        && (IsSeated(v.table, other) ==>
              var seat := SeatFor(v.table, other);
              SeatFor(w.table, other) == if other == id then Seat(seat.id, seat.stack, seat.status, true) else seat)
  {
    hide TableInv, WithPresence;
    if IsSeated(v.table, id) {
      PresenceChangesOneSeat(v.table, id, SeatFor(v.table, id).status, true, other);
    }
  }

  /** When the removal timer runs out it has expired, and that is all. */
  lemma RemovalEndMeans<S(!new)>(v: GameView<S>, id: string)
    ensures
      var w := RemovalOver(v, id);
      if id !in v.timers || v.timers[id].removal != Pending then w == v
      else w == GameView(v.playerSessions, v.sessionToPlayer, v.table, v.timers[id := Timers(v.timers[id].grace,
        Expired)])
  {
  }

  /** Losing one connection twice is losing it once. */
  lemma RepeatedLossIsNoOp<S(!new)>(v: GameView<S>, s: S)
    requires Inverse(v)
    ensures Disconnect(Disconnect(v, s), s) == Disconnect(v, s)
  {
  }

  /**
   * Losing a connection and coming back on a new one restores the player's seat, stack and presence and
   * leaves no timer; only the connection has changed. This holds whether or not the grace period ended in between.
   */
  lemma ReturnRestoresPlayer<S(!new)>(v: GameView<S>, s: S, t: S, tempId: string, late: bool)
    requires GameInv(v) && s in v.sessionToPlayer && IsSeated(v.table, v.sessionToPlayer[s])
    requires t !in v.sessionToPlayer && tempId !in v.playerSessions && !IsSeated(v.table, tempId)
    ensures
      var id := v.sessionToPlayer[s];
      var away := if late then GraceOver(Disconnect(v, s), id) else Disconnect(v, s);
      var back := Rejoined(Registered(away, tempId, t), t, id);
      && back.table == v.table
      && back.timers == v.timers
      && back.playerSessions == v.playerSessions[id := t]
      && back.sessionToPlayer == (v.sessionToPlayer - {s})[t := id]
  {
    hide GameInv, Inverse, TableInv, PresenceInv, WithPresence, Disconnect, Rejoined, Registered, GraceOver,
         IsSeated, SeatFor, CanReconnect, TimersOf, Cancelled;
    var id := v.sessionToPlayer[s];
    AfterLoss(v, s);
    var lost := Disconnect(v, s);
    PresenceRestored(v.table, id, late);
    AfterGrace(lost, id);
    AfterReturn(if late then GraceOver(lost, id) else lost, id, t, tempId);
  }

  lemma AfterGrace<S(!new)>(lost: GameView<S>, id: string)
    requires IsSeated(lost.table, id) && TimersOf(lost.timers, id).grace.Pending?
    ensures
      var away := GraceOver(lost, id);
      && away.playerSessions == lost.playerSessions && away.sessionToPlayer == lost.sessionToPlayer
      && away.table == WithPresence(lost.table, id, SeatFor(lost.table, id).status, true)
      && away.timers - {id} == lost.timers - {id}
  {
  }

  lemma AfterLoss<S(!new)>(v: GameView<S>, s: S)
    requires GameInv(v) && s in v.sessionToPlayer && IsSeated(v.table, v.sessionToPlayer[s])
    ensures
      var id, lost := v.sessionToPlayer[s], Disconnect(v, s);
      && lost.playerSessions == v.playerSessions - {id}
      && lost.sessionToPlayer == v.sessionToPlayer - {s}
      && lost.table == WithPresence(v.table, id, Disconnected, false)
      && lost.timers == v.timers[id := Timers(Pending, Absent)] && id !in v.timers
      && TimersOf(lost.timers, id).grace.Pending?
      && TableInv(v.table) && SeatFor(v.table, id).status.Connected? && !SeatFor(v.table, id).sittingOut
  {
  }

  lemma AfterReturn<S(!new)>(away: GameView<S>, id: string, t: S, tempId: string)
    requires CanReconnect(away.table, id) && id !in away.playerSessions
    requires t !in away.sessionToPlayer && tempId !in away.playerSessions && tempId != id
    ensures
      var back := Rejoined(Registered(away, tempId, t), t, id);
      && back.playerSessions == away.playerSessions[id := t]
      && back.sessionToPlayer == away.sessionToPlayer[t := id]
      && back.timers == away.timers - {id}
      && back.table == WithPresence(away.table, id, Connected, false)
  {
    hide WithPresence;
    var back := Rejoined(Registered(away, tempId, t), t, id);
    assert back.playerSessions == away.playerSessions[id := t];
    assert back.sessionToPlayer == away.sessionToPlayer[t := id];
  }

  lemma PresenceRestored(t: TableView, id: string, late: bool)
    requires TableInv(t) && IsSeated(t, id) && SeatFor(t, id).status.Connected? && !SeatFor(t, id).sittingOut
    ensures
      var lost := WithPresence(t, id, Disconnected, false);
      IsSeated(lost, id) &&
      var away := if late then WithPresence(lost, id, SeatFor(lost, id).status, true) else lost;
      CanReconnect(away, id) && WithPresence(away, id, Connected, false) == t
  {
    hide WithPresence;
    PresenceOverwritten(t, id, Disconnected, false, Disconnected, true);
    PresenceOverwritten(t, id, Disconnected, late, Connected, false);
    PresenceUnchanged(t, id);
  }

  lemma PresenceOverwritten(t: TableView, id: string, s1: ConnectionStatus, o1: bool, s2: ConnectionStatus, o2: bool)
    requires TableInv(t) && IsSeated(t, id)
    ensures IsSeated(WithPresence(t, id, s1, o1), id)
    ensures SeatFor(WithPresence(t, id, s1, o1), id) == SeatFor(t, id).(status := s1, sittingOut := o1)
    ensures WithPresence(WithPresence(t, id, s1, o1), id, s2, o2) == WithPresence(t, id, s2, o2)
  {
  }

  lemma PresenceUnchanged(t: TableView, id: string)
    requires IsSeated(t, id)
    ensures WithPresence(t, id, SeatFor(t, id).status, SeatFor(t, id).sittingOut) == t
  {
  }

  // ---------- Connected players without a connection ----------

  /** A seated player marked connected although no connection speaks for the player. */
  ghost predicate Unattended<S>(v: GameView<S>, id: string) {
    IsSeated(v.table, id) && SeatFor(v.table, id).status.Connected? && id !in v.playerSessions
  }

  /** A connection that speaks for a seated player takes over the seat of an absent one. */
  ghost predicate Abandons<S>(v: GameView<S>, e: GameEvent<S>) {
    && e.Rejoin? && CanReconnect(v.table, e.id)
    && e.session in v.sessionToPlayer && IsSeated(v.table, v.sessionToPlayer[e.session])
  }

  /** Joining leaves attendance as it was; the newcomer is spoken for. */
  lemma JoinKeepsAttendance<S(!new)>(v: GameView<S>, s: S, id: string)
    requires GameInv(v)
    ensures Unattended(Joined(v, s), id) <==> Unattended(v, id)
  {
    if s in v.sessionToPlayer && !IsSeated(v.table, v.sessionToPlayer[s]) {
      JoiningKeepsPresence(v.table, v.sessionToPlayer[s], id);
    }
  }

  ghost predicate AllAttended<S(!new)>(v: GameView<S>) {
    forall id :: !Unattended(v, id)
  }

  /** A player is left without a connection by being abandoned, and then for good. */
  lemma AttendanceOf<S(!new)>(v: GameView<S>, e: GameEvent<S>, id: string)
    requires GameInv(v) && Admissible(v, e)
    ensures Unattended(Handled(v, e), id) <==>
      Unattended(v, id) || (Abandons(v, e) && v.sessionToPlayer[e.session] == id)
  {
    if IsSeated(v.table, id) { assert PresenceInv(v, id); }
    match e
    case Welcome(_, _) =>
    case JoinTable(s) => JoinKeepsAttendance(v, s, id);
    case Rejoin(s, other) =>
      if CanReconnect(v.table, other) {
        PresenceChangesOneSeat(v.table, other, Connected, false, id);
        assert PresenceInv(v, other);
      } else {
        JoinKeepsAttendance(v, s, id);
      }
    case Lost(s) =>
      if s in v.sessionToPlayer && IsSeated(v.table, v.sessionToPlayer[s]) {
        PresenceChangesOneSeat(v.table, v.sessionToPlayer[s], Disconnected, false, id);
      }
    case GraceExpires(other) =>
      if IsSeated(v.table, other) {
        PresenceChangesOneSeat(v.table, other, SeatFor(v.table, other).status, true, id);
      }
    case RemovalExpires(_) =>
    case Action(other, action, amount) => ActingKeepsPresence(v.table, other, action, amount, id);
  }

  /**
   * After a run every connected player has a connection exactly when no event of the run made a
   * connection abandon its own seated player for an absent one. A player once abandoned stays so.
   */
  lemma {:induction false} AttendedUnlessAbandoned<S(!new)>(events: seq<GameEvent<S>>)
    requires AdmissibleRun(events)
    ensures AllAttended(GameAfter(events)) <==> NobodyAbandoned(events)
    decreases |events|
  {
    if events == [] {
    } else {
      var init, e := events[..|events| - 1], events[|events| - 1];
      var v := GameAfter(init);
      AttendedUnlessAbandoned(init);
      GameInvHolds(init);
      NobodyAbandonedStep(events);
      hide GameInv, Handled, Admissible, AllAttended, Abandons, NobodyAbandoned;
      AttendanceStep(v, e);
    }
  }

  ghost predicate NobodyAbandoned<S(!new)>(events: seq<GameEvent<S>>) {
    forall k :: 0 <= k < |events| ==> !Abandons(GameAfter(events[..k]), events[k])
  }

  lemma AttendanceStep<S(!new)>(v: GameView<S>, e: GameEvent<S>)
    requires GameInv(v) && Admissible(v, e)
    ensures AllAttended(Handled(v, e)) <==> AllAttended(v) && !Abandons(v, e)
  {
    hide GameInv, Handled, Admissible, Unattended;
    forall id ensures Unattended(Handled(v, e), id) <==>
      Unattended(v, id) || (Abandons(v, e) && v.sessionToPlayer[e.session] == id)
    {
      AttendanceOf(v, e, id);
    }
    if Abandons(v, e) { assert Unattended(Handled(v, e), v.sessionToPlayer[e.session]); }
  }

  lemma NobodyAbandonedStep<S(!new)>(events: seq<GameEvent<S>>)
    requires events != []
    ensures
      var init := events[..|events| - 1];
      NobodyAbandoned(events) <==> NobodyAbandoned(init) && !Abandons(GameAfter(init), events[|events| - 1])
  {
    hide GameAfter, Abandons;
    var init := events[..|events| - 1];
    forall k | 0 <= k < |init| ensures events[..k] == init[..k] && events[k] == init[k] {
    }
  }
}
