/** Connections, presence and timers of players, and the session's handling of joins, actions and losses. */
module Sessions {
  import opened Bags
  import opened Selections
  import opened Players
  import opened HandRun
  import opened TableRun
  import opened SessionRun
  import opened Hands
  import opened HandRanking
  import opened TableManagers
  import Poker
  import Payouts
  import SidePots

  class WebSocketSession {
    constructor () {
    }
  }

  /** The timers held for each player. A timer that fires stays in the map; only cancelling removes it. */
  class ConnectionManager {
    var timers: TimerMap

    constructor ()
      ensures timers == map[]
    {
      timers := map[];
    }

    method StartGraceTimer(id: string)
      modifies this
      ensures timers == GraceStarted(old(timers), id)
    {
      var held := if id in timers then timers[id] else Timers(Absent, Absent);
      timers := timers[id := held.(grace := Pending)];
    }

    method StartRemovalTimer(id: string)
      modifies this
      ensures timers == RemovalStarted(old(timers), id)
    {
      var held := if id in timers then timers[id] else Timers(Absent, Absent);
      timers := timers[id := held.(removal := Pending)];
    }

    method CancelTimers(id: string)
      modifies this
      ensures timers == Cancelled(old(timers), id)
    {
      if id in timers { timers := timers - {id}; }
    }

    method HasActiveTimers(id: string) returns (active: bool)
      ensures active <==> TimersOf(timers, id) != Timers(Absent, Absent)
    {
      if id !in timers { return false; }
      return timers[id].grace != Absent || timers[id].removal != Absent;
    }

    /** A pending timer expires; anything else has nothing to run. */
    method ExpireGrace(id: string) returns (fired: bool)
      modifies this
      ensures fired <==> TimersOf(old(timers), id).grace.Pending?
      ensures timers == if fired then old(timers)[id := old(timers)[id].(grace := Expired)] else old(timers)
    {
      fired := id in timers && timers[id].grace == Pending;
      if fired { timers := timers[id := timers[id].(grace := Expired)]; }
    }

    method ExpireRemoval(id: string) returns (fired: bool)
      modifies this
      ensures fired <==> TimersOf(old(timers), id).removal.Pending?
      ensures timers == if fired then old(timers)[id := old(timers)[id].(removal := Expired)] else old(timers)
    {
      fired := id in timers && timers[id].removal == Pending;
      if fired { timers := timers[id := timers[id].(removal := Expired)]; }
    }
  }

  class PlayerStateManager {
    const connections: ConnectionManager
    const tables: TableManager

    constructor (connections: ConnectionManager, tables: TableManager)
      ensures this.connections == connections && this.tables == tables
    {
      this.connections, this.tables := connections, tables;
    }

    method OnDisconnect(player: Player)
      requires tables.Valid() && player in tables.players
      modifies player`connectionStatus, player`hasDisconnectTime, player`isSittingOut, connections
      ensures tables.Valid() && player.hasDisconnectTime
      ensures tables.View() == WithPresence(old(tables.View()), player.id, Disconnected, false)
      ensures connections.timers == GraceStarted(old(connections.timers), player.id)
    {
      player.connectionStatus := Disconnected;
      player.hasDisconnectTime := true;
      player.isSittingOut := false;
      connections.StartGraceTimer(player.id);
    }

    method OnReconnect(player: Player)
      requires tables.Valid() && player in tables.players
      modifies player`connectionStatus, player`hasDisconnectTime, player`isSittingOut, connections
      ensures tables.Valid() && !player.hasDisconnectTime
      ensures tables.View() == WithPresence(old(tables.View()), player.id, Connected, false)
      ensures connections.timers == Cancelled(old(connections.timers), player.id)
    {
      connections.CancelTimers(player.id);
      player.connectionStatus := Connected;
      player.hasDisconnectTime := false;
      player.isSittingOut := false;
    }

    method OnGraceTimerExpired(id: string)
      requires tables.Valid()
      modifies tables.players`isSittingOut, connections
      ensures tables.Valid()
      ensures tables.View() ==
        var t := old(tables.View());
        if IsSeated(t, id) then WithPresence(t, id, SeatFor(t, id).status, true) else t
      ensures connections.timers == RemovalStarted(old(connections.timers), id)
    {
      var player := tables.GetPlayer(id);
      if player != null { player.isSittingOut := true; }
      connections.StartRemovalTimer(id);
    }

    method IsActive(player: Player) returns (active: bool)
      ensures active <==> player.CanAct()
      ensures active <==> player.connectionStatus == Connected && !player.isSittingOut
    {
      return player.connectionStatus == Connected && !player.isSittingOut;
    }
  }

  datatype JoinReply = Ignored | Rejected(code: string) | JoinAck(id: string, seat: int)

  /** The answer to a plain join. */
  function PlainReply<S(==)>(v: GameView<S>, s: S): JoinReply {
    if s !in v.sessionToPlayer then Rejected("unauthorized")
    else
      var id := v.sessionToPlayer[s];
      if IsSeated(v.table, id) then JoinAck(id, SeatOf(v.table, id))
      else if JoinSeat(v.table) == -1 then Rejected("table_full")
      else JoinAck(id, JoinSeat(v.table))
  }

  /** The answer to a join naming an earlier player id. */
  function RejoinReply<S(==)>(v: GameView<S>, s: S, id: string): JoinReply {
    if !CanReconnect(v.table, id) then PlainReply(v, s)
    else if id in v.playerSessions && v.playerSessions[id] != s then Rejected("player_already_connected")
    else JoinAck(id, SeatOf(v.table, id))
  }

  /** What each answer to a plain join means for the game. */
  lemma PlainReplyMeans<S(!new)>(v: GameView<S>, s: S)
    requires TableInv(v.table)
    ensures
      var w, reply := Joined(v, s), PlainReply(v, s);
      if s !in v.sessionToPlayer then reply == Rejected("unauthorized") && w == v
      else
        var id := v.sessionToPlayer[s];
        if v.table.seat1.Some? && v.table.seat1.value.id == id then reply == JoinAck(id, 0) && w == v
        else if v.table.seat2.Some? && v.table.seat2.value.id == id then reply == JoinAck(id, 1) && w == v
        else if v.table.seat1.Some? && v.table.seat2.Some? then reply == Rejected("table_full") && w == v
        else
          var seat := if v.table.seat1.None? then 0 else 1;
          && reply == JoinAck(id, seat)
          && w.playerSessions == v.playerSessions && w.sessionToPlayer == v.sessionToPlayer && w.timers == v.timers
          && w.table.At(seat) == Some(Seat(id, 400, Connected, false))
          && w.table.At(1 - seat) == v.table.At(1 - seat)
          && (w.table.hand.Some? <==> v.table.At(1 - seat).Some?)
  {
    hide HandInv;
  }

  /** What each answer to a join naming an earlier player id means for the game. */
  lemma RejoinReplyMeans<S(!new)>(v: GameView<S>, s: S, id: string)
    requires TableInv(v.table)
    ensures
      var w, reply := Rejoined(v, s, id), RejoinReply(v, s, id);
      if !IsSeated(v.table, id) || SeatFor(v.table, id).status == Connected then
        reply == PlainReply(v, s) && w == Joined(v, s)
      else if id in v.playerSessions && v.playerSessions[id] != s then
        reply == Rejected("player_already_connected") && w == v
      else
        && reply == JoinAck(id, SeatOf(v.table, id))
        && id in w.playerSessions && w.playerSessions[id] == s
        && s in w.sessionToPlayer && w.sessionToPlayer[s] == id
        && id !in w.timers
        && IsSeated(w.table, id) && SeatOf(w.table, id) == SeatOf(v.table, id)
        && SeatFor(w.table, id) == Seat(id, SeatFor(v.table, id).stack, Connected, false)
  {
    if CanReconnect(v.table, id) { PresenceChangesOneSeat(v.table, id, Connected, false, id); }
    hide HandInv, WithPresence;
  }

  /** What is announced for each winner when a hand completes. */
  datatype Announcement = Announcement(winner: string, amount: int)

  datatype ActionReply = Dropped | Refused(code: string) | Applied(completed: bool, announced: seq<Announcement>)

  const MAX_AMOUNT := STARTING_STACK * 10

  /** The announcement at the end of a hand between the two seated players; it fails while both are standing. */
  ghost function CompletionNews(v: TableView): Result<seq<Announcement>>
    requires v.hand.Some? && v.seat1.Some? && v.seat2.Some?
  {
    var b := v.hand.value;
    if Standing(b) == 2 then InvalidArgument
    else if Standing(b) == 0 || b.pot <= 0 then Ok([])
    else Ok([Announcement(if LastStanding(b) == 0 then v.seat1.value.id else v.seat2.value.id, b.pot)])
  }

  /** What is announced is what is credited: the fold leaves the pot to the other player. */
  lemma AnnouncedIsAwarded(v: TableView, id: string, amount: int)
    requires TableInv(v) && CanPlay(v, id, Fold, amount)
    ensures
      var played := Play(v, id, Fold, amount);
      var other := 1 - SeatOf(v, id);
      && played.seat1.Some? && played.seat2.Some? && played.hand.Some?
      && CompletionNews(played) ==
           (if v.hand.value.pot == 0 then Ok([]) else Ok([Announcement(v.At(other).value.id, v.hand.value.pot)]))
      && StackAt(PaidOut(played).At(other)) - StackAt(v.At(other)) == v.hand.value.pot
  {
    var i := SeatOf(v, id);
    var s := v.At(i).value;
    FoldPaysOther(v, id, Fold, amount);
    GrantedKeepsBook(v.hand.value, v.button, i, IsPresent(s), s.stack, Fold, amount);
    hide HandInv, ServerRun.ServerAccepts, ServerRun.ServerRecord;
  }

  /** Without side pots, the announced share of each of several different winners is the amount credited. */
  lemma {:induction false} AnnouncedIsCredited<T>(pot: int, ws: seq<T>, i: nat)
    requires pot > 0 && Distinct(ws) && i < |ws|
    ensures Payouts.Payout(pot, [], ws, ws[i]) == Payouts.Share(pot, |ws|, i)
  {
    Payouts.CreditOfOne(pot, ws, i, |ws|);
  }

  class GameSession {
    var playerSessions: map<string, WebSocketSession>
    var sessionToPlayer: map<WebSocketSession, string>
    const tables: TableManager
    const connections: ConnectionManager
    const presence: PlayerStateManager

    ghost predicate Valid()
      reads tables, tables.players, tables.currentHand, if tables.currentHand == null then {}
        else {tables.currentHand.deck}
    {
      tables.Valid() && presence.tables == tables && presence.connections == connections
    }

    ghost function View(): GameView<WebSocketSession>
      reads this, tables, tables.seat1, tables.seat2, tables.currentHand, connections
    {
      GameView(playerSessions, sessionToPlayer, tables.View(), connections.timers)
    }

    constructor ()
      ensures Valid() && View() == NewGame()
      ensures fresh(tables) && fresh(connections)
    {
      var t := new TableManager();
      var c := new ConnectionManager();
      var p := new PlayerStateManager(c, t);
      tables, connections, presence := t, c, p;
      playerSessions, sessionToPlayer := map[], map[];
    }

    method RegisterSession(id: string, session: WebSocketSession)
      modifies this
      ensures View() == Registered(old(View()), id, session)
    {
      playerSessions := playerSessions[id := session];
      sessionToPlayer := sessionToPlayer[session := id];
    }

    method RemoveSession(id: string)
      modifies this
      ensures View() == SessionRemoved(old(View()), id)
    {
      if id in playerSessions {
        sessionToPlayer := sessionToPlayer - {playerSessions[id]};
        playerSessions := playerSessions - {id};
      }
    }

    /** A new connection is given a newly generated player id. */
    method SendWelcome(session: WebSocketSession?, newId: string)
      modifies this
      ensures View() == if session == null then old(View()) else Registered(old(View()), newId, session)
    {
      if session == null { return; }
      RegisterSession(newId, session);
    }

    method OnDisconnect(session: WebSocketSession?)
      requires Valid()
      modifies this, connections, tables.players`connectionStatus, tables.players`hasDisconnectTime,
        tables.players`isSittingOut
      ensures Valid()
      ensures View() == if session == null then old(View()) else Disconnect(old(View()), session)
    {
      if session == null || session !in sessionToPlayer { return; }
      hide WithPresence, ViewOf;
      var id := sessionToPlayer[session];
      RemoveSession(id);
      var player := tables.GetPlayer(id);
      if player == null { return; }
      presence.OnDisconnect(player);
    }

    method GraceTimerFires(id: string)
      requires Valid()
      modifies connections, tables.players`isSittingOut
      ensures Valid()
      ensures View() == GraceOver(old(View()), id)
    {
      var fired := connections.ExpireGrace(id);
      if fired { presence.OnGraceTimerExpired(id); }
    }

    method RemovalTimerFires(id: string)
      requires Valid()
      modifies connections
      ensures Valid()
      ensures View() == RemovalOver(old(View()), id)
    {
      var _ := connections.ExpireRemoval(id);
    }

    /** The session gives up whom it spoke for and is bound to `id`. */
    method Rebind(id: string, session: WebSocketSession)
      modifies this
      ensures View() == Rebound(old(View()), id, session)
    {
      if session in sessionToPlayer {
        playerSessions := playerSessions - {sessionToPlayer[session]};
        sessionToPlayer := sessionToPlayer - {session};
      }
      RegisterSession(id, session);
    }

    /** Taking over an absent player's seat on this connection. */
    method Reconnect(session: WebSocketSession, player: Player) returns (reply: JoinReply)
      requires Valid() && player in tables.players && CanReconnect(tables.View(), player.id)
      modifies this, connections, player`connectionStatus, player`hasDisconnectTime, player`isSittingOut
      ensures Valid()
      ensures View() == Rejoined(old(View()), session, player.id)
      ensures reply == RejoinReply(old(View()), session, player.id)
    {
      var id := player.id;
      if id in playerSessions && playerSessions[id] != session { return Rejected("player_already_connected"); }
      hide WithPresence;
      Rebind(id, session);
      hide Rebound, Registered, ViewOf;
      ReturnToTable(player);
      return JoinAck(id, player.seat);
    }

    /** The timers are cancelled and the player is present again. */
    method ReturnToTable(player: Player)
      requires Valid() && player in tables.players
      modifies connections, player`connectionStatus, player`hasDisconnectTime, player`isSittingOut
      ensures Valid() && player.seat == old(player.seat)
      ensures tables.View() == WithPresence(old(tables.View()), player.id, Connected, false)
      ensures connections.timers == Cancelled(old(connections.timers), player.id)
    {
      hide WithPresence, ViewOf;
      connections.CancelTimers(player.id);
      presence.OnReconnect(player);
    }

    /** Seating a newcomer, and starting a hand when the table is full. */
    method JoinAsNewcomer(session: WebSocketSession, handId: string) returns (reply: JoinReply)
      requires Valid()
      modifies tables, tables.players`holeCards
      ensures Valid()
      ensures View() == Joined(old(View()), session)
      ensures reply == PlainReply(old(View()), session)
    {
      if session !in sessionToPlayer { return Rejected("unauthorized"); }
      var id := sessionToPlayer[session];
      var existing := tables.GetPlayer(id);
      if existing != null { return JoinAck(id, existing.seat); }
      var seat;
      if tables.seat1 == null { seat := 0; }
      else if tables.seat2 == null { seat := 1; }
      else { return Rejected("table_full"); }
      SeatNewcomer(id, seat, handId);
      return JoinAck(id, seat);
    }

    /** A new player in the given empty seat; a full table starts a hand. (Seating cannot fail here.) */
    method SeatNewcomer(id: string, seat: int, handId: string)
      requires Valid() && CanAssign(tables.View(), id, seat)
      modifies tables, tables.players`holeCards
      ensures Valid()
      ensures tables.View() == Start(Assign(old(tables.View()), Newcomer(id), seat))
    {
      hide CanAssign, Assign, Start;
      var player := new Player(id, STARTING_STACK, seat);
      var ok := tables.AssignSeat(player, seat);
      assert ok;
      if tables.IsReadyForHand() {
        var _ := tables.StartHand(handId);
      } else {
        NotReady();
      }
    }

    lemma NotReady()
      requires tables.Valid() && !tables.IsReadyForHand()
      ensures Start(tables.View()) == tables.View()
    {
    }

    method HandleJoin(name: Option<string>, providedId: string, session: WebSocketSession?, handId: string)
      returns (reply: JoinReply)
      requires Valid()
      modifies this, tables, connections
      modifies tables.players`holeCards, tables.players`connectionStatus, tables.players`hasDisconnectTime,
        tables.players`isSittingOut
      ensures Valid()
      ensures
        var v := old(View());
        if session == null then reply == Ignored && View() == v
        else if name.None? || name.value == "" then reply == Rejected("invalid_input") && View() == v
        else if providedId == "" then reply == PlainReply(v, session) && View() == Joined(v, session)
        else reply == RejoinReply(v, session, providedId) && View() == Rejoined(v, session, providedId)
    {
      if session == null { return Ignored; }
      if name.None? || name.value == "" { return Rejected("invalid_input"); }
      if providedId != "" {
        var player := tables.GetPlayer(providedId);
        if player != null && (player.connectionStatus == Disconnected || player.connectionStatus == Reconnecting) {
          reply := Reconnect(session, player);
          return;
        }
      }
      reply := JoinAsNewcomer(session, handId);
    }

    /** The split announced when a hand completes: the pot and side pots shared among the winners. */
    method BroadcastHandCompleted() returns (r: Result<seq<Announcement>>)
      requires Valid() && tables.currentHand != null
      ensures r == CompletionNews(tables.View())
    {
      var hand := tables.currentHand;
      var total := TotalPot(hand);
      var winners := Poker.DetermineWinners(hand);
      tables.WinnersOfTwo(hand, winners);
      hide Poker.WinnersAre, Poker.Active, Split, Standing, LastStanding, Entries;
      if winners.InvalidArgument? { return InvalidArgument; }
      SoleSplit(total, winners.value);
      var announced := AnnounceSplit(total, winners.value);
      return Ok(announced);
    }

    method TotalPot(hand: Hand) returns (total: int)
      ensures total == hand.pot + SidePots.Total(hand.sidePots)
    {
      total := hand.pot;
      for i := 0 to |hand.sidePots|
        invariant total == hand.pot + SidePots.Total(hand.sidePots[..i])
      {
        SidePots.TotalStep(hand.sidePots, i + 1);
        total := total + hand.sidePots[i].amount;
      }
      assert hand.sidePots[..|hand.sidePots|] == hand.sidePots;
    }

    static lemma SoleSplit(total: int, ws: seq<Player>)
      requires |ws| <= 1
      ensures Split(total, ws) == if ws == [] || total <= 0 then [] else [Announcement(ws[0].id, total)]
    {
    }

    method AnnounceSplit(total: int, ws: seq<Player>) returns (announced: seq<Announcement>)
      ensures announced == Split(total, ws)
    {
      announced := [];
      if ws == [] || total <= 0 { return; }
      var remainder := total % |ws|;
      var share := (total - remainder) / |ws|;
      SplitShares(total, |ws|);
      hide Payouts.Share;
      for i := 0 to |ws|
        invariant announced == Split(total, ws)[..i]
      {
        announced := announced + [Announcement(ws[i].id, share + if i < remainder then 1 else 0)];
      }
    }

    /** Dividing after taking the remainder off gives the same shares as the payout. */
    static lemma SplitShares(total: int, n: int)
      requires total > 0 && n > 0
      ensures forall i: nat :: i < n ==>
        (total - total % n) / n + (if i < total % n then 1 else 0) == Payouts.Share(total, n, i)
    {
      Payouts.ModIsRemainder(total, n);
      assert total - total % n == total / n * n + 0;
      SidePots.DivModUnique(total - total % n, n, total / n, 0);
    }

    static ghost function Split(total: int, ws: seq<Player>): seq<Announcement> {
      if ws == [] || total <= 0 then []
      else seq(|ws|, i requires 0 <= i < |ws| => Announcement(ws[i].id, Payouts.Share(total, |ws|, i)))
    }

    /**
     * An action goes through exactly when its text and amount are allowed, the connection speaks for a player,
     * it names the current hand, and the table lets that player act. `inBounds` tells whether the completeness
     * test of an accepted action finds both fold flags.
     */
    method HandleAction(handId: string, action: ActionKind, amount: int, session: WebSocketSession?)
      returns (reply: ActionReply, ghost inBounds: bool)
      requires Valid()
      modifies tables, tables.players`stack
      modifies if tables.currentHand == null then {} else {tables.currentHand}
      ensures Valid()
      ensures
        var v := old(View());
        var currentId := old(if tables.currentHand == null then "" else tables.currentHand.id);
        var known := session != null && session in v.sessionToPlayer;
        && (session == null ==> reply == Dropped)
        && (reply.Applied? <==>
              && !action.Other? && 0 <= amount <= 4000 && known && v.table.hand.Some? && handId == currentId
              && CanPlay(v.table, v.sessionToPlayer[session], action, amount))
        && (!reply.Applied? ==> View() == v)
      ensures
        var v := old(View());
        var currentId := old(if tables.currentHand == null then "" else tables.currentHand.id);
        session != null && !reply.Applied? ==>
          reply == Refused(
            if action.Other? then "invalid_action"
            else if amount < 0 || amount > 4000 then "invalid_amount"
            else if session !in v.sessionToPlayer then "unauthorized"
            else if v.table.hand.None? || handId != currentId then "invalid_hand"
            else "invalid_action")
      ensures reply.Applied? ==>
        var v := old(View());
        var id := v.sessionToPlayer[session];
        var e := TableEvent.Act(id, action, amount);
        && View() == v.(table := Driven(v.table, e))
        && (reply.completed <==> Completes(v.table, e))
        && (reply.completed ==> CompletionNews(Play(v.table, id, action, amount)) == Ok(reply.announced))
        && (inBounds <==> ReadsInBounds(v.table, e))
      ensures reply.Applied? ==>
        var table, i := old(tables.View()), SeatOf(old(tables.View()), old(sessionToPlayer)[session]);
        && i < 2 && table.hand.Some? && table.hand.value.toAct == i && table.At(i).Some?
        && table.At(i).value.status == Connected && !table.At(i).value.sittingOut
    {
      hide CanPlay, Play, CompletionNews, Driven, Completes, ReadsInBounds, ViewOf;
      inBounds := true;
      if session == null { return Dropped, true; }
      if action.Other? { return Refused("invalid_action"), true; }
      if amount < 0 { return Refused("invalid_amount"), true; }
      if amount > MAX_AMOUNT { return Refused("invalid_amount"), true; }
      if session !in sessionToPlayer { return Refused("unauthorized"), true; }
      var id := sessionToPlayer[session];
      if tables.currentHand == null || tables.currentHand.id != handId { return Refused("invalid_hand"), true; }
      CanPlayMeans(tables.View(), id, action, amount);
      reply, inBounds := ActFor(id, action, amount);
    }

    /** The action through the table, and the end of the hand if it completes it. */
    method ActFor(id: string, action: ActionKind, amount: int) returns (reply: ActionReply, ghost inBounds: bool)
      requires Valid() && tables.currentHand != null
      modifies tables, tables.players`stack, tables.currentHand
      ensures Valid()
      ensures
        var t := old(tables.View());
        var e := TableEvent.Act(id, action, amount);
        if !CanPlay(t, id, action, amount) then reply == Refused("invalid_action") && tables.View() == t
        else
          && tables.View() == Driven(t, e)
          && reply.Applied?
          && (reply.completed <==> Completes(t, e))
          && (reply.completed ==> CompletionNews(Play(t, id, action, amount)) == Ok(reply.announced))
          && (inBounds <==> ReadsInBounds(t, e))
    {
      hide CanPlay, Play, End, CompletionNews, IsComplete, ViewOf;
      var ok := tables.ProcessPlayerAction(id, action, amount);
      if !ok { return Refused("invalid_action"), true; }
      reply, inBounds := FinishIfComplete();
    }

    /** After an accepted action: if the hand is complete, announce the split and end it. */
    method FinishIfComplete() returns (reply: ActionReply, ghost inBounds: bool)
      requires Valid() && tables.currentHand != null
      modifies tables, tables.players`stack, tables.currentHand
      ensures Valid()
      ensures
        var t := old(tables.View());
        && tables.View() == (if IsComplete(t) then End(t) else t)
        && reply.Applied? && (reply.completed <==> IsComplete(t))
        && (reply.completed ==> CompletionNews(t) == Ok(reply.announced))
        && (inBounds <==> |t.hand.value.folded| >= 2)
    {
      var complete;
      complete, inBounds := Poker.IsHandComplete(tables.currentHand);
      tables.ActiveOfTwo(tables.currentHand);
      hide Poker.Active;
      if !complete { return Applied(false, []), inBounds; }
      var news := BroadcastHandCompleted();
      var _ := tables.EndHand();
      reply := Applied(true, if news.Ok? then news.value else []);
    }
  }
}
