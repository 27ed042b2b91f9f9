/** The table: seating, starting and ending hands, and the server's action entry point. */
module TableManagers {
  import opened Bags
  import opened Decks
  import opened Selections
  import opened Players
  import opened HandRun
  import opened ServerRun
  import opened TableRun
  import opened Hands
  import opened HandRanking
  import Poker
  import Pot
  import Payouts
  import PlayerAction
  import HandTheorems

  ghost function ViewOf(p: Player?): Option<Seat>
    reads p
  {
    if p == null then None else Some(Seat(p.id, p.stack, p.connectionStatus, p.isSittingOut))
  }

  class TableManager {
    var seat1: Player?
    var seat2: Player?
    var currentHand: Hand?
    var pot: int
    var button: nat
    var state: TableState
    var players: seq<Player>

    /** The seats and the list name the same players, and a hand is between the two of them. */
    ghost predicate Valid()
      reads this, players, currentHand, if currentHand == null then {} else {currentHand.deck}
    {
      && Distinct(players)
      && (forall p :: p in players ==> p == seat1 || p == seat2)
      && (seat1 != null ==> seat1 in players && seat1.seat == 0)
      && (seat2 != null ==> seat2 in players && seat2.seat == 1)
      && (seat1 != null && seat2 != null ==> seat1.id != seat2.id)
      && button < 2
      && (currentHand != null ==> HandValid(currentHand))
    }

    ghost predicate HandValid(hand: Hand)
      reads this, hand, hand.deck, players
    {
      && hand.deck.Valid()
      && seat1 != null && seat2 != null && hand.players == [seat1, seat2]
      && seat1 in players && seat2 in players
      && hand.round == Preflop && hand.communityCards == [] && hand.sidePots == [] && hand.winners == []
      && |seat1.holeCards| == |seat2.holeCards| == 2
    }

    ghost function View(): TableView
      reads this, seat1, seat2, currentHand
    {
      var hand := if currentHand == null then None else Some(currentHand.Ledger());
      TableView(ViewOf(seat1), ViewOf(seat2), hand, pot, button, state)
    }

    /** The seated player at a position of the value model. */
    ghost function PlayerAt(i: nat): Player?
      reads this
    {
      if i == 0 then seat1 else if i == 1 then seat2 else null
    }

    constructor ()
      ensures Valid() && View() == EMPTY_TABLE && players == [] && currentHand == null
    {
      seat1, seat2, currentHand, players := null, null, null, [];
      pot, button, state := 0, 0, WaitingForPlayers;
    }

    method GetPlayer(id: string) returns (player: Player?)
      requires Valid()
      ensures player == PlayerAt(SeatOf(View(), id))
      ensures player != null <==> SeatOf(View(), id) < 2
      ensures player != null ==> player in players && player.id == id && player.seat == SeatOf(View(), id)
    {
      player := null;
      for i := 0 to |players|
        invariant forall k :: 0 <= k < i ==> players[k].id != id
      {
        if players[i].id == id {
          assert players[i] in players;
          return players[i];
        }
      }
      assert seat1 != null ==> seat1.id != id;
      assert seat2 != null ==> seat2.id != id;
    }

    method AssignSeat(player: Player, seat: int) returns (ok: bool)
      requires Valid()
      modifies this`seat1, this`seat2, this`players, player`seat
      ensures Valid()
      ensures ok <==> CanAssign(old(View()), player.id, seat)
      ensures View() == Assign(old(View()), ViewOf(player).value, seat)
      ensures players == if ok then old(players) + [player] else old(players)
      ensures currentHand == old(currentHand)
    {
      if seat != 0 && seat != 1 { return false; }
      if seat == 0 && seat1 != null { return false; }
      if seat == 1 && seat2 != null { return false; }
      var seated := GetPlayer(player.id);
      if seated != null { return false; }
      assert player !in players;
      player.seat := seat;
      players := players + [player];
      if seat == 0 { seat1 := player; } else { seat2 := player; }
      return true;
    }

    /** The first position in the list of the player with that id; the length when nobody has it. */
    method FindById(id: string) returns (i: nat)
      requires Valid()
      ensures i <= |players| && (i == |players| <==> SeatOf(View(), id) == 2)
      ensures i < |players| ==> players[i].id == id && players[i] == PlayerAt(SeatOf(View(), id))
    {
      i := 0;
      while i < |players| && players[i].id != id
        invariant 0 <= i <= |players| && forall k :: 0 <= k < i ==> players[k].id != id
      {
        i := i + 1;
      }
      if i < |players| { assert players[i] in players; }
    }

    /** A hand in progress keeps its references to both players, so it outlives the seat of the one removed. */
    method RemovePlayer(id: string) returns (ok: bool)
      requires Valid()
      modifies this`seat1, this`seat2, this`players
      ensures !ok || currentHand == null ==> Valid()
      ensures ok <==> SeatOf(old(View()), id) < 2
      ensures View() == Remove(old(View()), id)
    {
      hide Entries;
      var i := FindById(id);
      if i == |players| { return false; }
      var player := players[i];
      assert player in players;
      assert forall p :: p in players ==> p == player || p in Drop(players, i) by {
        assert players == players[..i] + [player] + players[i + 1..];
      }
      ghost var rest := Drop(players, i);
      assert Distinct(rest) && forall k :: 0 <= k < |rest| ==> rest[k] in players && rest[k] != player;
      if seat1 == player { seat1 := null; } else if seat2 == player { seat2 := null; }
      players := Drop(players, i);
      return true;
    }

    predicate IsReadyForHand()
      reads this
    {
      state == WaitingForPlayers && seat1 != null && seat2 != null
    }

    /**
     * The hole cards are dealt from a copy of the deck: the stored hand's deck still begins with the
     * four cards the players hold.
     */
    method StartHand(id: string) returns (ok: bool)
      requires Valid()
      modifies this`currentHand, this`pot, this`state, players`holeCards
      ensures Valid()
      ensures ok <==> CanStart(old(View()))
      ensures View() == Start(old(View()))
      ensures ok ==> fresh(currentHand) && fresh(currentHand.deck) && currentHand.id == id && currentHand.winners == []
      ensures ok ==> currentHand.deck.next == 0 && |currentHand.deck.cards| == 52
      ensures ok ==> seat1.holeCards == currentHand.deck.cards[..2] && seat2.holeCards == currentHand.deck.cards[2..4]
      ensures !ok ==> currentHand == old(currentHand)
    {
      hide FullDeck, Entries;
      if !IsReadyForHand() { return false; }
      if currentHand != null { return false; }
      var hand, dealt := CreateHand(id);
      var _ := Poker.DealHoleCards(hand, dealt);
      assert hand.players[0] == seat1 && hand.players[1] == seat2;
      currentHand := hand;
      state := HandInProgress;
      pot := 0;
      return true;
    }

    /** The stored hand, its deck copied from the one the hole cards will be dealt from. */
    method CreateHand(id: string) returns (hand: Hand, dealt: Deck)
      requires seat1 != null && seat2 != null && seat1 != seat2
      ensures fresh(hand) && fresh(hand.deck) && fresh(dealt) && dealt != hand.deck
      ensures hand.deck.Valid() && dealt.Valid() && hand.deck.cards == dealt.cards && |dealt.cards| == 52
      ensures hand.deck.next == dealt.next == 0 && dealt.Undealt() == dealt.cards
      ensures hand.id == id && hand.players == [seat1, seat2] && hand.Ledger() == NewHand(button)
      ensures hand.round == Preflop && hand.communityCards == [] && hand.sidePots == [] && hand.winners == []
    {
      hand := new Hand();
      hand.id := id;
      hand.players := [seat1, seat2];
      hand.toAct := if button == 0 then seat2 else seat1;
      IndexOfDistinct(hand.players, 0);
      IndexOfDistinct(hand.players, 1);
      dealt := new Deck();
      hand.deck.CopyFrom(dealt);
      assert dealt.Undealt() == dealt.cards;
    }

    method ProcessPlayerAction(id: string, action: ActionKind, amount: int) returns (ok: bool)
      requires Valid()
      modifies this`pot, players`stack
      modifies if currentHand == null then {} else {currentHand}
      ensures Valid() && currentHand == old(currentHand)
      ensures ok <==> CanPlay(old(View()), id, action, amount)
      ensures View() == Play(old(View()), id, action, amount)
      ensures !ok ==> View() == old(View())
      ensures currentHand != null ==> currentHand.id == old(currentHand.id)
    {
      if currentHand == null { return false; }
      var player := GetPlayer(id);
      if player == null { return false; }
      ok := ValidateFor(player, action, amount);
      if !ok { return; }
      ActAs(player, action, amount);
    }

    /** The position of a seated player in the hand is the player's seat. */
    lemma SeatIsPosition(player: Player)
      requires Valid() && currentHand != null && player in players
      ensures player == PlayerAt(SeatOf(View(), player.id)) && SeatOf(View(), player.id) < 2
      ensures IndexOf(currentHand.players, player) == SeatOf(View(), player.id) && Distinct(currentHand.players)
    {
    }

    method ValidateFor(player: Player, action: ActionKind, amount: int) returns (valid: bool)
      requires Valid() && currentHand != null && player in players
      ensures valid <==> CanPlay(View(), player.id, action, amount)
    {
      hide ServerAccepts, Entries, Distinct;
      SeatIsPosition(player);
      valid := PlayerAction.ValidateAction(currentHand, player, action, amount);
    }

    /** A validated action is applied and the table's pot follows the hand's. */
    method ActAs(player: Player, action: ActionKind, amount: int)
      requires Valid() && currentHand != null && player in players
      requires CanPlay(View(), player.id, action, amount)
      modifies this`pot, player`stack, currentHand`playerBets, currentHand`folded, currentHand`pot, currentHand`minRaise
      modifies currentHand`history, currentHand`toAct
      ensures Valid()
      ensures View() == Play(old(View()), player.id, action, amount)
    {
      hide ServerAccepts, ServerRecord, Entries, FullDeck, Distinct;
      SeatIsPosition(player);
      var ok := PlayerAction.ApplyAction(currentHand, player, action, amount);
      assert ok;
      pot := currentHand.pot;
    }

    /** The players left in a two-player hand, by the fold flags. */
    lemma ActiveOfTwo(hand: Hand)
      requires |hand.players| == 2
      ensures
        var b := hand.Ledger();
        Poker.Active(hand.players, hand.folded) ==
          (if HasFolded(b, 0) then [] else [hand.players[0]]) + (if HasFolded(b, 1) then [] else [hand.players[1]])
    {
      var p := hand.players;
      assert p[..1][..0] == [];
      assert Poker.Active(p[..1], hand.folded) == Poker.Active(p[..1][..0], hand.folded) +
        if HasFolded(hand.Ledger(), 0) then [] else [p[0]];
    }

    /** Two players with two cards each cannot be evaluated; otherwise the winners are those left. */
    lemma WinnersOfTwo(hand: Hand, r: Result<seq<Player>>)
      requires HandValid(hand) && Distinct(hand.players) &&
        Poker.WinnersAre(hand, Poker.Active(hand.players, hand.folded), r)
      ensures
        var b := hand.Ledger();
        if Standing(b) == 2 then r == InvalidArgument
        else if Standing(b) == 0 then r == Ok([])
        else r == Ok(if LastStanding(b) == 0 then [seat1] else [seat2])
      ensures Standing(hand.Ledger()) <= 2 && LastStanding(hand.Ledger()) < 2
    {
      ActiveOfTwo(hand);
      var active := Poker.Active(hand.players, hand.folded);
      var b := hand.Ledger();
      assert active == if Standing(b) == 2 then [seat1, seat2]
        else if Standing(b) == 1 then [hand.players[LastStanding(b)]] else [];
      if Standing(b) == 2 {
        assert |Poker.CardsOf(hand, active[0])| == 2;
        assert !HandTheorems.Playable(Poker.CardsOf(hand, active[0]));
      }
    }

    /** With no side pots, a sole winner collects a positive pot and nobody else is paid. */
    method PayWinners(hand: Hand, winners: seq<Player>)
      requires seat1 != null && seat2 != null && seat1 != seat2 && hand.sidePots == []
      requires winners == [] || winners == [seat1] || winners == [seat2]
      modifies hand`pot, hand`sidePots, (set p: Player | p in winners)`stack
      ensures ViewOf(seat1) == if winners == [seat1] then Award(old(ViewOf(seat1)), old(hand.pot))
        else old(ViewOf(seat1))
      ensures ViewOf(seat2) == if winners == [seat2] then Award(old(ViewOf(seat2)), old(hand.pot))
        else old(ViewOf(seat2))
    {
      var payees: seq<Player?> := winners;
      assert Pot.Paid(payees) == set p: Player | p in winners;
      if winners != [] { Payouts.SoleWinnerTakesMain(hand.pot, payees[0]); }
      assert winners != [] ==> payees == [payees[0]];
      Pot.DistributePot(hand, payees);
    }

    /** The pot to the winners, then every short stack refilled. */
    method PayAndRefill(hand: Hand, winners: seq<Player>)
      requires Distinct(players) && seat1 != null && seat2 != null && seat1 in players && seat2 in players &&
        seat1 != seat2
      requires hand.sidePots == [] && (winners == [] || winners == [seat1] || winners == [seat2])
      modifies hand`pot, hand`sidePots, players`stack
      ensures ViewOf(seat1) == Refill(if winners == [seat1] then Award(old(ViewOf(seat1)), old(hand.pot))
        else old(ViewOf(seat1)))
      ensures ViewOf(seat2) == Refill(if winners == [seat2] then Award(old(ViewOf(seat2)), old(hand.pot))
        else old(ViewOf(seat2)))
    {
      hide ViewOf, Award, Refill, Distinct;
      PayWinners(hand, winners);
      TopUpAll();
    }

    /** `InvalidArgument` is the exception thrown when two players with two cards each are to be compared. */
    method EndHand() returns (r: Result<()>)
      requires Valid()
      modifies this`currentHand, this`pot, this`state, this`button, players`stack
      modifies if currentHand == null then {} else {currentHand}
      ensures Valid()
      ensures View() == End(old(View()))
      ensures r.Ok? <==> old(currentHand) == null || Standing(old(currentHand.Ledger())) < 2
      ensures currentHand == if r.Ok? then null else old(currentHand)
    {
      if currentHand == null { return Ok(()); }
      var winners := Poker.DetermineWinners(currentHand);
      WinnersOfTwo(currentHand, winners);
      hide Poker.Active, Poker.WinnersAre, Standing, LastStanding;
      if winners.InvalidArgument? { return InvalidArgument; }
      FinishHand(winners.value);
      return Ok(());
    }

    /** Whom a finished hand pays: the last player standing, if any. */
    ghost predicate Wins(b: Book, winners: seq<Player>)
      reads this
    {
      && seat1 != null && seat2 != null && Standing(b) < 2
      && winners == if Standing(b) == 0 then [] else if LastStanding(b) == 0 then [seat1] else [seat2]
    }

    /** Paying, refilling and clearing the table once the winners are known. */
    method FinishHand(winners: seq<Player>)
      requires Valid() && currentHand != null && Wins(currentHand.Ledger(), winners)
      modifies this`currentHand, this`pot, this`state, this`button, players`stack
      modifies currentHand`winners, currentHand`pot, currentHand`sidePots
      ensures Valid() && currentHand == null
      ensures View() == End(old(View()))
    {
      hide FullDeck, Entries, Award, Refill, ViewOf, Standing;
      currentHand.winners := winners;
      PayAndRefill(currentHand, winners);
      pot := 0;
      currentHand := null;
      state := WaitingForPlayers;
      button := (button + 1) % 2;
    }

    method TopUpAll()
      requires Distinct(players) && seat1 != null && seat2 != null && seat1 in players && seat2 in players
      modifies players`stack
      ensures ViewOf(seat1) == Refill(old(ViewOf(seat1))) && ViewOf(seat2) == Refill(old(ViewOf(seat2)))
    {
      for i := 0 to |players|
        invariant forall k :: 0 <= k < |players| ==>
          players[k].stack == if k < i then ToppedUp(old(players[k].stack)) else old(players[k].stack)
      {
        players[i].TopUp();
      }
    }
  }
}
