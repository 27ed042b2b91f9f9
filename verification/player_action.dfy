/** The server's checks on a player's action and its application to the hand. */
module PlayerAction {
  import opened Bags
  import opened Players
  import opened HandRun
  import opened ServerRun
  import opened Hands
  import Poker

  method CanAct(hand: Hand, player: Player) returns (can: bool)
    ensures can <==> MayAct(hand.Ledger(), IndexOf(hand.players, player), player.CanAct())
    ensures can <==>
      var i := IndexOf(hand.players, player);
      && player.connectionStatus == Connected && !player.isSittingOut
      && player in hand.players && !(i < |hand.folded| && hand.folded[i])
  {
    if player.connectionStatus != Connected { return false; }
    if player.isSittingOut { return false; }
    var i := Poker.FindIndex(hand.players, player);
    if i < |hand.players| {
      return !(i < |hand.folded| && hand.folded[i]);
    }
    return false;
  }

  method ValidateAction(hand: Hand, player: Player, action: ActionKind, amount: int) returns (valid: bool)
    requires Distinct(hand.players)
    ensures valid <==>
      ServerAccepts(hand.Ledger(), IndexOf(hand.players, player), player.CanAct(), player.stack, action, amount)
  {
    var can := CanAct(hand, player);
    if !can { return false; }
    if action.Other? { return false; }
    if amount < 0 { return false; }
    if action == Fold && amount != 0 { return false; }
    if player.stack < 0 { return false; }
    if action == Call || action == Raise {
      if amount > player.stack { return false; }
    }
    if action == Raise {
      if amount < hand.minRaise { return false; }
    }
    if hand.toAct != player { return false; }
    return true;
  }

  /** The vectors are grown only as far as the acting player's position. */
  method ApplyAction(hand: Hand, player: Player, action: ActionKind, amount: int) returns (ok: bool)
    requires Distinct(hand.players)
    modifies hand`playerBets, hand`folded, hand`pot, hand`minRaise, hand`history, hand`toAct, player`stack
    ensures ok <==>
      old(ServerAccepts(hand.Ledger(), IndexOf(hand.players, player), player.CanAct(), player.stack, action, amount))
    ensures hand.Ledger() ==
      if ok then ServerRecord(old(hand.Ledger()), IndexOf(hand.players, player), action, amount) else old(hand.Ledger())
    ensures player.stack == old(player.stack) - if ok then Debit(action, amount) else 0
  {
    ok := ValidateAction(hand, player, action, amount);
    if !ok { return; }
    assert player in hand.players && !action.Other?;
    hide ServerAccepts, MayAct, Entries, NextToAct;
    TurnByPosition(hand.players, hand.toAct, hand.Ledger());
    MoveChips(hand, player, action, amount);
    Poker.RecordAction(hand, player, action, amount);
  }

  /** The stack, pot, vectors and minimum raise after a validated action. */
  method MoveChips(hand: Hand, player: Player, action: ActionKind, amount: int)
    requires player in hand.players && !action.Other?
    modifies hand`playerBets, hand`folded, hand`pot, hand`minRaise, player`stack
    ensures
      var before := old(hand.Ledger());
      hand.Ledger() == ServerRecord(before, IndexOf(hand.players, player), action, amount)
                         .(history := before.history, toAct := before.toAct)
    ensures player.stack == old(player.stack) - Debit(action, amount)
  {
    hide Entries, NextToAct, Grown;
    var i := Poker.FindIndex(hand.players, player);
    ghost var before := hand.Ledger();
    if action == Fold {
      MarkFolded(hand, i);
      assert hand.Ledger() == before.(folded := hand.folded);
    } else {
      player.stack := player.stack - amount;
      hand.pot := hand.pot + amount;
      if action == Raise { hand.minRaise := amount; }
      AddBet(hand, i, amount);
      assert hand.Ledger() == before.(pot := hand.pot, minRaise := hand.minRaise, bets := hand.playerBets);
    }
  }

  method MarkFolded(hand: Hand, i: nat)
    modifies hand`folded
    ensures hand.folded == Grown(old(hand.folded), i + 1, false)[i := true]
  {
    if |hand.folded| <= i { hand.folded := Grown(hand.folded, i + 1, false); }
    hand.folded := hand.folded[i := true];
  }

  method AddBet(hand: Hand, i: nat, amount: int)
    modifies hand`playerBets
    ensures var bets := Grown(old(hand.playerBets), i + 1, 0); hand.playerBets == bets[i := bets[i] + amount]
  {
    if |hand.playerBets| <= i { hand.playerBets := Grown(hand.playerBets, i + 1, 0); }
    hand.playerBets := hand.playerBets[i := hand.playerBets[i] + amount];
  }
}
