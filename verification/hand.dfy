/** The hand object and the operations of the core engine on it. */
module Hands {
  import opened Bags
  import opened Cards
  import opened Decks
  import opened Players
  import opened SidePots
  import opened HandRun

  datatype ActionHistory = ActionHistory(player: Player, action: ActionKind, amount: int)

  /** The position of the first occurrence of `p`, or the length. */
  function IndexOf(players: seq<Player>, p: Player?): (i: nat)
    ensures i <= |players|
    ensures i < |players| ==> players[i] == p && p !in players[..i]
    ensures i == |players| <==> p !in players
  {
    if players == [] then 0
    else if players[0] == p then 0
    else
      assert players == [players[0]] + players[1..];
      IndexOf(players[1..], p) + 1
  }

  lemma IndexOfDistinct(players: seq<Player>, i: nat)
    requires Distinct(players) && i < |players|
    ensures IndexOf(players, players[i]) == i
  {
  }

  /** Whose turn follows: heads-up, whoever of the two is not to act now. */
  function PassedOn(players: seq<Player>, toAct: Player?): Player? {
    if |players| == 2 then (if toAct == players[0] then players[1] else players[0]) else toAct
  }

  /** Between different players the turn passes from position to position. */
  lemma TurnByPosition(players: seq<Player>, toAct: Player?, b: Book)
    requires Distinct(players) && b.players == |players| && b.toAct == IndexOf(players, toAct)
    ensures IndexOf(players, PassedOn(players, toAct)) == NextToAct(b)
  {
    if |players| == 2 {
      IndexOfDistinct(players, 0);
      IndexOfDistinct(players, 1);
    }
  }

  /** The history with players named by position. */
  ghost function Entries(players: seq<Player>, history: seq<ActionHistory>): (r: seq<Entry>) {
    seq(|history|, i requires 0 <= i < |history| =>
      Entry(IndexOf(players, history[i].player), history[i].action, history[i].amount))
  }

  class Hand {
    var id: string
    var players: seq<Player>
    const deck: Deck
    var communityCards: seq<Card>
    var pot: int
    var sidePots: seq<SidePot<Player?>>
    var playerBets: seq<int>
    var folded: seq<bool>
    var round: BettingRound
    var toAct: Player?
    var minRaise: int
    var history: seq<ActionHistory>
    var winners: seq<Player>

    constructor ()
      ensures deck.Valid() && fresh(deck)
      ensures id == "" && players == [] && communityCards == [] && pot == 0 && sidePots == []
      ensures playerBets == [] && folded == [] && round == Preflop && toAct == null && minRaise == BIG_BLIND
      ensures history == [] && winners == []
    {
      var d := new Deck();
      deck := d;
      id, players, communityCards, pot, sidePots := "", [], [], 0, [];
      playerBets, folded, round, toAct, minRaise := [], [], Preflop, null, BIG_BLIND;
      history, winners := [], [];
    }

    ghost function Log(): seq<Entry>
      reads `history, `players
    {
      Entries(players, history)
    }

    ghost function Ledger(): Book
      reads this
    {
      Book(|players|, playerBets, folded, pot, minRaise, IndexOf(players, toAct), Log())
    }

    ghost function View(): HandView
      reads this, deck, players
      requires deck.Valid()
    {
      HandView(seq(|players|, i requires 0 <= i < |players| reads this, players => players[i].stack),
               Ledger(),
               seq(|players|, i requires 0 <= i < |players| reads this, players => players[i].holeCards),
               communityCards, deck.Undealt(), round)
    }

    /** Moving to the next betting round; there is none after the showdown. */
    method AdvanceRound() returns (advanced: bool)
      modifies this`round
      ensures round == NextRound(old(round))
      ensures advanced <==> !old(round).Showdown?
    {
      advanced := true;
      match round {
        case Preflop => round := Flop;
        case Flop => round := Turn;
        case Turn => round := River;
        case River => round := Showdown;
        case Showdown => advanced := false;
      }
    }
  }
}

module Poker {
  import opened Bags
  import opened Cards
  import opened Decks
  import opened Selections
  import opened Players
  import opened HandRun
  import opened Hands
  import opened HandRanking
  import HandSearch
  import HandTheorems
  import HandCategories
  import SidePots

  /** The cards position `k` is dealt: two, as far as the deck reaches. */
  ghost function DealtTo(undealt: seq<Card>, k: nat): seq<Card>
    requires 2 * k <= |undealt|
  {
    undealt[2 * k..2 * k + Dealable(undealt[2 * k..], 2)]
  }

  /** How many players a deck reaches: the last of them may find it exhausted. */
  ghost function Reached(players: nat, undealt: seq<Card>): nat {
    if 2 * players <= |undealt| then players else |undealt| / 2 + 1
  }

  /** Position `k` is the last among the first `n` that names its player. */
  ghost predicate LastNamed(players: seq<Player>, k: int, n: nat) {
    0 <= k < n <= |players| && forall l :: k < l < n ==> players[l] != players[k]
  }

  /** Two cards for one player, or as many as the deck still holds. */
  method DealPair(player: Player, deck: Deck) returns (dealt: bool)
    requires deck.Valid()
    modifies deck`next, player`holeCards
    ensures deck.Valid() && deck.cards == old(deck.cards)
    ensures dealt <==> 2 <= |old(deck.Undealt())|
    ensures
      var n := Dealable(old(deck.Undealt()), 2);
      player.holeCards == old(deck.Undealt())[..n] && deck.Undealt() == old(deck.Undealt())[n..]
  {
    hide FullDeck;
    player.holeCards := [];
    var first := deck.Deal();
    if first.None? { return false; }
    player.holeCards := player.holeCards + [first.value];
    var second := deck.Deal();
    if second.None? { return false; }
    player.holeCards := player.holeCards + [second.value];
    return true;
  }

  /**
   * Two cards each from the top of the deck; `false` is the exception of an exhausted deck. A player
   * listed again is dealt to again and keeps the later cards.
   */
  method DealHoleCards(hand: Hand, deck: Deck) returns (dealt: bool)
    requires deck.Valid()
    modifies deck`next, hand.players`holeCards
    ensures deck.Valid() && deck.cards == old(deck.cards)
    ensures dealt <==> 2 * |hand.players| <= |old(deck.Undealt())|
    ensures deck.Undealt() == if dealt then old(deck.Undealt())[2 * |hand.players|..] else []
    ensures
      var reached := Reached(|hand.players|, old(deck.Undealt()));
      && reached <= |hand.players|
      && (forall i :: LastNamed(hand.players, i, reached) ==>
            2 * i <= |old(deck.Undealt())| && hand.players[i].holeCards == DealtTo(old(deck.Undealt()), i))
      && (forall p :: p in hand.players && p !in hand.players[..reached] ==> p.holeCards == old(p.holeCards))
  {
    hide FullDeck;
    ghost var undealt := deck.Undealt();
    for i := 0 to |hand.players|
      invariant deck.Valid() && deck.cards == old(deck.cards)
      invariant 2 * i <= |undealt| && deck.Undealt() == undealt[2 * i..]
      invariant forall k :: LastNamed(hand.players, k, i) ==> hand.players[k].holeCards == DealtTo(undealt, k)
      invariant forall p :: p in hand.players && p !in hand.players[..i] ==> p.holeCards == old(p.holeCards)
    {
      assert hand.players[..i + 1] == hand.players[..i] + [hand.players[i]];
      assert forall k :: LastNamed(hand.players, k, i + 1) && k != i ==> LastNamed(hand.players, k, i);
      dealt := DealPair(hand.players[i], deck);
      assert hand.players[i].holeCards == DealtTo(undealt, i);
      if !dealt { return; }
    }
    assert hand.players[..|hand.players|] == hand.players;
    return true;
  }

  method DealCommunityCards(hand: Hand, deck: Deck, count: nat) returns (dealt: bool)
    requires deck.Valid()
    modifies hand`communityCards, deck`next
    ensures deck.Valid() && deck.cards == old(deck.cards)
    ensures dealt <==> count <= |old(deck.Undealt())|
    ensures
      var n := Dealable(old(deck.Undealt()), count);
      && hand.communityCards == old(hand.communityCards) + old(deck.Undealt())[..n]
      && deck.Undealt() == old(deck.Undealt())[n..]
  {
    ghost var undealt := deck.Undealt();
    for i := 0 to count
      invariant deck.Valid() && deck.cards == old(deck.cards)
      invariant i <= |undealt| && deck.Undealt() == undealt[i..]
      invariant hand.communityCards == old(hand.communityCards) + undealt[..i]
    {
      var card := deck.Deal();
      if card.None? { return false; }
      hand.communityCards := hand.communityCards + [card.value];
    }
    return true;
  }

  /**
   * A hand with two players on a freshly shuffled copy of the deck, small blind first to act. A player
   * posted as both blinds is dealt to twice and keeps the second pair.
   */
  method StartHand(hand: Hand, deck: Deck, id: string, smallBlind: Player, bigBlind: Player)
    requires deck.Valid() && hand.deck.Valid()
    modifies hand, hand.deck, smallBlind`holeCards, bigBlind`holeCards
    ensures hand.deck.Valid() && hand.players == [smallBlind, bigBlind]
    ensures multiset(hand.deck.cards) == multiset(old(deck.cards))
    ensures
      var start :=
        Started([smallBlind.stack, bigBlind.stack], hand.deck.cards, old(hand.playerBets), old(hand.folded));
      hand.View() ==
        if smallBlind != bigBlind then start else start.(hole := [hand.deck.cards[2..4], hand.deck.cards[2..4]])
    ensures hand.sidePots == [] && hand.winners == [] && hand.id == id
  {
    OpenBook(hand, id, [smallBlind, bigBlind]);
    hand.deck.CopyFrom(deck);
    hand.deck.Shuffle();
    ghost var order := hand.deck.cards;
    assert hand.deck.Undealt() == order && |order| == 52;
    hide FullDeck;
    var dealt := DealHoleCards(hand, hand.deck);
    assert hand.deck.Undealt() == order[4..];
    assert DealtTo(order, 0) == order[..2] && DealtTo(order, 1) == order[2..4];
    assert LastNamed(hand.players, 1, 2) && hand.players[1].holeCards == order[2..4];
    assert smallBlind != bigBlind ==> LastNamed(hand.players, 0, 2) && hand.players[0].holeCards == order[..2];
    assert hand.View().stacks == [smallBlind.stack, bigBlind.stack];
    assert hand.View().hole == [smallBlind.holeCards, bigBlind.holeCards];
  }

  /** The fields of a hand at its start: nothing bet, nobody folded, first player to act. */
  method OpenBook(hand: Hand, id: string, players: seq<Player>)
    modifies hand
    ensures hand.id == id && hand.players == players && hand.communityCards == [] && hand.round == Preflop
    ensures hand.Ledger() == Book(|players|, Resize(old(hand.playerBets), |players|, 0),
                                  Resize(old(hand.folded), |players|, false), 0, BIG_BLIND, 0, [])
    ensures hand.sidePots == [] && hand.winners == []
    ensures players == [] ==> hand.toAct == null
  {
    hand.id := id;
    hand.players := players;
    hand.playerBets := Resize(hand.playerBets, |players|, 0);
    hand.folded := Resize(hand.folded, |players|, false);
    hand.communityCards := [];
    hand.pot := 0;
    hand.sidePots := [];
    hand.round := Preflop;
    hand.toAct := if players == [] then null else players[0];
    hand.minRaise := BIG_BLIND;
    hand.history := [];
    hand.winners := [];
    hide Resize;
    assert hand.Log() == [];
  }

  /** Back to a hand without players, on a new deck. */
  method ResetHand(hand: Hand)
    requires hand.deck.Valid()
    modifies hand, hand.deck
    ensures hand.deck.Valid() && hand.players == [] && hand.playerBets == [] && hand.folded == []
    ensures hand.Ledger() == Book(0, [], [], 0, BIG_BLIND, 0, [])
    ensures hand.communityCards == [] && hand.deck.Undealt() == hand.deck.cards && hand.round == Preflop
    ensures hand.sidePots == [] && hand.winners == [] && hand.toAct == null && hand.id == ""
  {
    var d := new Deck();
    OpenBook(hand, "", []);
    hand.deck.CopyFrom(d);
    hand.deck.Shuffle();
    hide FullDeck;
  }

  /** A hand started on a reset hand has clean vectors: the pot is the recorded bets throughout. */
  lemma FreshVectorsAreClean()
    ensures Resize<int>([], 2, 0) == [0, 0] && Sum(Resize([], 2, 0)) == 0
  {
  }

  /** The first position of `player`, by the linear search of the source; the length when absent. */
  method FindIndex(players: seq<Player>, player: Player) returns (i: nat)
    ensures i == IndexOf(players, player)
  {
    i := 0;
    while i < |players|
      invariant i <= |players| && IndexOf(players, player) == i + IndexOf(players[i..], player)
    {
      if players[i] == player { return; }
      i := i + 1;
    }
  }

  /** Chips from the player's stack to the pot, added to the player's bets. */
  method PutInPot(hand: Hand, player: Player, i: nat, amount: int)
    requires |hand.playerBets| == |hand.players|
    modifies hand`playerBets, hand`pot, player`stack
    ensures player.stack == old(player.stack) - amount && hand.pot == old(hand.pot) + amount
    ensures hand.playerBets ==
      if i < |hand.players| then old(hand.playerBets)[i := old(hand.playerBets[i]) + amount] else old(hand.playerBets)
  {
    player.stack := player.stack - amount;
    hand.pot := hand.pot + amount;
    if i < |hand.players| { hand.playerBets := hand.playerBets[i := hand.playerBets[i] + amount]; }
  }

  /** Both per-player vectors are brought to the number of players before anything is checked. */
  method EnsureSized(hand: Hand)
    modifies hand`playerBets, hand`folded
    ensures hand.Ledger() == Sized(old(hand.Ledger()))
  {
    if |hand.folded| != |hand.players| {
      hand.folded := Resize(hand.folded, |hand.players|, false);
    }
    if |hand.playerBets| != |hand.players| {
      hand.playerBets := Resize(hand.playerBets, |hand.players|, 0);
    }
  }

  /** An accepted action goes into the history and passes the turn. */
  method RecordAction(hand: Hand, player: Player, action: ActionKind, amount: int)
    modifies hand`history, hand`toAct
    ensures hand.toAct == PassedOn(hand.players, old(hand.toAct))
    ensures hand.Ledger() == old(hand.Ledger()).(
      history := old(hand.Log()) + [Entry(IndexOf(hand.players, player), action, amount)],
      toAct := IndexOf(hand.players, hand.toAct))
  {
    hand.history := hand.history + [ActionHistory(player, action, amount)];
    if |hand.players| == 2 {
      hand.toAct := if hand.toAct == hand.players[0] then hand.players[1] else hand.players[0];
    }
  }

  /** The checks of each action and the chips or fold it brings, on sized vectors. */
  method MoveChips(hand: Hand, player: Player, action: ActionKind, amount: int) returns (ok: bool)
    requires |hand.playerBets| == |hand.folded| == |hand.players|
    modifies hand`playerBets, hand`folded, hand`pot, hand`minRaise, player`stack
    ensures ok <==> Accepts(old(hand.minRaise), old(player.stack), action, amount)
    ensures player.stack == old(player.stack) - if ok then Debit(action, amount) else 0
    ensures
      var before := old(hand.Ledger());
      hand.Ledger() ==
        if ok then
          var after := Record(before, IndexOf(hand.players, player), action, amount);
          after.(history := before.history, toAct := before.toAct)
        else before
  {
    ghost var before := hand.Ledger();
    assert Sized(before) == before;
    var i := FindIndex(hand.players, player);
    match action {
      case Fold =>
        if i < |hand.players| { hand.folded := hand.folded[i := true]; }
      case Call =>
        if amount > player.stack || amount < 0 { return false; }
        PutInPot(hand, player, i, amount);
      case Raise =>
        if amount < hand.minRaise || amount > player.stack || amount < 0 { return false; }
        PutInPot(hand, player, i, amount);
        hand.minRaise := amount;
      case Other(_) =>
        return false;
    }
    ok := true;
  }

  /**
   * The core action path: refusals leave the hand alone, acceptances are recorded and pass the turn.
   * It is open to strangers to the hand, whose chips reach the pot but no bet.
   */
  method ApplyAction(hand: Hand, player: Player?, action: ActionKind, amount: int) returns (ok: bool)
    modifies hand`playerBets, hand`folded, hand`pot, hand`minRaise, hand`history, hand`toAct
    modifies (if player == null then {} else {player})`stack
    ensures ok <==> player != null && Accepts(old(hand.minRaise), old(player.stack), action, amount)
    ensures hand.toAct == if ok then PassedOn(hand.players, old(hand.toAct)) else old(hand.toAct)
    ensures
      var before, toAct := old(hand.Ledger()), IndexOf(hand.players, hand.toAct);
      hand.Ledger() ==
        if player == null then before
        else if ok then Record(before, IndexOf(hand.players, player), action, amount).(toAct := toAct)
        else Sized(before)
    ensures player != null ==> player.stack == old(player.stack) - if ok then Debit(action, amount) else 0
  {
    if player == null { return false; }
    hide Record, Accepts, Sized, NextToAct, Entries;
    RecordInTwoSteps(hand.Ledger(), IndexOf(hand.players, player), action, amount);
    EnsureSized(hand);
    ok := MoveChips(hand, player, action, amount);
    if ok { RecordAction(hand, player, action, amount); }
  }

  /** The step of the value model that a call for `player` is. */
  ghost function ActionEvent(players: seq<Player>, player: Player, stack: int, action: ActionKind, amount: int): Event {
    if player in players then Event.Act(IndexOf(players, player), action, amount)
      else ActAsStranger(stack, action, amount)
  }

  /** Among different players the whole record of the betting follows the value model. */
  method ApplyInTurn(hand: Hand, player: Player, action: ActionKind, amount: int) returns (ok: bool)
    requires Distinct(hand.players)
    modifies hand`playerBets, hand`folded, hand`pot, hand`minRaise, hand`history, hand`toAct, player`stack
    ensures ok <==> Accepts(old(hand.minRaise), old(player.stack), action, amount)
    ensures
      var before := old(hand.Ledger());
      hand.Ledger() == if ok then Record(before, IndexOf(hand.players, player), action, amount) else Sized(before)
    ensures player.stack == old(player.stack) - if ok then Debit(action, amount) else 0
  {
    ghost var before := hand.Ledger();
    TurnByPosition(hand.players, hand.toAct, Sized(before));
    NextAfterRecord(before, IndexOf(hand.players, player), action, amount);
    hide Record, Sized, Accepts, Debit, PassedOn, Entries;
    ok := ApplyAction(hand, player, action, amount);
  }

  /** Among different players the core action path is an action step of the value model, for players and strangers. */
  method Act(hand: Hand, player: Player, action: ActionKind, amount: int) returns (ok: bool)
    requires hand.deck.Valid() && Distinct(hand.players)
    modifies hand`playerBets, hand`folded, hand`pot, hand`minRaise, hand`history, hand`toAct, player`stack
    ensures hand.deck.Valid()
    ensures hand.View() == Step(old(hand.View()), ActionEvent(hand.players, player, old(player.stack), action, amount))
    ensures ok <==> Accepts(old(hand.minRaise), old(player.stack), action, amount)
    ensures player.stack == old(player.stack) - if ok then Debit(action, amount) else 0
  {
    ghost var i, before := IndexOf(hand.players, player), hand.View();
    StepOfAction(before, i, player.stack, action, amount);
    hide Step, Record, Sized, Accepts, Debit, Entries, FullDeck;
    ok := ApplyInTurn(hand, player, action, amount);
    assert hand.View().hole == before.hole;
    assert hand.View().stacks == if ok && i < |hand.players| then before.stacks[i := player.stack] else before.stacks;
  }

  /** An action step, spelled out for a player at position `i` or, past the end, a stranger. */
  lemma StepOfAction(v: HandView, i: nat, stack: int, action: ActionKind, amount: int)
    requires |v.stacks| == v.book.players && i <= v.book.players && (i < v.book.players ==> v.stacks[i] == stack)
    ensures
      var e := if i < v.book.players then Event.Act(i, action, amount) else ActAsStranger(stack, action, amount);
      Step(v, e) ==
        if !Accepts(v.book.minRaise, stack, action, amount) then v.(book := Sized(v.book))
        else
          v.(book := Record(v.book, i, action, amount),
             stacks := if i < v.book.players then v.stacks[i := stack - Debit(action, amount)] else v.stacks)
  {
  }

  /** A record ends with the turn passed on. */
  lemma NextAfterRecord(b: Book, who: nat, action: ActionKind, amount: int)
    ensures
      Record(b, who, action, amount) == Record(b, who, action, amount).(toAct := NextToAct(Sized(b)))
  {
  }

  /** Entering the next round deals its community cards; `dealt` is false when the exhausted deck throws. */
  method AdvanceBettingRound(hand: Hand) returns (advanced: bool, dealt: bool)
    requires hand.deck.Valid()
    modifies hand`round, hand`communityCards, hand.deck`next
    ensures hand.deck.Valid() && hand.deck.cards == old(hand.deck.cards)
    ensures hand.View() == Step(old(hand.View()), Advance)
    ensures advanced <==> !old(hand.round).Showdown?
    ensures dealt <==> (advanced ==> CardsFor(hand.round) <= |old(hand.deck.Undealt())|)
  {
    hide FullDeck;
    ghost var before := hand.View();
    dealt := true;
    advanced := hand.AdvanceRound();
    if advanced {
      match hand.round {
        case Flop => dealt := DealCommunityCards(hand, hand.deck, 3);
        case Turn | River => dealt := DealCommunityCards(hand, hand.deck, 1);
        case _ =>
      }
    }
    assert hand.View().stacks == before.stacks && hand.View().hole == before.hole;
  }

  /** The players who have not folded; a missing entry counts as not folded. */
  ghost function Active(players: seq<Player>, folded: seq<bool>): (r: seq<Player>) {
    if players == [] then []
    else
      var i := |players| - 1;
      Active(players[..i], folded) + if i < |folded| && folded[i] then [] else [players[i]]
  }

  /**
   * Complete at the showdown, or when at most one player is left. The code reads `folded` at every
   * player's position even when the vector is shorter than the list of players. `inBounds` tells
   * whether all those reads exist; one past the end counts here as "not folded", the way the
   * code's other readers take it.
   */
  method IsHandComplete(hand: Hand) returns (complete: bool, ghost inBounds: bool)
    ensures complete <==> hand.round.Showdown? || |Active(hand.players, hand.folded)| <= 1
    ensures inBounds <==> hand.round.Showdown? || |hand.folded| >= |hand.players|
  {
    inBounds := true;
    if hand.round == Showdown { return true, true; }
    var active := 0;
    for i := 0 to |hand.players|
      invariant active == |Active(hand.players[..i], hand.folded)|
      invariant inBounds <==> i <= |hand.folded|
    {
      assert hand.players[..i + 1][..i] == hand.players[..i];
      inBounds := inBounds && i < |hand.folded|;
      if i >= |hand.folded| || !hand.folded[i] { active := active + 1; }
    }
    assert hand.players[..|hand.players|] == hand.players;
    complete := active <= 1;
  }

  ghost function CardsOf(hand: Hand, player: Player): seq<Card>
    reads hand, player
  {
    player.holeCards + hand.communityCards
  }

  /** `w` is the first of `active` whose hand has the highest rank. */
  ghost predicate FirstBest(ranks: seq<HandCategories.HandRank>, w: nat) {
    && w < |ranks|
    && (forall i :: 0 <= i < |ranks| ==> ranks[i].Level() <= ranks[w].Level())
    && (forall i :: 0 <= i < w ==> ranks[i].Level() < ranks[w].Level())
  }

  ghost function ActiveRanks(hand: Hand, active: seq<Player>): (r: seq<HandCategories.HandRank>)
    reads hand, active
    ensures |r| == |active|
  {
    seq(|active|, i requires 0 <= i < |active| reads hand, active => HandSearch.RankOfHand(CardsOf(hand, active[i])))
  }

  ghost predicate AllPlayable(hand: Hand, active: seq<Player>)
    reads hand, active
  {
    forall i :: 0 <= i < |active| ==> HandTheorems.Playable(CardsOf(hand, active[i]))
  }

  /** What the winners of a hand are: the last player left, or the first active player of maximal rank. */
  ghost predicate WinnersAre(hand: Hand, active: seq<Player>, r: Result<seq<Player>>)
    reads hand, active
  {
    if |active| <= 1 then r == Ok(active)
    else if !AllPlayable(hand, active) then r == InvalidArgument
    else r.Ok? && |r.value| == 1 && exists w: nat :: FirstBest(ActiveRanks(hand, active), w) && r.value[0] == active[w]
  }

  method ActivePlayers(hand: Hand) returns (active: seq<Player>)
    ensures active == Active(hand.players, hand.folded)
  {
    active := [];
    for i := 0 to |hand.players|
      invariant active == Active(hand.players[..i], hand.folded)
    {
      assert hand.players[..i + 1][..i] == hand.players[..i];
      if i >= |hand.folded| || !hand.folded[i] { active := active + [hand.players[i]]; }
    }
    assert hand.players[..|hand.players|] == hand.players;
  }

  /** Every active player's rank, or the exception thrown for the first one without five to seven cards. */
  method EvaluateActive(hand: Hand, active: seq<Player>) returns (r: Result<seq<HandCategories.HandRank>>)
    ensures r == if AllPlayable(hand, active) then Ok(ActiveRanks(hand, active)) else InvalidArgument
  {
    hide HandSearch.RankOfHand;
    var ranks := [];
    for i := 0 to |active|
      invariant |ranks| == i
      invariant forall k :: 0 <= k < i ==> HandTheorems.Playable(CardsOf(hand, active[k]))
      invariant forall k :: 0 <= k < i ==> ranks[k] == ActiveRanks(hand, active)[k]
    {
      var allCards := active[i].holeCards + hand.communityCards;
      var rank := HandSearch.Evaluate(allCards);
      if rank.InvalidArgument? { return InvalidArgument; }
      ranks := ranks + [rank.value];
    }
    assert ranks == ActiveRanks(hand, active);
    r := Ok(ranks);
  }

  /** std::max_element: the first of the maximal ranks. */
  method MaxElement(ranks: seq<HandCategories.HandRank>) returns (best: nat)
    requires ranks != []
    ensures FirstBest(ranks, best)
  {
    best := 0;
    for i := 1 to |ranks|
      invariant FirstBest(ranks[..i], best)
    {
      if ranks[best].Level() < ranks[i].Level() { best := i; }
    }
    assert ranks[..|ranks|] == ranks;
  }

  method DetermineWinners(hand: Hand) returns (r: Result<seq<Player>>)
    ensures WinnersAre(hand, Active(hand.players, hand.folded), r)
  {
    if hand.players == [] { return Ok([]); }
    var active := ActivePlayers(hand);
    if |active| == 1 {
      assert active == [active[0]];
      return Ok([active[0]]);
    }
    var ranks := EvaluateActive(hand, active);
    if ranks.InvalidArgument? { return InvalidArgument; }
    if ranks.value == [] { return Ok([]); }
    var best := MaxElement(ranks.value);
    r := Ok([active[best]]);
  }

  /** Position `i` has not folded. */
  ghost predicate Unfolded<T>(players: seq<T>, folded: seq<bool>, i: int) {
    0 <= i < |players| && !(i < |folded| && folded[i])
  }

  lemma {:induction false} ActiveAt(players: seq<Player>, folded: seq<bool>, k: nat) returns (i: nat)
    requires k < |Active(players, folded)|
    ensures Unfolded(players, folded, i) && players[i] == Active(players, folded)[k]
    decreases |players|
  {
    var init := players[..|players| - 1];
    if k < |Active(init, folded)| {
      i := ActiveAt(init, folded, k);
    } else {
      i := |players| - 1;
    }
  }

  lemma {:induction false} UnfoldedIsActive(players: seq<Player>, folded: seq<bool>, i: nat) returns (k: nat)
    requires Unfolded(players, folded, i)
    ensures k < |Active(players, folded)| && Active(players, folded)[k] == players[i]
    decreases |players|
  {
    var init := players[..|players| - 1];
    if i < |init| {
      k := UnfoldedIsActive(init, folded, i);
    } else {
      k := |Active(init, folded)|;
    }
  }

  /** At the showdown of a dealt hand every player has seven cards. */
  lemma ShowdownIsPlayable(hand: Hand, active: seq<Player>)
    requires hand.deck.Valid() && CardsInPlace(hand.View()) && hand.round.Showdown?
    requires forall i :: 0 <= i < |active| ==> active[i] in hand.players
    ensures AllPlayable(hand, active)
  {
  }

  /**
   * At the showdown `DetermineWinners` never fails, and with anybody left it names one player who has
   * not folded and whose rank no other such player exceeds.
   */
  lemma ShowdownHasWinner(hand: Hand, r: Result<seq<Player>>)
    requires hand.deck.Valid() && CardsInPlace(hand.View()) && hand.round.Showdown?
    requires WinnersAre(hand, Active(hand.players, hand.folded), r)
    requires exists i :: Unfolded(hand.players, hand.folded, i)
    ensures r.Ok? && |r.value| == 1
    ensures exists i :: Unfolded(hand.players, hand.folded, i) && hand.players[i] == r.value[0]
    ensures forall j :: Unfolded(hand.players, hand.folded, j) ==>
      HandSearch.RankOfHand(hand.players[j].holeCards + hand.communityCards).Level() <=
      HandSearch.RankOfHand(r.value[0].holeCards + hand.communityCards).Level()
  {
    hide HandSearch.RankOfHand, FullDeck, CardsInPlace, Active;
    var active := Active(hand.players, hand.folded);
    var u :| Unfolded(hand.players, hand.folded, u);
    var _ := UnfoldedIsActive(hand.players, hand.folded, u);
    forall k | 0 <= k < |active| ensures active[k] in hand.players {
      var _ := ActiveAt(hand.players, hand.folded, k);
    }
    ShowdownIsPlayable(hand, active);
    var ranks := ActiveRanks(hand, active);
    var w := WinnerIndex(hand, active, r);
    var i := ActiveAt(hand.players, hand.folded, w);
    assert hand.players[i] == r.value[0];
    forall j | Unfolded(hand.players, hand.folded, j)
      ensures
        HandSearch.RankOfHand(CardsOf(hand, hand.players[j])).Level() <=
        HandSearch.RankOfHand(CardsOf(hand, r.value[0])).Level()
    {
      var k := UnfoldedIsActive(hand.players, hand.folded, j);
      assert ranks[k].Level() <= ranks[w].Level();
    }
  }

  lemma WinnerIndex(hand: Hand, active: seq<Player>, r: Result<seq<Player>>) returns (w: nat)
    requires WinnersAre(hand, active, r) && AllPlayable(hand, active) && active != []
    ensures r.Ok? && |r.value| == 1 && FirstBest(ActiveRanks(hand, active), w) && r.value[0] == active[w]
  {
    hide HandSearch.RankOfHand, HandTheorems.Playable;
    if |active| == 1 { w := 0; }
    else { w :| FirstBest(ActiveRanks(hand, active), w) && r.value[0] == active[w]; }
  }

  /** The side pots of the recorded bets. */
  method CalculateSidePots(hand: Hand) returns (ghost levels: seq<int>)
    requires |hand.players| == |hand.playerBets|
    modifies hand`sidePots
    ensures SidePots.Layered(SidePots.Stakes<Player?>(hand.players, hand.playerBets), levels, hand.sidePots)
    ensures SidePots.Total(hand.sidePots) == Sum(hand.playerBets)
    ensures SidePots.Nested(hand.sidePots)
  {
    var pots, ls := SidePots.CalculateSidePots<Player?>(hand.players, hand.playerBets);
    hand.sidePots, levels := pots, ls;
  }
}
