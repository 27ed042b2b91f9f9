/** The 52-card deck: built by rank and suit, shuffled in place, dealt from the front. */
module Decks {
  import opened Bags
  import opened Cards
  import opened Selections

  ghost predicate FullDeck(cards: seq<Card>) {
    |cards| == 52 && forall c: Card :: multiset(cards)[c] == 1
  }

  /** The cards 0 .. n-1 in order. */
  ghost function FirstCards(n: nat): (r: seq<Card>)
    requires n <= 52
    ensures |r| == n
  {
    seq(n, i requires 0 <= i < n => i as Card)
  }

  lemma {:induction false} FirstCardsOnce(n: nat, c: Card)
    requires n <= 52
    ensures multiset(FirstCards(n))[c] == if c < n then 1 else 0
    decreases n
  {
    if n > 0 {
      FirstCardsOnce(n - 1, c);
      assert FirstCards(n) == FirstCards(n - 1) + [(n - 1) as Card];
    }
  }

  method CreateStandardDeck() returns (deck: seq<Card>)
    ensures FullDeck(deck)
  {
    deck := [];
    for rank := 0 to 13
      invariant deck == FirstCards(4 * rank)
    {
      for suit := 0 to 4
        invariant deck == FirstCards(4 * rank + suit)
      {
        deck := deck + [FromParts(rank, suit)];
      }
    }
    forall c: Card ensures multiset(deck)[c] == 1 { FirstCardsOnce(52, c); }
  }

  lemma PermutedDeck(a: seq<Card>, b: seq<Card>)
    requires FullDeck(a) && multiset(a) == multiset(b)
    ensures FullDeck(b)
  {
    assert |multiset(a)| == |multiset(b)|;
  }

  class Deck {
    var cards: seq<Card>
    var next: nat

    ghost predicate Valid()
      reads this
    {
      next <= |cards| && FullDeck(cards)
    }

    ghost function Undealt(): seq<Card>
      reads this
      requires Valid()
    {
      cards[next..]
    }

    constructor ()
      ensures Valid() && next == 0
    {
      var standard := CreateStandardDeck();
      cards, next := standard, 0;
      new;
      Shuffle();
    }

    /** std::shuffle: any permutation may come out. */
    method Shuffle()
      requires Valid()
      modifies this
      ensures Valid() && next == 0
      ensures multiset(cards) == multiset(old(cards))
    {
      for i := 0 to |cards|
        invariant |cards| == |old(cards)|
        invariant multiset(cards) == multiset(old(cards))
      {
        var j: int :| i <= j < |cards|;
        SwapKeepsBag(cards, i, j);
        cards := cards[i := cards[j]][j := cards[i]];
      }
      PermutedDeck(old(cards), cards);
      next := 0;
    }

    /** `None` is the thrown std::out_of_range. */
    method Deal() returns (card: Option<Card>)
      requires Valid()
      modifies this`next
      ensures Valid()
      ensures old(Undealt()) == [] ==> card == None && next == old(next)
      ensures old(Undealt()) != [] ==> card == Some(old(Undealt())[0]) && Undealt() == old(Undealt())[1..]
    {
      if next >= |cards| { return None; }
      card := Some(cards[next]);
      next := next + 1;
    }

    method Size() returns (n: nat)
      requires Valid()
      ensures n == |Undealt()|
    {
      n := |cards| - next;
    }

    /** Deck assignment copies the cards and the position. */
    method CopyFrom(other: Deck)
      requires other.Valid()
      modifies this
      ensures Valid() && cards == old(other.cards) && next == old(other.next)
    {
      cards, next := other.cards, other.next;
    }
  }

  lemma SwapKeepsBag(s: seq<Card>, i: nat, j: nat)
    requires i <= j < |s|
    ensures multiset(s[i := s[j]][j := s[i]]) == multiset(s)
  {
  }
}
