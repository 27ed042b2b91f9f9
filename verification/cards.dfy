/** Playing cards: the rank*4+suit encoding and its two projections. */
module Cards {

  type Rank = r: int | 0 <= r < 13
  type Suit = s: int | 0 <= s < 4

  const ACE: Rank := 12

  /** A card is its encoding, a number below 52. */
  type Card = v: nat | v < 52

  /** The rank and suit of a card, as the evaluator works on them. */
  datatype CardValue = CardValue(rank: Rank, suit: Suit)

  function RankOf(c: Card): Rank {
    c / 4
  }

  function SuitOf(c: Card): Suit {
    c % 4
  }

  /** Building a card from a rank and a suit loses neither. */
  function FromParts(rank: Rank, suit: Suit): (c: Card)
    ensures RankOf(c) == rank && SuitOf(c) == suit
  {
    rank * 4 + suit
  }

  /** The encoding counts through the suits of one rank after the other. */
  lemma EncodingOrder(r: Rank, s: Suit, q: Rank, t: Suit)
    ensures FromParts(r, s) < FromParts(q, t) <==> r < q || (r == q && s < t)
  {
  }

  function ValueOf(c: Card): CardValue {
    CardValue(RankOf(c), SuitOf(c))
  }

  /** Different cards differ in rank or in suit. */
  lemma ValueOfInjective(a: Card, b: Card)
    ensures ValueOf(a) == ValueOf(b) ==> a == b
  {
    assert a == RankOf(a) * 4 + SuitOf(a);
    assert b == RankOf(b) * 4 + SuitOf(b);
  }
}
