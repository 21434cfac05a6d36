/**
 * Playing cards and the 52-card deck built by `createUniqueDeck`
 * (Casino/casino.js:418-435).
 */
module Deck {
  import opened Shuffle

  /** The four suits, written 'C', 'D', 'H', 'S' in the source. */
  datatype Suit = Clubs | Diamonds | Hearts | Spades

  /** A card: rank 2..14 (11..14 are J, Q, K, A) and a suit. */
  datatype Card = Card(rank: int, suit: Suit)

  /** The iteration orders of `createUniqueDeck`'s nested loops. */
  const Suits: seq<Suit> := [Clubs, Diamonds, Hearts, Spades]
  const Ranks: seq<int> := [2, 3, 4, 5, 6, 7, 8, 9, 10, 11, 12, 13, 14]
  const DeckSize: nat := 52

  /** A card that belongs to a standard deck. */
  predicate IsStandardCard(c: Card) {
    2 <= c.rank <= 14
  }

  /** The deck before shuffling: suit by suit, each suit in rank order. */
  function FullDeck(): (d: seq<Card>)
    ensures |d| == DeckSize
  {
    seq(52, k requires 0 <= k < 52 => Card(Ranks[k % 13], Suits[k / 13]))
  }

  lemma RanksAt(k: nat)
    requires k < 13
    ensures Ranks[k] == k + 2
  {
  }

  function SuitIndex(s: Suit): (i: nat)
    ensures i < 4 && Suits[i] == s
  {
    match s
    case Clubs => 0
    case Diamonds => 1
    case Hearts => 2
    case Spades => 3
  }

  /** The card the inner loop pushes at suit position si and rank position ri. */
  lemma FullDeckAt(si: nat, ri: nat)
    requires si < 4 && ri < 13
    ensures FullDeck()[13 * si + ri] == Card(Ranks[ri], Suits[si])
  {
    var k := 13 * si + ri;
    assert k / 13 == si && k % 13 == ri;
  }

  /** The unshuffled deck holds every standard card and nothing else. */
  lemma FullDeckComplete(c: Card)
    ensures c in FullDeck() <==> IsStandardCard(c)
  {
    if IsStandardCard(c) {
      var si, ri := SuitIndex(c.suit), c.rank - 2;
      FullDeckAt(si, ri);
      RanksAt(ri);
    } else if c in FullDeck() {
      var k :| 0 <= k < 52 && FullDeck()[k] == c;
      RanksAt(k % 13);
    }
  }

  /** The unshuffled deck holds no card twice. */
  lemma FullDeckDistinct()
    ensures Distinct(FullDeck())
  {
    var d := FullDeck();
    forall i, j | 0 <= i < j < 52 ensures d[i] != d[j] {
      RanksAt(i % 13);
      RanksAt(j % 13);
      assert i == 13 * (i / 13) + i % 13;
      assert j == 13 * (j / 13) + j % 13;
    }
  }

  /**
   * The source's `createUniqueDeck`: push every card, suit by suit and rank
   * by rank, then shuffle the array in place with `shuffleArray`.
   */
  method CreateUniqueDeck(draws: seq<nat>) returns (deck: seq<Card>)
    requires ValidDraws(draws, DeckSize)
    ensures deck == Shuffled(FullDeck(), draws)
    ensures |deck| == DeckSize && Distinct(deck)
    ensures forall c :: c in deck <==> IsStandardCard(c)
  {
    var ordered: seq<Card> := [];
    for si := 0 to |Suits|
      invariant ordered == FullDeck()[..13 * si]
    {
      for ri := 0 to |Ranks|
        invariant ordered == FullDeck()[..13 * si + ri]
      {
        FullDeckAt(si, ri);
        ordered := ordered + [Card(Ranks[ri], Suits[si])];
      }
    }
    assert ordered == FullDeck();
    var a := new Card[DeckSize](k requires 0 <= k < DeckSize => ordered[k]);
    assert a[..] == FullDeck();
    ShuffleArray(a, draws);
    deck := a[..];
    FullDeckDistinct();
    ShuffledDistinct(FullDeck(), draws);
    forall c ensures c in deck <==> IsStandardCard(c) {
      FullDeckComplete(c);
      assert c in deck <==> c in multiset(deck);
    }
  }
}
