/**
 * The simulated poker table of `initPokerGame`, `dealCard`, `simulateDeal`
 * and `simulateBettingRound` (Casino/casino.js:438-572).
 *
 * The global `pokerDeck`, the four control buttons and the pending
 * settlement timer become the fields of one `PokerTable` object per visit
 * to a table. The settlement that `setTimeout` runs three seconds after the
 * river is the separate method `Settle`, which the caller invokes later.
 */
module Poker {
  import opened Wrappers
  import opened Search
  import opened Shuffle
  import opened Deck
  import opened Casino

  /** The three reveal buttons' rounds, wired at Casino/casino.js:479-481. */
  datatype Round = Flop | Turn | River

  /** The four buttons of the poker controls. */
  datatype Button = DealButton | FlopButton | TurnButton | RiverButton

  /** Which button is live, or that the river's settlement is still pending. */
  datatype Stage = AwaitingDeal | AwaitingFlop | AwaitingTurn | AwaitingRiver | Settling

  const EntryFee: int := 50
  const WinAmount: int := 400
  const LossAmount: int := 100

  /** Hole cards per player: two for Texas Hold'em, four for any other game key. */
  function CardsPerPlayer(game: GameKey): (n: nat)
    ensures n == 2 <==> game == TexasHoldem
    ensures n == 2 || n == 4
  {
    if game == TexasHoldem then 2 else 4
  }

  /**
   * Community cards each round reveals: the fixed 3/1/1 schedule, which
   * takes the table from no community card to the five of the river.
   */
  function CommunityCount(round: Round): (n: nat)
    ensures CommunityShown(AfterRound(round)) == CommunityShown(RoundStage(round)) + n
  {
    match round
    case Flop => 3
    case Turn => 1
    case River => 1
  }

  /** The stage in which a round's button is the live one. */
  function RoundStage(round: Round): Stage {
    match round
    case Flop => AwaitingFlop
    case Turn => AwaitingTurn
    case River => AwaitingRiver
  }

  /** The stage a round leads to. */
  function AfterRound(round: Round): Stage {
    match round
    case Flop => AwaitingTurn
    case Turn => AwaitingRiver
    case River => Settling
  }

  /**
   * `reduce((max, card) => Math.max(max, card.rank), acc)`: a left-to-right
   * scan keeping the larger of the running value and each card's rank.
   */
  function HighestRank(hand: seq<Card>, acc: int): (r: int)
    ensures r >= acc
    ensures forall k :: 0 <= k < |hand| ==> hand[k].rank <= r
    decreases |hand|
  {
    assert forall k :: 1 <= k < |hand| ==> hand[k] == hand[1..][k - 1];
    if hand == [] then acc
    else HighestRank(hand[1..], if hand[0].rank > acc then hand[0].rank else acc)
  }

  /** The scan yields the largest of `acc` and the ranks, and that value is `acc` or some card's rank. */
  lemma {:induction false} HighestRankIsMaximum(hand: seq<Card>, acc: int)
    ensures HighestRank(hand, acc) >= acc
    ensures forall k :: 0 <= k < |hand| ==> hand[k].rank <= HighestRank(hand, acc)
    ensures HighestRank(hand, acc) == acc || exists k :: 0 <= k < |hand| && hand[k].rank == HighestRank(hand, acc)
    decreases |hand|
  {
    if hand != [] {
      var next := if hand[0].rank > acc then hand[0].rank else acc;
      HighestRankIsMaximum(hand[1..], next);
      assert forall k :: 1 <= k < |hand| ==> hand[k] == hand[1..][k - 1];
      if HighestRank(hand, acc) != next {
        var k :| 0 <= k < |hand[1..]| && hand[1..][k].rank == HighestRank(hand, acc);
        assert hand[k + 1].rank == HighestRank(hand, acc);
      }
    }
  }

  /** The test `find` applies at Casino/casino.js:502. */
  function HasRank(rank: int): Card -> bool {
    (c: Card) => c.rank == rank
  }

  /**
   * The position of the cosmetic "best card" of Casino/casino.js:501-502:
   * the scan for the highest rank starts from 0, then `find` looks that
   * rank up.
   */
  function HighestCardIndex(hand: seq<Card>): (r: Option<nat>)
    ensures r.Some? ==> r.value < |hand|
  {
    FindFirst(hand, HasRank(HighestRank(hand, 0)))
  }

  /**
   * The card shown as the best one, if any: a card of the hand that no card
   * outranks; there is none exactly when every rank is negative.
   */
  function HighestCard(hand: seq<Card>): (r: Option<Card>)
    ensures r.Some? ==> r.value in hand && forall k :: 0 <= k < |hand| ==> hand[k].rank <= r.value.rank
    ensures r.None? <==> forall k :: 0 <= k < |hand| ==> hand[k].rank < 0
  {
    HighestRankIsMaximum(hand, 0);
    FindFirstIsFirst(hand, HasRank(HighestRank(hand, 0)));
    match HighestCardIndex(hand)
    case Some(i) => Some(hand[i])
    case None => None
  }

  /**
   * The best card is the first card, in hand order, whose rank no card of the
   * hand exceeds; there is none exactly when every rank is negative (or the
   * hand is empty), which cannot happen for a dealt hand.
   */
  lemma HighestCardIsFirstMaximum(hand: seq<Card>)
    ensures HighestCardIndex(hand).Some? ==>
      var i := HighestCardIndex(hand).value;
      HighestCard(hand) == Some(hand[i]) &&
      (forall k :: 0 <= k < |hand| ==> hand[k].rank <= hand[i].rank) &&
      (forall k :: 0 <= k < i ==> hand[k].rank < hand[i].rank)
    ensures HighestCard(hand).None? <==> forall k :: 0 <= k < |hand| ==> hand[k].rank < 0
  {
    HighestRankIsMaximum(hand, 0);
    FindFirstIsFirst(hand, HasRank(HighestRank(hand, 0)));
  }

  /**
   * The last n cards of `d`, in the order n calls of `pop` remove them: the
   * reference definition the dealing methods are proved against.
   */
  function Popped(d: seq<Card>, n: nat): (r: seq<Card>)
    requires n <= |d|
    ensures |r| == n && forall k :: 0 <= k < n ==> r[k] == d[|d| - 1 - k]
  {
    seq(n, k requires 0 <= k < n => d[|d| - 1 - k])
  }

  /** Popping m cards and then k more yields the cards of m + k pops at once. */
  lemma PoppedAppend(d: seq<Card>, m: nat, k: nat)
    requires m + k <= |d|
    ensures Popped(d, m) + Popped(d[..|d| - m], k) == Popped(d, m + k)
  {
    var both := Popped(d, m) + Popped(d[..|d| - m], k);
    forall i | m <= i < m + k ensures both[i] == Popped(d, m + k)[i] {
      assert both[i] == Popped(d[..|d| - m], k)[i - m];
    }
  }

  /** Multiset addition regrouped: the step `PoppedPermutes` takes per card. */
  lemma Regroup(popped: multiset<Card>, left: multiset<Card>, earlier: multiset<Card>, top: multiset<Card>, rest: multiset<Card>, all: multiset<Card>)
    requires popped == top + earlier && earlier + left == rest && all == rest + top
    ensures popped + left == all
  {
  }

  /** The popped cards and what is left of the deck are together the deck's cards. */
  lemma {:induction false} PoppedPermutes(d: seq<Card>, n: nat)
    requires n <= |d|
    ensures multiset(Popped(d, n)) + multiset(d[..|d| - n]) == multiset(d)
    decreases n
  {
    if n == 0 {
      assert d[..|d|] == d;
    } else {
      var rest, last := d[..|d| - 1], d[|d| - 1];
      PoppedPermutes(rest, n - 1);
      assert multiset(Popped(d, n)) == multiset{last} + multiset(Popped(rest, n - 1)) by {
        PoppedAppend(d, 1, n - 1);
        assert Popped(d, n) == [last] + Popped(rest, n - 1);
      }
      assert multiset(rest[..|rest| - (n - 1)]) == multiset(d[..|d| - n]) by {
        assert rest[..|rest| - (n - 1)] == d[..|d| - n];
      }
      assert multiset(d) == multiset(rest) + multiset{last} by {
        assert d == rest + [last];
      }
      Regroup(multiset(Popped(d, n)), multiset(d[..|d| - n]), multiset(Popped(rest, n - 1)), multiset{last}, multiset(rest), multiset(d));
    }
  }

  /**
   * When the deck and the cards on the table together hold each card of the
   * standard deck at most once, the table holds no card twice, none of its
   * cards is still in the deck, and each is a standard card.
   */
  lemma TableCardsDistinct(deck: seq<Card>, table: seq<Card>)
    requires multiset(deck) + multiset(table) <= multiset(FullDeck())
    ensures Distinct(table)
    ensures forall c :: c in table ==> c !in deck && IsStandardCard(c)
  {
    FullDeckDistinct();
    assert multiset(table + deck) == multiset(table) + multiset(deck);
    DistinctSub(table + deck, FullDeck());
    forall c | c in table ensures c !in deck && IsStandardCard(c) {
      DistinctMultiplicity(table + deck, c);
      assert c in multiset(FullDeck());
      FullDeckComplete(c);
    }
    forall i, j | 0 <= i < j < |table| ensures table[i] != table[j] {
      assert (table + deck)[i] == table[i] && (table + deck)[j] == table[j];
    }
  }

  /** The number of community cards on the table once a hand reaches a stage. */
  function CommunityShown(stage: Stage): nat {
    match stage
    case AwaitingFlop => 0
    case AwaitingTurn => 3
    case AwaitingRiver => 4
    case _ => 5
  }

  class PokerTable {
    const game: GameKey
    const ledger: CasinoState
    /** The global `pokerDeck`; `dealCard` pops from its end. */
    var deck: seq<Card>
    /** The cards popped from `deck` since it was last built, in the order they were dealt. */
    ghost var dealt: seq<Card>
    /** The deck has not been rebuilt since the current hand's hole cards were dealt. */
    ghost var handIntact: bool
    /** The phase of the hand, which the buttons reflect. */
    ghost var stage: Stage
    var hand: seq<Card>
    var community: seq<Card>
    /** The card named in the hand evaluation display. */
    var best: Option<Card>
    var dealEnabled: bool
    var flopEnabled: bool
    var turnEnabled: bool
    var riverEnabled: bool
    /** The coin flip of a river whose settlement has not run yet. */
    var pending: Option<bool>

    /** The deck and the cards dealt from it since it was built make up one standard deck. */
    ghost predicate DeckValid()
      reads this`deck, this`dealt
    {
      multiset(deck) + multiset(dealt) == multiset(FullDeck())
    }

    /** While the deck is not rebuilt, the cards on the table are among the cards dealt from it. */
    ghost predicate TableValid()
      reads this`hand, this`community, this`handIntact, this`dealt
    {
      handIntact ==> multiset(hand + community) <= multiset(dealt)
    }

    /** Exactly the stage's button is enabled; none while a settlement is pending. */
    ghost predicate Controls()
      reads this`stage, this`dealEnabled, this`flopEnabled, this`turnEnabled, this`riverEnabled, this`pending
    {
      dealEnabled == (stage == AwaitingDeal) &&
      flopEnabled == (stage == AwaitingFlop) &&
      turnEnabled == (stage == AwaitingTurn) &&
      riverEnabled == (stage == AwaitingRiver) &&
      pending.Some? == (stage == Settling)
    }

    /** The cards on the table at each stage. */
    ghost predicate Shape()
      reads this`stage, this`hand, this`community
    {
      (stage == AwaitingDeal && hand == [] && community == []) ||
      (|hand| == CardsPerPlayer(game) && |community| == CommunityShown(stage))
    }

    predicate Enabled(b: Button)
      reads this
    {
      match b
      case DealButton => dealEnabled
      case FlopButton => flopEnabled
      case TurnButton => turnEnabled
      case RiverButton => riverEnabled
    }

    /** The table's invariant: one live control at a time, and a consistent deck. */
    ghost predicate Valid()
      reads this
    {
      DeckValid() && TableValid() && Controls() && Shape()
    }

    /**
     * The "unique deck" promise of Casino/casino.js:438-445: every card
     * dealt since the deck was last built, in this hand or an earlier one,
     * is a standard card dealt once and no longer in the deck.
     */
    lemma DealtDistinct()
      requires DeckValid()
      ensures Distinct(dealt)
      ensures forall c :: c in dealt ==> c !in deck && IsStandardCard(c)
    {
      TableCardsDistinct(deck, dealt);
    }

    /**
     * While the deck has not been rebuilt during the hand, the hole cards and
     * the community cards are distinct standard cards, none of them still in
     * the deck.
     */
    lemma TableDistinct()
      requires Valid() && handIntact
      ensures Distinct(hand + community)
      ensures forall c :: c in hand + community ==> c !in deck && IsStandardCard(c)
    {
      DealtDistinct();
      DistinctSub(hand + community, dealt);
      forall c | c in hand + community ensures c in dealt {
        assert c in multiset(hand + community);
      }
    }

    /**
     * `initPokerGame` with its inner `resetPokerInterface`: build a deck,
     * charge the entry fee, enable only "deal", and build the deck again
     * (Casino/casino.js:449-492).
     */
    constructor (game: GameKey, ledger: CasinoState, firstDraws: seq<nat>, draws: seq<nat>)
      requires ValidDraws(firstDraws, DeckSize) && ValidDraws(draws, DeckSize)
      modifies ledger
      ensures Valid() && stage == AwaitingDeal
      ensures this.game == game && this.ledger == ledger
      ensures deck == Shuffled(FullDeck(), draws) && hand == [] && community == []
      ensures handIntact && dealt == []
      ensures ledger.coins == old(ledger.coins) - EntryFee
    {
      this.game := game;
      this.ledger := ledger;
      var first := CreateUniqueDeck(firstDraws);
      deck, dealt := first, [];
      handIntact, stage := true, AwaitingDeal;
      hand, community, best := [], [], None;
      dealEnabled, flopEnabled, turnEnabled, riverEnabled := true, false, false, false;
      pending := None;
      new;
      ledger.coins := ledger.coins - EntryFee;
      deck := CreateUniqueDeck(draws);
      dealt := [];
      ShuffledPermutes(FullDeck(), draws);
    }

    /**
     * The rebuild in `dealCard` (Casino/casino.js:440-442): a freshly built
     * and shuffled deck, whose last card is the one the shuffle's first draw
     * picked, and no card dealt from it yet.
     */
    method RebuildDeck(draws: seq<nat>)
      requires ValidDraws(draws, DeckSize)
      modifies this`deck, this`dealt
      ensures deck == Shuffled(FullDeck(), draws) && |deck| == DeckSize && dealt == []
      ensures multiset(deck) == multiset(FullDeck()) && DeckValid()
      ensures deck[DeckSize - 1] == FullDeck()[draws[DeckSize - 1]]
    {
      deck := CreateUniqueDeck(draws);
      dealt := [];
      ShuffledPermutes(FullDeck(), draws);
      ShuffledLast(FullDeck(), draws);
    }

    /**
     * `dealCard`: pop the deck's last card, first replacing an empty deck by
     * a freshly built and shuffled one.
     */
    method DealCard(draws: seq<nat>) returns (card: Card)
      requires DeckValid() && ValidDraws(draws, DeckSize)
      modifies this`deck, this`dealt
      ensures DeckValid() && IsStandardCard(card)
      ensures dealt == (if old(deck) == [] then [] else old(dealt)) + [card]
      ensures old(deck) != [] ==> card == old(deck)[|old(deck)| - 1] && deck == old(deck)[..|old(deck)| - 1]
      ensures old(deck) == [] ==> deck + [card] == Shuffled(FullDeck(), draws) && |deck| == DeckSize - 1
      ensures old(deck) == [] ==> card == FullDeck()[draws[DeckSize - 1]]
      ensures multiset(deck) + multiset{card} == if old(deck) == [] then multiset(FullDeck()) else multiset(old(deck))
    {
      if deck == [] {
        RebuildDeck(draws);
      }
      card := deck[|deck| - 1];
      assert deck == deck[..|deck| - 1] + [card];
      FullDeckComplete(card);
      assert card in multiset(FullDeck());
      deck := deck[..|deck| - 1];
      dealt := dealt + [card];
    }

    /**
     * `Array.from({ length: n }, () => dealCard())`: n cards in the order
     * they are popped. Unless the deck runs out on the way, they are the
     * deck's last n cards, read from the end, and the deck keeps the rest.
     */
    method DealCards(n: nat, draws: seq<nat>) returns (cards: seq<Card>)
      requires DeckValid() && ValidDraws(draws, DeckSize)
      modifies this`deck, this`dealt
      ensures DeckValid() && |cards| == n
      ensures forall c :: c in cards ==> IsStandardCard(c)
      ensures n <= |old(deck)| ==> cards == Popped(old(deck), n) && deck == old(deck)[..|old(deck)| - n]
      ensures n <= |old(deck)| ==> multiset(deck) + multiset(cards) == multiset(old(deck))
      ensures n <= |old(deck)| ==> dealt == old(dealt) + cards
    {
      cards := [];
      ghost var start, startDealt := deck, dealt;
      while |cards| < n
        invariant DeckValid() && |cards| <= n
        invariant forall c :: c in cards ==> IsStandardCard(c)
        invariant |cards| <= |start| ==> cards == Popped(start, |cards|) && deck == start[..|start| - |cards|]
        invariant |cards| <= |start| ==> multiset(deck) + multiset(cards) == multiset(start)
        invariant |cards| <= |start| ==> dealt == startDealt + cards
      {
        var card := DealCard(draws);
        cards := cards + [card];
      }
    }

    /**
     * The first half of `simulateDeal`: deal the hole cards and pick the best
     * one (Casino/casino.js:499-502). The hand is tracked afresh from here.
     */
    method DealHand(draws: seq<nat>)
      requires DeckValid() && ValidDraws(draws, DeckSize)
      modifies this`deck, this`dealt, this`hand, this`best, this`handIntact
      ensures DeckValid()
      ensures |hand| == CardsPerPlayer(game) && best == HighestCard(hand) && best.Some?
      ensures handIntact == (|hand| <= |old(deck)|)
      ensures handIntact ==> hand == Popped(old(deck), |hand|) && deck == old(deck)[..|old(deck)| - |hand|]
      ensures handIntact ==> dealt == old(dealt) + hand
    {
      var cardsPerPlayer := CardsPerPlayer(game);
      handIntact := cardsPerPlayer <= |deck|;
      var handObjects := DealCards(cardsPerPlayer, draws);
      var highestRank := HighestRank(handObjects, 0);
      var highest := FindFirst(handObjects, HasRank(highestRank));
      hand := handObjects;
      best := if highest.Some? then Some(handObjects[highest.value]) else None;
      HighestCardIsFirstMaximum(hand);
      assert hand[0] in hand;
    }

    /** The button handling of `simulateDeal`: "deal" off, "flop" on (Casino/casino.js:521-522). */
    method EnableFlop()
      requires Controls() && stage == AwaitingDeal
      modifies this`dealEnabled, this`flopEnabled, this`stage
      ensures Controls() && stage == AwaitingFlop
    {
      dealEnabled := false;
      flopEnabled := true;
      stage := AwaitingFlop;
    }

    /**
     * `simulateDeal`: deal the hole cards, show the best one, then disable
     * "deal", enable "flop" and clear the community cards
     * (Casino/casino.js:495-526).
     */
    method SimulateDeal(draws: seq<nat>)
      requires Valid() && stage == AwaitingDeal && ValidDraws(draws, DeckSize)
      modifies this
      ensures Valid() && stage == AwaitingFlop
      ensures |hand| == CardsPerPlayer(game) && community == []
      ensures best == HighestCard(hand) && best.Some?
      ensures handIntact == (|hand| <= |old(deck)|)
      ensures handIntact ==> hand == Popped(old(deck), |hand|) && deck == old(deck)[..|old(deck)| - |hand|]
      ensures handIntact ==> dealt == old(dealt) + hand
      ensures pending == old(pending)
    {
      DealHand(draws);
      EnableFlop();
      community := [];
      assert hand + community == hand;
      assert handIntact ==> multiset(dealt) == multiset(old(dealt)) + multiset(hand);
    }

    /**
     * `simulateDeal` as the comments at Casino/casino.js:439 and :487 intend
     * it: the hand starts from a freshly built and shuffled deck, so the hand
     * is dealt from 52 cards.
     */
    method SimulateDealFreshDeck(deckDraws: seq<nat>, draws: seq<nat>)
      requires Valid() && stage == AwaitingDeal
      requires ValidDraws(deckDraws, DeckSize) && ValidDraws(draws, DeckSize)
      modifies this
      ensures Valid() && stage == AwaitingFlop && handIntact
      ensures |hand| == CardsPerPlayer(game) && community == []
      ensures hand == Popped(Shuffled(FullDeck(), deckDraws), |hand|)
      ensures deck == Shuffled(FullDeck(), deckDraws)[..DeckSize - |hand|] && dealt == hand
      ensures best == HighestCard(hand) && pending == old(pending)
    {
      var built := CreateUniqueDeck(deckDraws);
      deck, dealt := built, [];
      handIntact := false;
      ShuffledPermutes(FullDeck(), deckDraws);
      SimulateDeal(draws);
    }

    /**
     * The first half of `simulateBettingRound`: deal `count` cards and append
     * them to the community cards (Casino/casino.js:532-545).
     */
    method DealCommunity(count: nat, draws: seq<nat>)
      requires DeckValid() && TableValid() && ValidDraws(draws, DeckSize)
      modifies this`deck, this`dealt, this`community, this`handIntact
      ensures DeckValid() && TableValid()
      ensures |community| == |old(community)| + count && community[..|old(community)|] == old(community)
      ensures count <= |old(deck)| ==> community == old(community) + Popped(old(deck), count)
      ensures count <= |old(deck)| ==> deck == old(deck)[..|old(deck)| - count]
      ensures count <= |old(deck)| ==> dealt == old(dealt) + community[|old(community)|..]
      ensures handIntact == (old(handIntact) && count <= |old(deck)|)
    {
      var intact := handIntact && count <= |deck|;
      var cards := DealCards(count, draws);
      var shown := community + cards;
      assert shown[..|community|] == community;
      assert hand + shown == (hand + community) + cards;
      assert shown[|community|..] == cards;
      community, handIntact := shown, intact;
    }

    /**
     * The button handling of `simulateBettingRound` (Casino/casino.js:550-571):
     * the round's button is disabled and the next round's enabled; after the
     * river no button is, and the coin flip waits for the settlement.
     */
    method AdvanceControls(round: Round, didWin: bool)
      requires Controls() && stage == RoundStage(round)
      modifies this`flopEnabled, this`turnEnabled, this`riverEnabled, this`pending, this`stage
      ensures Controls() && stage == AfterRound(round)
      ensures pending == (if round == River then Some(didWin) else None)
    {
      match round {
        case Flop =>
          flopEnabled := false;
          turnEnabled := true;
        case Turn =>
          turnEnabled := false;
          riverEnabled := true;
        case River =>
          riverEnabled := false;
          pending := Some(didWin);
      }
      stage := AfterRound(round);
    }

    /**
     * `simulateBettingRound`: append the round's community cards, disable its
     * button and enable the next one; the river instead draws the coin flip
     * `didWin` and schedules `Settle` (Casino/casino.js:529-572).
     */
    method SimulateBettingRound(round: Round, draws: seq<nat>, didWin: bool)
      requires Valid() && stage == RoundStage(round) && ValidDraws(draws, DeckSize)
      modifies this
      ensures Valid() && stage == AfterRound(round)
      ensures hand == old(hand) && best == old(best)
      ensures |community| == |old(community)| + CommunityCount(round)
      ensures community[..|old(community)|] == old(community)
      ensures CommunityCount(round) <= |old(deck)| ==> community == old(community) + Popped(old(deck), CommunityCount(round))
      ensures CommunityCount(round) <= |old(deck)| ==> deck == old(deck)[..|old(deck)| - CommunityCount(round)]
      ensures CommunityCount(round) <= |old(deck)| ==> dealt == old(dealt) + community[|old(community)|..]
      ensures handIntact == (old(handIntact) && CommunityCount(round) <= |old(deck)|)
      ensures pending == (if round == River then Some(didWin) else None)
    {
      DealCommunity(CommunityCount(round), draws);
      AdvanceControls(round, didWin);
    }

    /**
     * The river's delayed continuation: credit 400 coins on a win, debit 100
     * on a loss, and enable "deal" again (Casino/casino.js:561-570). The deck
     * is left as it is, so the next hand draws from it.
     */
    method Settle()
      requires Valid() && stage == Settling
      modifies this, ledger
      ensures Valid() && stage == AwaitingDeal
      ensures ledger.coins == old(ledger.coins) + (if old(pending.value) then WinAmount else -LossAmount)
      ensures deck == old(deck) && dealt == old(dealt) && handIntact == old(handIntact)
      ensures hand == old(hand) && community == old(community) && best == old(best)
    {
      var coinChange := if pending.value then WinAmount else -LossAmount;
      ledger.coins := ledger.coins + coinChange;
      dealEnabled := true;
      pending := None;
      stage := AwaitingDeal;
    }

    /**
     * A click on one of the four buttons (listeners of Casino/casino.js:478-481).
     * A disabled button delivers no click, so nothing changes; an enabled one
     * runs its handler and moves the hand to the next stage.
     */
    method Click(b: Button, draws: seq<nat>, didWin: bool)
      requires Valid() && ValidDraws(draws, DeckSize)
      modifies this
      ensures Valid() && ledger.coins == old(ledger.coins)
      ensures !old(Enabled(b)) ==> unchanged(this)
      ensures old(Enabled(b)) ==> stage == (match b
        case DealButton => AwaitingFlop
        case FlopButton => AwaitingTurn
        case TurnButton => AwaitingRiver
        case RiverButton => Settling)
    {
      if !Enabled(b) {
        return;
      }
      match b {
        case DealButton => SimulateDeal(draws);
        case FlopButton => SimulateBettingRound(Flop, draws, didWin);
        case TurnButton => SimulateBettingRound(Turn, draws, didWin);
        case RiverButton => SimulateBettingRound(River, draws, didWin);
      }
    }
  }

  /**
   * One Omaha hand played to the river and settled, with a deck that lasts
   * it: four hole cards and five community cards leave the deck.
   */
  method PlayOmahaHand(t: PokerTable, draws: seq<nat>, didWin: bool)
    requires t.Valid() && t.stage == AwaitingDeal && t.game == Omaha && |t.deck| >= 9
    requires ValidDraws(draws, DeckSize)
    modifies t, t.ledger
    ensures t.Valid() && t.stage == AwaitingDeal && t.handIntact && |t.hand| == 4 && |t.community| == 5
    ensures t.hand + t.community == Popped(old(t.deck), 9) && t.deck == old(t.deck)[..|old(t.deck)| - 9]
    ensures multiset(t.hand + t.community) + multiset(t.deck) == multiset(old(t.deck))
    ensures t.dealt == old(t.dealt) + t.hand + t.community
  {
    ghost var d0 := t.deck;
    t.SimulateDeal(draws);
    PlayRounds(t, draws, didWin);
    HandPopped(d0, t.hand, t.community);
    t.Settle();
  }

  /** Four hole cards, then five community cards, are the deck's last nine in pop order. */
  lemma HandPopped(d: seq<Card>, hand: seq<Card>, community: seq<Card>)
    requires |d| >= 9 && hand == Popped(d, 4) && community == Popped(d[..|d| - 4], 5)
    ensures hand + community == Popped(d, 9) && d[..|d| - 4][..|d| - 9] == d[..|d| - 9]
    ensures multiset(hand + community) + multiset(d[..|d| - 9]) == multiset(d)
  {
    PoppedAppend(d, 4, 5);
    PoppedPermutes(d, 9);
  }

  /**
   * The flop, turn and river of a hand whose deck lasts them: the five
   * community cards are the deck's last five, in pop order.
   */
  method PlayRounds(t: PokerTable, draws: seq<nat>, didWin: bool)
    requires t.Valid() && t.stage == AwaitingFlop && t.handIntact && t.community == [] && |t.deck| >= 5
    requires ValidDraws(draws, DeckSize)
    modifies t
    ensures t.Valid() && t.stage == Settling && t.handIntact && t.hand == old(t.hand)
    ensures t.community == Popped(old(t.deck), 5) && t.deck == old(t.deck)[..|old(t.deck)| - 5]
    ensures t.dealt == old(t.dealt) + t.community
  {
    ghost var d1 := t.deck;
    t.SimulateBettingRound(Flop, draws, didWin);
    ghost var d2 := t.deck;
    t.SimulateBettingRound(Turn, draws, didWin);
    ghost var d3 := t.deck;
    t.SimulateBettingRound(River, draws, didWin);
    RoundsPopped(d1, t.community);
  }

  /** Three pops, then one, then one more, are the deck's last five cards in pop order. */
  lemma RoundsPopped(d: seq<Card>, community: seq<Card>)
    requires |d| >= 5
    requires community == Popped(d, 3) + Popped(d[..|d| - 3], 1) + Popped(d[..|d| - 4], 1)
    ensures community == Popped(d, 5)
  {
    PoppedAppend(d, 3, 1);
    PoppedAppend(d, 4, 1);
  }

  /**
   * The turn's `dealCard` (Casino/casino.js:533) on an empty deck rebuilds
   * the deck, and the rebuilt deck's last card is the one its shuffle's
   * first draw picks. With `rebuild` drawing the position of the first
   * hole card, the card dealt is already in the hand.
   */
  method TurnRepeatsHoleCard(t: PokerTable) returns (rebuild: seq<nat>, card: Card)
    requires t.Valid() && t.stage == AwaitingTurn && t.deck == [] && t.handIntact && |t.hand| > 0
    modifies t`deck, t`dealt
    ensures ValidDraws(rebuild, DeckSize)
    ensures t.deck + [card] == Shuffled(FullDeck(), rebuild)
    ensures card == t.hand[0] && |t.deck| == DeckSize - 1
    ensures !Distinct(t.hand + t.community + [card])
  {
    t.TableDistinct();
    assert t.hand[0] in t.hand + t.community;
    FullDeckComplete(t.hand[0]);
    var j :| 0 <= j < DeckSize && FullDeck()[j] == t.hand[0];
    rebuild := seq(DeckSize, i requires 0 <= i < DeckSize => if i == DeckSize - 1 then j else 0);
    card := t.DealCard(rebuild);
    ghost var table := t.hand + t.community + [card];
    assert table[0] == table[|table| - 1];
  }

  /**
   * Six Omaha hands at a table just entered. The first five, each played
   * to the river and settled, use 45 of the 52 cards. The sixth hand's hole
   * cards and flop take the last seven, so its turn finds the deck empty,
   * and with the `rebuild` draws the turn card repeats a hole card.
   */
  method SixthOmahaHandRepeatsCard(t: PokerTable, draws: seq<nat>, didWin: bool) returns (rebuild: seq<nat>, card: Card)
    requires t.Valid() && t.stage == AwaitingDeal && t.game == Omaha && |t.deck| == DeckSize
    requires ValidDraws(draws, DeckSize)
    modifies t, t.ledger
    ensures ValidDraws(rebuild, DeckSize)
    ensures t.deck + [card] == Shuffled(FullDeck(), rebuild)
    ensures t.stage == AwaitingTurn && |t.hand| == 4 && |t.community| == 3
    ensures card == t.hand[0] && !Distinct(t.hand + t.community + [card])
  {
    var played := 0;
    while played < 5
      invariant 0 <= played <= 5
      invariant t.Valid() && t.stage == AwaitingDeal && |t.deck| == DeckSize - 9 * played
    {
      PlayOmahaHand(t, draws, didWin);
      played := played + 1;
    }
    t.SimulateDeal(draws);
    t.SimulateBettingRound(Flop, draws, didWin);
    rebuild, card := TurnRepeatsHoleCard(t);
  }

  /**
   * With a fresh deck at the start of the hand, a hand played to the river
   * never sees the deck rebuilt: its hole cards and five community cards
   * are distinct standard cards.
   */
  method FreshDeckHandIsDistinct(t: PokerTable, deckDraws: seq<nat>, draws: seq<nat>, didWin: bool)
    requires t.Valid() && t.stage == AwaitingDeal
    requires ValidDraws(deckDraws, DeckSize) && ValidDraws(draws, DeckSize)
    modifies t
    ensures t.Valid() && t.stage == Settling && t.handIntact && |t.community| == 5
    ensures Distinct(t.hand + t.community)
    ensures forall c :: c in t.hand + t.community ==> IsStandardCard(c)
  {
    t.SimulateDealFreshDeck(deckDraws, draws);
    t.SimulateBettingRound(Flop, draws, didWin);
    t.SimulateBettingRound(Turn, draws, didWin);
    t.SimulateBettingRound(River, draws, didWin);
    t.TableDistinct();
  }

  /**
   * The next hand dealt from the same deck, when the deck lasts it, shares
   * no card with the hand before it: both were dealt since the deck was
   * built, and the deck deals each of its cards once.
   */
  method NextHandSharesNoCard(t: PokerTable, draws: seq<nat>)
    requires t.Valid() && t.stage == AwaitingDeal && t.handIntact
    requires ValidDraws(draws, DeckSize)
    modifies t
    ensures t.Valid() && t.stage == AwaitingFlop
    ensures t.handIntact == (CardsPerPlayer(t.game) <= old(|t.deck|))
    ensures t.handIntact ==> forall c :: c in t.hand ==> c !in old(t.hand + t.community)
  {
    ghost var before, earlier := t.hand + t.community, t.dealt;
    t.SimulateDeal(draws);
    if t.handIntact {
      t.DealtDistinct();
      DistinctAppendDisjoint(earlier, t.hand);
      forall c | c in before ensures c in earlier {
        assert c in multiset(before);
      }
    }
  }

  /**
   * Two Omaha hands in a row from a deck that lasts them both: the second
   * hand's hole cards are none of the nine cards the first hand showed.
   */
  method OmahaHandsShareNoCard(t: PokerTable, draws: seq<nat>, didWin: bool) returns (previous: seq<Card>)
    requires t.Valid() && t.stage == AwaitingDeal && t.game == Omaha && |t.deck| >= 13
    requires ValidDraws(draws, DeckSize)
    modifies t, t.ledger
    ensures t.Valid() && t.stage == AwaitingFlop && t.handIntact
    ensures previous == Popped(old(t.deck), 9) && multiset(previous) <= multiset(old(t.deck))
    ensures |t.hand| == 4
    ensures forall c :: c in t.hand ==> c !in previous
  {
    PlayOmahaHand(t, draws, didWin);
    previous := t.hand + t.community;
    NextHandSharesNoCard(t, draws);
  }
}
