# Luigi's casino: a verified model of its game engines

The casino page (`Casino/casino.js`) keeps a coin balance and runs three small game engines on it:

- the poker table. It builds a shuffled 52-card deck and charges a 50-coin entry fee. It then steps one hand through deal, flop, turn and river with four buttons. After the river it settles the hand 3 seconds later with +400 or -100 coins.
- the Memorama match game. It has sixteen cards, eight pictures twice each, turned over two per turn. Finding the eighth pair pays `max(20, 100 - 2 * turns)` coins.
- the coin block. It pays 1 to 10 coins per hit for five hits.

This project models those engines in Dafny and proves what they promise. The modules are:

- `Shuffle`: the in-place Fisher-Yates `shuffleArray`, and the permutation facts the decks and the board rely on.
- `Search`: `Array.prototype.find`, as a position.
- `Deck`: cards and `createUniqueDeck`.
- `Casino`: the coin ledger and the clamp of `loadState`.
- `Poker`: the poker table.
- `Memorama`: the match engine.
- `CoinBlock`: the minigame.
- `Wrappers`: an `Option` type.

Each `Math.random()` draw is a parameter with the range the source's expression produces:

- a swap partner `draws[i]` in `[0, i]`;
- the river's coin flip `didWin`;
- the block's `earned` in `1..10`.

Each `setTimeout` continuation is a separate method that the caller invokes later:

- `Poker.PokerTable.Settle` is the river settlement.
- `Memorama.MemoramaGame.FlipBack` is the flip-back after a mismatch. Scheduled flip-backs are kept, oldest first, in the `timers` field.

Global state that the page updates in place becomes a class with those fields:

- `PokerTable` for `pokerDeck`, the hand and the buttons;
- `MemoramaGame` for `memoramaBoard`, `cardsFlipped`, `cardsMatched`, `lockBoard` and `memoramaTurns`;
- `Block` for the `hitsRemaining` counter;
- `CasinoState` for `CASINO_STATE.coins`.

Three behaviours of the code are easy to misread. The model follows the code in all three:

- **The deck is not fresh for every hand.** `simulateDeal` never rebuilds the deck. The deck is built when the table is entered, twice (Casino/casino.js:451 and :488), and again only when a `dealCard` finds it empty (:440-442). Later hands keep drawing from the same deck. After enough hands, the deck can run out in the middle of a hand: from the sixth Omaha hand, or the eighth Texas Hold'em hand.
  - `PokerTable.handIntact` records whether the deck has been rebuilt since the hole cards were dealt.
  - The ghost field `PokerTable.dealt` holds every card dealt since the deck was last built, across hands. The deck and `dealt` together are always one standard deck.
  - The "no card twice" guarantee, `PokerTable.TableDistinct`, is proved for intact hands only. The second finding below shows a hand that is not intact and repeats a card.
- **No card object is ever marked `matched`.** `handleMatch` only adds the CSS class (Casino/casino.js:362-363). A found pair stays out of play because its cards stay `flipped`, and `flipCard` ignores face-up cards. `MemoramaGame.Valid` records that no tile is matched.
- **Card ids are not sequential positions.** Memorama ids are given before the shuffle (:286-291). After the shuffle, the ids are a permutation of 0..15, not the board positions.

## Model

| member | source | states |
|---|---|---|
| Casino.ClampCoins | Casino/casino.js:47 | the loaded balance is never negative and never below the saved one; it is the saved balance itself or 0 |
| Casino.CasinoState.constructor | Casino/casino.js:4-9 | a new player starts with 1000 coins |
| Casino.CasinoState.LoadState | Casino/casino.js:42-49 | with nothing saved the balance is untouched; otherwise it becomes the clamped saved balance, which is non-negative |
| Shuffle.SwapAt | Casino/casino.js:407 | the destructuring swap exchanges the elements at i and j and leaves every other position as it was |
| Shuffle.SwapPermutes | Casino/casino.js:407 | one swap permutes the elements |
| Shuffle.ShuffleArray | Casino/casino.js:404-409 | the array ends as the descending sequence of swaps with the drawn partners dictates, and holds the same multiset of elements |
| Shuffle.ShuffleDown | Casino/casino.js:405-408 | the swaps from position i down to 1 keep the array's length (that they permute it is `ShuffleDownPermutes`) |
| Shuffle.Shuffled | Casino/casino.js:404-409 | the shuffle keeps the array's length (that it permutes it is `ShuffledPermutes`) |
| Shuffle.ShuffleDownPermutes | Casino/casino.js:405-408 | the swaps from position i down to 1 keep the length and the multiset |
| Shuffle.ShuffledPermutes | Casino/casino.js:404-409 | a shuffle keeps the length and the multiset of elements |
| Shuffle.ShuffleDownProject | Casino/casino.js:405-408 | taking one field of every element and then swapping gives what swapping and then taking the field gives |
| Shuffle.ShuffledProject | Casino/casino.js:404-409 | a shuffle moves each field of the elements together with its element |
| Shuffle.ShuffleDownKeepsAbove | Casino/casino.js:405-408 | the swaps at positions i and below leave every position above i alone |
| Shuffle.ShuffledLast | Casino/casino.js:404-409 | the last position ends up holding the element the first draw picked |
| Shuffle.ShuffledDistinct | Casino/casino.js:404-409 | shuffling an array with no repeated element leaves none repeated |
| Search.FindFirst | Casino/casino.js:502 | `find` yields a position inside the array whose element passes the test, or nothing |
| Search.FindFirstIsFirst | Casino/casino.js:502 | the position found is the first one passing the test, and nothing is found exactly when no element passes |
| Deck.FullDeck | Casino/casino.js:420-432 | the unshuffled deck has 52 cards |
| Deck.FullDeckAt | Casino/casino.js:424-431 | the card pushed at suit position si and rank position ri sits at position 13*si+ri |
| Deck.FullDeckComplete | Casino/casino.js:420-432 | every card of rank 2..14 in each of the four suits is in the unshuffled deck, and nothing else is |
| Deck.FullDeckDistinct | Casino/casino.js:420-432 | the unshuffled deck holds no card twice |
| Deck.CreateUniqueDeck | Casino/casino.js:418-435 | the nested loops and the shuffle give the shuffled full deck: 52 pairwise distinct cards, exactly the standard ones |
| Poker.CardsPerPlayer | Casino/casino.js:496 | Texas Hold'em deals two hole cards, every other game four |
| Poker.CommunityCount | Casino/casino.js:479-481 | each round's count takes the table from the community cards of its stage to those of the next: 0, 3, 4, then 5 |
| Poker.HighestRank | Casino/casino.js:501 | the `reduce` yields at least its seed and no less than any card's rank |
| Poker.HighestCard | Casino/casino.js:501-502 | the best card is a card of the hand that no card outranks; there is none exactly when every rank is negative |
| Poker.HighestRankIsMaximum | Casino/casino.js:501 | the `reduce` yields a value no card's rank exceeds, at least the seed, and equal to the seed or to some card's rank |
| Poker.HighestCardIndex | Casino/casino.js:501-502 | the best card's position, when there is one, is inside the hand |
| Poker.HighestCardIsFirstMaximum | Casino/casino.js:501-502 | the best card has the largest rank of the hand and every card before it has a smaller rank; there is none exactly when every rank is negative |
| Poker.PoppedAppend | Casino/casino.js:444 | popping m cards and then k more yields the same cards as popping m + k |
| Poker.PoppedPermutes | Casino/casino.js:444 | the popped cards and what is left of the deck are together the deck's cards |
| Poker.TableCardsDistinct | Casino/casino.js:438-445 | when the deck and the table together fit in one standard deck, the table's cards are distinct standard cards, none still in the deck |
| Poker.PokerTable.DealtDistinct | Casino/casino.js:438-445 | every card dealt since the deck was built, in this hand or an earlier one, is a standard card dealt once and no longer in the deck |
| Poker.PokerTable.TableDistinct | Casino/casino.js:438-445 | while the deck has not been rebuilt during the hand, hole and community cards are distinct standard cards, none still in the deck |
| Poker.PokerTable.constructor | Casino/casino.js:449-492 | entering a table charges 50 coins once, enables only "deal", and leaves the second freshly built deck in place |
| Poker.PokerTable.RebuildDeck | Casino/casino.js:440-442 | an empty deck is replaced by the shuffled full deck, whose last card is the one the first draw picked, and no card of it counts as dealt yet |
| Poker.PokerTable.DealCard | Casino/casino.js:438-445 | a non-empty deck gives up its last card and keeps the rest in order; an empty one is first rebuilt, leaving 51 cards, and the card dealt is the one the rebuild's first draw picked; the card is standard and joins the cards dealt since the last rebuild |
| Poker.PokerTable.DealCards | Casino/casino.js:499 | `Array.from` of n `dealCard`s yields n cards, the deck's last n in pop order when the deck has them, and the deck keeps the rest |
| Poker.PokerTable.DealHand | Casino/casino.js:499-502 | 2 hole cards for Texas Hold'em and 4 otherwise, popped from the deck in order when the deck has them; the best card is the first of maximum rank and exists |
| Poker.PokerTable.EnableFlop | Casino/casino.js:521-522 | after the deal only "flop" is enabled |
| Poker.PokerTable.SimulateDeal | Casino/casino.js:495-526 | the deal keeps the table invariant, deals the hole cards (popped from the deck in order when the deck has them), shows the best card, clears the community cards and leaves a pending settlement alone |
| Poker.PokerTable.DealCommunity | Casino/casino.js:532-545 | the round's cards are appended to the community cards; when the deck has them they are popped from it and it keeps the rest |
| Poker.PokerTable.AdvanceControls | Casino/casino.js:550-571 | the round's button is disabled and only the next one enabled; after the river none is, and the coin flip waits for the settlement |
| Poker.PokerTable.SimulateBettingRound | Casino/casino.js:529-572 | flop, turn and river append 3, 1 and 1 community cards (5 after the river), popped from the deck when it has them, keep the hand, and move to the next stage |
| Poker.PokerTable.Settle | Casino/casino.js:561-570 | the settlement credits 400 coins on a win and debits 100 on a loss, re-enables only "deal", and leaves the deck, the cards dealt from it and the hand's intact status for the next hand |
| Poker.PokerTable.SimulateDealFreshDeck | Casino/casino.js:495-502 | the corrected deal: from a freshly built deck, the hole cards are the shuffled deck's last cards and the only cards dealt from it, the hand is tracked as intact, and the deck keeps the rest of the shuffled deck in order |
| Poker.PlayOmahaHand | Casino/casino.js:495-572 | an Omaha hand played to the river and settled takes nine cards from a deck that has them: the 4 hole and 5 community cards are the deck's last nine in pop order, they join the cards dealt, and the deck keeps the rest |
| Poker.PlayRounds | Casino/casino.js:529-572 | flop, turn and river from a deck that lasts them put the deck's last five cards, in pop order, on the table |
| Poker.TurnRepeatsHoleCard | Casino/casino.js:438-445 | a turn that finds the deck empty rebuilds it; the card dealt is the rebuilt deck's last card, the deck keeps the other 51, and with the right draws that card is already in the hand |
| Poker.SixthOmahaHandRepeatsCard | Casino/casino.js:438-442 | at a newly entered Omaha table, the sixth hand's turn rebuilds the deck; the turn card is the rebuilt deck's last card and can repeat the hand's first hole card |
| Poker.FreshDeckHandIsDistinct | Casino/casino.js:495-572 | with a fresh deck per hand, a hand played to the river holds distinct standard cards |
| Poker.NextHandSharesNoCard | Casino/casino.js:438-445 | a hand dealt from the deck the previous hand used, when the deck lasts it, shares no card with that hand |
| Poker.OmahaHandsShareNoCard | Casino/casino.js:438-445 | two Omaha hands played in a row from a deck that lasts them: the first hand's nine cards are the deck's last nine, and the second hand's hole cards are none of them |
| Poker.PokerTable.Click | Casino/casino.js:478-481 | a disabled button changes nothing; an enabled one moves deal to flop to turn to river to settling; no click changes the balance |
| Memorama.InitialBoard | Casino/casino.js:287-289 | the doubled asset list has sixteen entries |
| Memorama.AssetsOnce | Casino/casino.js:267-276 | each of the eight assets is listed once |
| Memorama.InitialIds | Casino/casino.js:287-289 | before the shuffle the ids are 0..15, each once |
| Memorama.InitialAssets | Casino/casino.js:287-289 | before the shuffle every asset appears exactly twice |
| Memorama.InitialBoardFresh | Casino/casino.js:287-289 | the unshuffled board is fresh: ids 0..15 once each, each asset twice, every card face down and unmatched |
| Memorama.ShuffledIds | Casino/casino.js:291 | shuffling keeps the ids distinct and the same set of ids |
| Memorama.ShuffledAssets | Casino/casino.js:291 | shuffling keeps how often each asset appears |
| Memorama.ShuffledFresh | Casino/casino.js:291 | shuffling a fresh board yields a fresh board |
| Memorama.BuildBoard | Casino/casino.js:284-291 | the board has 16 cards with ids a permutation of 0..15, each asset exactly twice, all face down and unmatched |
| Memorama.FindById | Casino/casino.js:383-384 | with distinct ids, `find` by a card's id yields that card |
| Memorama.FaceUp | Casino/casino.js:331 | the face-up count is at most the board size, and zero exactly when no card is flipped |
| Memorama.FaceUpUpdate | Casino/casino.js:331 | changing one card's flag changes the face-up count by that flag alone |
| Memorama.MemoramaReward | Casino/casino.js:368-369 | the reward is the larger of 20 and 100 - 2*turns: at least both, and equal to one; so at most 84 once at least eight turns were taken |
| Memorama.RewardNonIncreasing | Casino/casino.js:368-369 | more turns never earn a larger reward |
| Memorama.MemoramaGame.constructor | Casino/casino.js:284-325 | the first game has a fresh shuffled board, zeroed counters, an unlocked board and no flip-back pending |
| Memorama.MemoramaGame.InitMemorama | Casino/casino.js:284-325 | a new fresh board and zeroed counters; a flip-back still pending is not cancelled, and only without one is the game consistent |
| Memorama.MemoramaGame.Restart | Casino/casino.js:284-325 | with the pending flip-back cancelled, a reset always yields a consistent fresh game |
| Memorama.MemoramaGame.ResetTurn | Casino/casino.js:399-402 | the turn's cards are released and the board unlocked |
| Memorama.MemoramaGame.HandleMatch | Casino/casino.js:357-378 | one more pair is counted; the eighth pair credits the turn-based reward; the turn ends |
| Memorama.MemoramaGame.HandleNoMatch | Casino/casino.js:380-397 | one flip-back is scheduled, and with distinct ids it holds the turn's two cards |
| Memorama.Unflip | Casino/casino.js:392-393 | the tile `find` located, if any, is turned face down with its id, picture and matched flag kept; every other tile is unchanged |
| Memorama.MemoramaGame.SameAsset | Casino/casino.js:348 | the test holds only for two on-board positions, and compares their pictures |
| Memorama.MemoramaGame.CheckForMatch | Casino/casino.js:346-355 | two cards with the same picture are handled as a match, any other two as a mismatch |
| Memorama.MemoramaGame.TurnUp | Casino/casino.js:331-334 | the clicked card turns face up and joins the turn, and the face-up count rises by one |
| Memorama.MemoramaGame.FlipCard | Casino/casino.js:328-343 | a locked board or a face-up card ignores the click; a second card counts one turn and is checked; the game invariant is kept; pairs found never decrease or exceed 8; the balance moves only when the eighth pair is found, by 20 to 84 coins |
| Memorama.MemoramaGame.TurnDown | Casino/casino.js:392-393 | the cards `find` found are turned face down; two distinct face-up cards lower the face-up count by two |
| Memorama.MemoramaGame.FlipBack | Casino/casino.js:386-396 | the oldest flip-back turns its cards face down if they are on the current board, then ends the turn; the game invariant is kept |
| Memorama.StaleFlipBackOrphansCard | Casino/casino.js:386-396 | a reset during a pending flip-back, then one card turned over, then the old timer: the card is left face up outside the turn on an unlocked board, and the game invariant is broken |
| CoinBlock.Block.constructor | Casino/casino.js:232 | a block starts with five hits and has paid nothing |
| CoinBlock.Block.Hit | Casino/casino.js:234-258 | an exhausted block changes nothing; otherwise the balance grows by the drawn 1..10 coins and one hit is used; a block never pays more than 50 coins |

## Left out

- DOM construction, HTML templates, status texts (including the hard-coded `/8` of Casino/casino.js:338), card rendering and CSS classes: presentation only. A DOM element in `cardsFlipped` is represented by the board position of its card.
- `animateLuigi`, `changeScreen`, the lobby and `generateTableList`: animation and navigation with no game state.
- `localStorage`, `JSON.parse` and `JSON.stringify`: persistence I/O. Only the clamp of `loadState` is modelled. Its spread of other saved fields, and a saved balance that is not a number, are not.
- `Math.random` and `setTimeout` themselves: draws are parameters and continuations are methods. Nothing is said about the distribution of the draws or about wall-clock delays.
- The alert 500 ms after a Memorama win, and event-listener registration beyond which handler a button runs.
- Memorama card objects are values in the `board` sequence, not shared objects. A rebuilt board gets a new `generation` number, and a flip-back made on an older board leaves the current one alone. Unflipping an older board's objects, which nothing reads any more, is not modelled.
- A poker settlement that fires after the player left the table is not modelled. `Settle` runs on the table that scheduled it.
- Poker.PokerTable.DealCards: when the deck runs out part-way, the contract only says how many cards are dealt, that they are standard, and that the deck and the cards dealt since the last rebuild stay one standard deck. Which cards come from the rebuilt deck is not stated.
- Poker.PokerTable.SimulateBettingRound: after a mid-hand rebuild, only the length and prefix of the community cards are stated, not which new cards were appended.

## Findings

| source | as written | input that shows it | evidently intended | confidence | as-written member | corrected member |
|---|---|---|---|---|---|---|
| Casino/casino.js:284-325 | `initMemorama` does not cancel the flip-back that `handleNoMatch` scheduled (:386-396). When that timer fires on the new board, its `resetTurn` empties `cardsFlipped` and unlocks the board. | Two different pictures turned over. Then "Reiniciar Juego" within one second. Then one card turned over before the second is up. That card stays `flipped`, leaves `cardsFlipped`, and `flipCard` ignores it from then on. So its pair can never be found, and the eighth pair and the reward are unreachable. | A reset cancels the pending flip-back and starts a clean game. | high; not executed | Memorama.StaleFlipBackOrphansCard | Memorama.MemoramaGame.Restart |
| Casino/casino.js:438-442 | `simulateDeal` (:495-499) keeps drawing from the previous hands' deck. A deck that runs out in the middle of a hand is rebuilt in full, including the cards already on the table. | An Omaha table entered and played for five full hands uses 45 cards. The sixth hand's hole cards and flop take the last seven. Its turn rebuilds the deck, and when the rebuild's first draw picks the position of a hole card, that card is dealt again as the turn card. | Each hand starts from a fresh deck, as the comments at :439 and :487 expect. `Poker.PokerTable.SimulateDealFreshDeck` deals that way, and then a hand never exhausts the deck and no card repeats. | medium; not executed | Poker.SixthOmahaHandRepeatsCard | Poker.FreshDeckHandIsDistinct |
