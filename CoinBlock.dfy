/**
 * The coin-block minigame (Casino/casino.js:232-258): a block that pays out
 * 1 to 10 coins per hit, for five hits, and then ignores clicks.
 */
module CoinBlock {
  import Casino

  const MaxHits: int := 5
  const MinEarned: int := 1
  const MaxEarned: int := 10

  /** The closure state of one visit to the minigame: its `hitsRemaining` counter. */
  class Block {
    const ledger: Casino.CasinoState
    var hitsRemaining: int
    /** The coins this block has credited so far. */
    ghost var paid: int

    /** Each hit taken so far credited between 1 and 10 coins. */
    ghost predicate Valid()
      reads this`hitsRemaining, this`paid
    {
      0 <= hitsRemaining <= MaxHits &&
      MinEarned * (MaxHits - hitsRemaining) <= paid <= MaxEarned * (MaxHits - hitsRemaining)
    }

    /** `let hitsRemaining = 5` (Casino/casino.js:232). */
    constructor (ledger: Casino.CasinoState)
      ensures Valid() && this.ledger == ledger && hitsRemaining == MaxHits && paid == 0
    {
      this.ledger := ledger;
      hitsRemaining := MaxHits;
      paid := 0;
    }

    /**
     * A click on the block, with `earned` the draw of
     * `Math.floor(Math.random() * 10) + 1`. An exhausted block changes
     * nothing; otherwise the coins are credited and one hit is used up.
     */
    method Hit(earned: int)
      requires Valid() && MinEarned <= earned <= MaxEarned
      modifies this`hitsRemaining, this`paid, ledger`coins
      ensures Valid() && paid <= MaxHits * MaxEarned
      ensures old(hitsRemaining) <= 0 ==>
        hitsRemaining == old(hitsRemaining) && paid == old(paid) && ledger.coins == old(ledger.coins)
      ensures old(hitsRemaining) > 0 ==>
        hitsRemaining == old(hitsRemaining) - 1 && paid == old(paid) + earned &&
        ledger.coins == old(ledger.coins) + earned
    {
      if hitsRemaining <= 0 {
        return;
      }
      var earnedCoins := earned;
      ledger.coins := ledger.coins + earnedCoins;
      hitsRemaining := hitsRemaining - 1;
      paid := paid + earnedCoins;
    }
  }
}
