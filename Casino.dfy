/**
 * The shared player state `CASINO_STATE` (Casino/casino.js:4-9) reduced to
 * the coin balance every game credits or debits, and the clamp `loadState`
 * applies to a saved balance (Casino/casino.js:42-49).
 */
module Casino {
  import opened Wrappers

  /** The keys of the `GAMES` table (Casino/casino.js:11-16). */
  datatype GameKey = Memorama | TexasHoldem | Omaha | Minigame

  const StartingCoins: int := 1000

  /** `Math.max(0, coins)`: the least non-negative balance not below `c`. */
  function ClampCoins(c: int): (r: int)
    ensures r >= 0 && r >= c
    ensures r == 0 || r == c
  {
    if c < 0 then 0 else c
  }

  /** The global ledger; every debit and credit is an unclamped update of `coins`. */
  class CasinoState {
    var coins: int

    constructor ()
      ensures coins == StartingCoins
    {
      coins := StartingCoins;
    }

    /**
     * `loadState` with the stored balance as a parameter (None when nothing
     * was saved); only the clamp is modelled, not the storage itself.
     */
    method LoadState(saved: Option<int>)
      modifies this
      ensures saved.None? ==> coins == old(coins)
      ensures saved.Some? ==> coins == ClampCoins(saved.value) && coins >= 0
    {
      if saved.Some? {
        coins := saved.value;
        coins := ClampCoins(coins);
      }
    }
  }
}
