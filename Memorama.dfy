/**
 * The Memorama match engine (Casino/casino.js:267-402): a board of sixteen
 * card objects, eight pictures twice each, turned over two per turn.
 *
 * The globals `memoramaBoard`, `cardsFlipped`, `cardsMatched`, `lockBoard`
 * and `memoramaTurns` become the fields of one `MemoramaGame` object. Each
 * card object is a `Tile` value in `board` whose `flipped` flag the methods
 * update; a DOM element in `cardsFlipped` is the board position of its card.
 * A flip-back that `handleNoMatch` schedules with `setTimeout` is a pending
 * `FlipBackTask`, and `FlipBack` is the timer firing.
 */
module Memorama {
  import opened Wrappers
  import opened Search
  import opened Shuffle
  import Casino

  /** The names of `MEMORAMA_ASSETS` (Casino/casino.js:267-276). */
  datatype Asset = Coin | Flower | Goomba | Star | Yoshi | Boo | Mushroom | Shell

  const Assets: seq<Asset> := [Coin, Flower, Goomba, Star, Yoshi, Boo, Mushroom, Shell]

  /** `totalPairs`: one pair per asset. */
  const TotalPairs: nat := 8
  const BoardSize: nat := 16

  /** A card object of `memoramaBoard`. */
  datatype Tile = Tile(id: nat, asset: Asset, flipped: bool, matched: bool)

  /**
   * A flip-back scheduled by `handleNoMatch`: which build of the board it was
   * made on, and the positions `find` gave for the two cards' ids.
   */
  datatype FlipBackTask = FlipBackTask(generation: nat, first: Option<nat>, second: Option<nat>)

  /** `[...assets, ...assets].map((asset, index) => ...)`, before the shuffle. */
  function InitialBoard(): (b: seq<Tile>)
    ensures |b| == BoardSize
  {
    seq(BoardSize, k requires 0 <= k < BoardSize => Tile(k, Assets[k % TotalPairs], false, false))
  }

  function IdsOf(board: seq<Tile>): seq<nat> {
    Project(board, (t: Tile) => t.id)
  }

  function AssetsOf(board: seq<Tile>): seq<Asset> {
    Project(board, (t: Tile) => t.asset)
  }

  /**
   * A freshly dealt board: sixteen cards, ids 0..15 each exactly once, every
   * asset exactly twice, every card face down and unmatched.
   */
  ghost predicate FreshBoard(board: seq<Tile>) {
    |board| == BoardSize &&
    Distinct(IdsOf(board)) &&
    (forall i: nat :: i in IdsOf(board) <==> i < BoardSize) &&
    (forall a: Asset :: multiset(AssetsOf(board))[a] == 2) &&
    (forall t :: t in board ==> !t.flipped && !t.matched)
  }

  lemma AssetsOnce(a: Asset)
    ensures multiset(Assets)[a] == 1
  {
    assert multiset(Assets) == multiset{Coin, Flower, Goomba, Star, Yoshi, Boo, Mushroom, Shell};
  }

  /** Before the shuffle the card at position k has id k. */
  lemma InitialIds()
    ensures Distinct(IdsOf(InitialBoard()))
    ensures forall i: nat :: i in IdsOf(InitialBoard()) <==> i < BoardSize
  {
    var ids := IdsOf(InitialBoard());
    assert forall k :: 0 <= k < BoardSize ==> ids[k] == k;
    forall i: nat ensures i in ids <==> i < BoardSize {
      if i < BoardSize {
        assert ids[i] == i;
      }
    }
  }

  /** Before the shuffle the pictures are the asset list twice over. */
  lemma InitialAssets()
    ensures forall a: Asset :: multiset(AssetsOf(InitialBoard()))[a] == 2
  {
    assert AssetsOf(InitialBoard()) == Assets + Assets;
    forall a: Asset ensures multiset(Assets + Assets)[a] == 2 {
      AssetsOnce(a);
    }
  }

  /** The board before the shuffle already has the layout the shuffle preserves. */
  lemma InitialBoardFresh()
    ensures FreshBoard(InitialBoard())
  {
    InitialIds();
    InitialAssets();
  }

  /** `c => c.id == id`: the test `find` applies at Casino/casino.js:383-384. */
  function HasId(id: nat): Tile -> bool {
    (t: Tile) => t.id == id
  }

  /** No two cards share an id. */
  ghost predicate DistinctIds(board: seq<Tile>) {
    forall i, j :: 0 <= i < j < |board| ==> board[i].id != board[j].id
  }

  /** With distinct ids, `find` by a card's id yields that card's position. */
  lemma FindById(board: seq<Tile>, p: nat)
    requires p < |board| && DistinctIds(board)
    ensures FindFirst(board, HasId(board[p].id)) == Some(p)
  {
    FindFirstIsFirst(board, HasId(board[p].id));
    assert HasId(board[p].id)(board[p]);
  }

  /** The number of face-up cards. */
  function FaceUp(board: seq<Tile>): (n: nat)
    ensures n <= |board|
    ensures n == 0 <==> forall k :: 0 <= k < |board| ==> !board[k].flipped
  {
    if board == [] then 0
    else (if board[0].flipped then 1 else 0) + FaceUp(board[1..])
  }

  /** Changing one card changes the face-up count by that card's flag alone. */
  lemma {:induction false} FaceUpUpdate(board: seq<Tile>, k: nat, t: Tile)
    requires k < |board|
    ensures FaceUp(board[k := t]) == FaceUp(board) - (if board[k].flipped then 1 else 0) + (if t.flipped then 1 else 0)
  {
    if k == 0 {
      assert board[k := t][1..] == board[1..];
    } else {
      FaceUpUpdate(board[1..], k - 1, t);
      assert board[k := t][1..] == board[1..][k - 1 := t];
    }
  }

  /**
   * Turn face down the card object `find` located, when it located one;
   * every other tile, and the located tile's other fields, stay as they are.
   */
  function Unflip(board: seq<Tile>, pos: Option<nat>): (r: seq<Tile>)
    ensures |r| == |board|
    ensures forall k :: 0 <= k < |board| && !(pos.Some? && k == pos.value) ==> r[k] == board[k]
    ensures pos.Some? && pos.value < |board| ==> r[pos.value] == board[pos.value].(flipped := false)
  {
    if pos.Some? && pos.value < |board| then board[pos.value := board[pos.value].(flipped := false)]
    else board
  }

  /**
   * The completion reward `Math.max(20, 100 - memoramaTurns * 2)`: the
   * larger of 20 and 100 less two per turn, so at most 84 once the eight
   * pairs have taken at least eight turns.
   */
  function MemoramaReward(turns: int): (r: int)
    ensures r >= 20 && r >= 100 - 2 * turns
    ensures turns >= TotalPairs ==> r <= 100 - 2 * TotalPairs
    ensures r == 20 || r == 100 - 2 * turns
  {
    var reward := 100 - turns * 2;
    if reward > 20 then reward else 20
  }

  /** More turns never earn a larger reward. */
  lemma RewardNonIncreasing(fewer: int, more: int)
    requires fewer <= more
    ensures MemoramaReward(fewer) >= MemoramaReward(more)
  {
  }

  /**
   * Builds `memoramaBoard`: the sixteen card objects in order, then
   * `shuffleArray` on them in place (Casino/casino.js:284-291).
   */
  method BuildBoard(draws: seq<nat>) returns (board: seq<Tile>)
    requires ValidDraws(draws, BoardSize)
    ensures board == Shuffled(InitialBoard(), draws)
    ensures FreshBoard(board)
  {
    var a := new Tile[BoardSize](k requires 0 <= k < BoardSize => InitialBoard()[k]);
    assert a[..] == InitialBoard();
    ShuffleArray(a, draws);
    board := a[..];
    InitialBoardFresh();
    ShuffledFresh(InitialBoard(), draws);
  }

  /** Shuffling a fresh board yields a fresh board. */
  lemma ShuffledFresh(b: seq<Tile>, draws: seq<nat>)
    requires FreshBoard(b) && ValidDraws(draws, |b|)
    ensures FreshBoard(Shuffled(b, draws))
  {
    var s := Shuffled(b, draws);
    ShuffledPermutes(b, draws);
    ShuffledIds(b, draws);
    ShuffledAssets(b, draws);
    forall t | t in s ensures !t.flipped && !t.matched {
      assert t in multiset(s);
    }
  }

  lemma ShuffledIds(b: seq<Tile>, draws: seq<nat>)
    requires ValidDraws(draws, |b|) && Distinct(IdsOf(b))
    ensures Distinct(IdsOf(Shuffled(b, draws)))
    ensures forall i: nat :: i in IdsOf(Shuffled(b, draws)) <==> i in IdsOf(b)
  {
    ShuffledProject(b, draws, (t: Tile) => t.id);
    ShuffledPermutes(IdsOf(b), draws);
    ShuffledDistinct(IdsOf(b), draws);
    forall i: nat ensures i in IdsOf(Shuffled(b, draws)) <==> i in IdsOf(b) {
      assert i in IdsOf(Shuffled(b, draws)) <==> i in multiset(IdsOf(Shuffled(b, draws)));
    }
  }

  lemma ShuffledAssets(b: seq<Tile>, draws: seq<nat>)
    requires ValidDraws(draws, |b|)
    ensures multiset(AssetsOf(Shuffled(b, draws))) == multiset(AssetsOf(b))
  {
    ShuffledProject(b, draws, (t: Tile) => t.asset);
    ShuffledPermutes(AssetsOf(b), draws);
  }

  /** What a fresh board contributes to the invariant. */
  lemma FreshBoardFacts(b: seq<Tile>)
    requires FreshBoard(b)
    ensures DistinctIds(b) && FaceUp(b) == 0 && forall k :: 0 <= k < |b| ==> !b[k].matched
  {
    forall i, j | 0 <= i < j < |b| ensures b[i].id != b[j].id {
      assert IdsOf(b)[i] != IdsOf(b)[j];
    }
    forall k | 0 <= k < |b| ensures !b[k].flipped && !b[k].matched {
      assert b[k] in b;
    }
  }

  class MemoramaGame {
    const ledger: Casino.CasinoState
    var board: seq<Tile>
    /** Which build of `memoramaBoard` is current; card objects of older builds are off the board. */
    var generation: nat
    /** The cards turned over in the current turn, as board positions. */
    var cardsFlipped: seq<nat>
    var cardsMatched: int
    var lockBoard: bool
    /** `memoramaTurns`. */
    var turns: int
    /** Flip-backs scheduled and not yet run, oldest first. */
    var timers: seq<FlipBackTask>

    /** Every position the object refers to is on a sixteen-card board. */
    ghost predicate Wellformed()
      reads this`board, this`cardsFlipped, this`timers
    {
      |board| == BoardSize &&
      (forall p :: p in cardsFlipped ==> p < BoardSize) &&
      (forall t :: t in timers ==> (t.first.Some? ==> t.first.value < BoardSize) && (t.second.Some? ==> t.second.value < BoardSize))
    }

    /**
     * The turn in progress: at most two cards, both face up, and the board is
     * locked exactly when there are two of them.
     */
    ghost predicate TurnValid()
      reads this`board, this`cardsFlipped, this`lockBoard
    {
      |cardsFlipped| <= 2 &&
      (|cardsFlipped| == 2 ==> cardsFlipped[0] != cardsFlipped[1]) &&
      (forall p :: p in cardsFlipped ==> p < |board| && board[p].flipped) &&
      lockBoard == (|cardsFlipped| == 2)
    }

    /**
     * Every face-up card is in a found pair or in the current turn, and each
     * found pair took a turn.
     */
    ghost predicate CountsValid()
      reads this`board, this`cardsFlipped, this`cardsMatched, this`turns
    {
      FaceUp(board) == 2 * cardsMatched + |cardsFlipped| && 0 <= cardsMatched <= turns
    }

    /** A locked board waits for exactly one flip-back, of the current turn's two cards. */
    ghost predicate TimersValid()
      reads this`cardsFlipped, this`lockBoard, this`timers, this`generation
    {
      lockBoard == (timers != []) && |timers| <= 1 &&
      (timers != [] ==>
        |cardsFlipped| == 2 && timers[0] == FlipBackTask(generation, Some(cardsFlipped[0]), Some(cardsFlipped[1])))
    }

    ghost predicate Valid()
      reads this
    {
      Wellformed() && DistinctIds(board) && (forall k :: 0 <= k < |board| ==> !board[k].matched) &&
      TurnValid() && CountsValid() && TimersValid()
    }

    /** The first `initMemorama`, with no flip-back pending. */
    constructor (ledger: Casino.CasinoState, draws: seq<nat>)
      requires ValidDraws(draws, BoardSize)
      ensures Valid() && this.ledger == ledger
      ensures board == Shuffled(InitialBoard(), draws) && FreshBoard(board)
      ensures cardsFlipped == [] && cardsMatched == 0 && !lockBoard && turns == 0 && timers == []
    {
      this.ledger := ledger;
      var built := BuildBoard(draws);
      board := built;
      generation := 0;
      cardsFlipped, cardsMatched, lockBoard, turns := [], 0, false, 0;
      timers := [];
      new;
      FreshBoardFacts(board);
    }

    /**
     * `initMemorama`, run by the reset button and on entering a Memorama
     * table: a new shuffled board and a fresh count. A flip-back still
     * pending from the previous board is not cancelled.
     */
    method InitMemorama(draws: seq<nat>)
      requires Wellformed() && ValidDraws(draws, BoardSize)
      modifies this`board, this`generation, this`cardsFlipped, this`cardsMatched, this`lockBoard, this`turns
      ensures Wellformed()
      ensures board == Shuffled(InitialBoard(), draws) && FreshBoard(board) && generation == old(generation) + 1
      ensures cardsFlipped == [] && cardsMatched == 0 && !lockBoard && turns == 0
      ensures timers == [] ==> Valid()
    {
      var built := BuildBoard(draws);
      board := built;
      generation := generation + 1;
      cardsFlipped := [];
      cardsMatched := 0;
      lockBoard := false;
      turns := 0;
      FreshBoardFacts(board);
    }

    /** `initMemorama` with the pending flip-back cancelled first: the game starts clean. */
    method Restart(draws: seq<nat>)
      requires Wellformed() && ValidDraws(draws, BoardSize)
      modifies this`board, this`generation, this`cardsFlipped, this`cardsMatched, this`lockBoard, this`turns, this`timers
      ensures Valid()
      ensures board == Shuffled(InitialBoard(), draws) && FreshBoard(board)
      ensures cardsFlipped == [] && cardsMatched == 0 && !lockBoard && turns == 0 && timers == []
    {
      timers := [];
      InitMemorama(draws);
    }

    /** `resetTurn`: the turn's cards are released and the board unlocked (Casino/casino.js:399-402). */
    method ResetTurn()
      modifies this`cardsFlipped, this`lockBoard
      ensures cardsFlipped == [] && !lockBoard
    {
      cardsFlipped := [];
      lockBoard := false;
    }

    /**
     * `handleMatch`: one more pair found; the eighth pair credits the reward
     * for the turns taken, then the turn ends (Casino/casino.js:357-378).
     */
    method HandleMatch()
      modifies this`cardsMatched, this`cardsFlipped, this`lockBoard, ledger`coins
      ensures cardsMatched == old(cardsMatched) + 1 && cardsFlipped == [] && !lockBoard
      ensures ledger.coins == old(ledger.coins) + (if cardsMatched == TotalPairs then MemoramaReward(turns) else 0)
    {
      cardsMatched := cardsMatched + 1;
      if cardsMatched == TotalPairs {
        var reward := MemoramaReward(turns);
        ledger.coins := ledger.coins + reward;
      }
      ResetTurn();
    }

    /**
     * `handleNoMatch`: look both cards up by id and schedule their flip-back
     * (Casino/casino.js:380-397). With distinct ids the lookups find the
     * two cards of the turn.
     */
    method HandleNoMatch()
      requires Wellformed() && |cardsFlipped| == 2
      modifies this`timers
      ensures Wellformed()
      ensures |timers| == |old(timers)| + 1 && timers[..|old(timers)|] == old(timers)
      ensures DistinctIds(board) ==> timers[|old(timers)|] == FlipBackTask(generation, Some(cardsFlipped[0]), Some(cardsFlipped[1]))
    {
      assert cardsFlipped[0] in cardsFlipped && cardsFlipped[1] in cardsFlipped;
      var card1Obj := FindFirst(board, HasId(board[cardsFlipped[0]].id));
      var card2Obj := FindFirst(board, HasId(board[cardsFlipped[1]].id));
      timers := timers + [FlipBackTask(generation, card1Obj, card2Obj)];
      assert timers[..|old(timers)|] == old(timers);
      if DistinctIds(board) {
        FindById(board, cardsFlipped[0]);
        FindById(board, cardsFlipped[1]);
      }
    }

    /** The two cards of a turn show the same picture: `checkForMatch`'s test. */
    predicate SameAsset(p: nat, q: nat)
      reads this`board
      ensures SameAsset(p, q) ==> p < |board| && q < |board|
    {
      p < |board| && q < |board| && board[p].asset == board[q].asset
    }

    /**
     * `checkForMatch`: the turn's two cards are a pair exactly when their
     * pictures agree; a pair is handled by `handleMatch`, anything else by
     * `handleNoMatch` (Casino/casino.js:346-355).
     */
    method CheckForMatch()
      requires Wellformed() && |cardsFlipped| == 2
      modifies this`cardsMatched, this`cardsFlipped, this`lockBoard, this`timers, ledger`coins
      ensures Wellformed()
      ensures old(SameAsset(cardsFlipped[0], cardsFlipped[1])) ==>
        cardsMatched == old(cardsMatched) + 1 && cardsFlipped == [] && !lockBoard && timers == old(timers) &&
        ledger.coins == old(ledger.coins) + (if cardsMatched == TotalPairs then MemoramaReward(turns) else 0)
      ensures !old(SameAsset(cardsFlipped[0], cardsFlipped[1])) ==>
        cardsMatched == old(cardsMatched) && cardsFlipped == old(cardsFlipped) && lockBoard == old(lockBoard) &&
        ledger.coins == old(ledger.coins) &&
        |timers| == |old(timers)| + 1 && timers[..|old(timers)|] == old(timers) &&
        (DistinctIds(board) ==> timers[|old(timers)|] == FlipBackTask(generation, Some(cardsFlipped[0]), Some(cardsFlipped[1])))
    {
      assert cardsFlipped[0] in cardsFlipped && cardsFlipped[1] in cardsFlipped;
      var isMatch := board[cardsFlipped[0]].asset == board[cardsFlipped[1]].asset;
      if isMatch {
        HandleMatch();
      } else {
        HandleNoMatch();
      }
    }

    /** The card at `k` turns face up and joins the turn (Casino/casino.js:331-334). */
    method TurnUp(k: nat)
      requires Wellformed() && k < BoardSize && !board[k].flipped
      modifies this`board, this`cardsFlipped
      ensures Wellformed()
      ensures board == old(board)[k := old(board)[k].(flipped := true)] && cardsFlipped == old(cardsFlipped) + [k]
      ensures FaceUp(board) == FaceUp(old(board)) + 1
    {
      FaceUpUpdate(board, k, board[k].(flipped := true));
      board := board[k := board[k].(flipped := true)];
      cardsFlipped := cardsFlipped + [k];
    }

    /**
     * `flipCard` on the card at position `k` (Casino/casino.js:328-343): a
     * locked board or a card already face up ignores the click; otherwise the
     * card turns face up and joins the turn, and a second card counts a turn,
     * locks the board and checks for a pair.
     */
    method FlipCard(k: nat)
      requires Wellformed() && k < BoardSize
      modifies this`board, this`cardsFlipped, this`cardsMatched, this`lockBoard, this`turns, this`timers, ledger`coins
      ensures Wellformed()
      ensures old(Valid()) ==> Valid() && old(cardsMatched) <= cardsMatched <= TotalPairs
      ensures old(Valid()) && ledger.coins != old(ledger.coins) ==>
        old(cardsMatched) == TotalPairs - 1 && cardsMatched == TotalPairs &&
        20 <= ledger.coins - old(ledger.coins) <= 100 - 2 * TotalPairs
      ensures old(lockBoard || board[k].matched || board[k].flipped) ==> unchanged(this) && ledger.coins == old(ledger.coins)
      ensures !old(lockBoard || board[k].matched || board[k].flipped) ==>
        board == old(board)[k := old(board)[k].(flipped := true)] && generation == old(generation)
      ensures !old(lockBoard || board[k].matched || board[k].flipped) && |old(cardsFlipped)| != 1 ==>
        cardsFlipped == old(cardsFlipped) + [k] && turns == old(turns) && lockBoard == old(lockBoard) &&
        cardsMatched == old(cardsMatched) && timers == old(timers) && ledger.coins == old(ledger.coins)
      ensures !old(lockBoard || board[k].matched || board[k].flipped) && |old(cardsFlipped)| == 1 ==>
        turns == old(turns) + 1 &&
        (old(SameAsset(cardsFlipped[0], k)) ==>
          cardsMatched == old(cardsMatched) + 1 && cardsFlipped == [] && !lockBoard && timers == old(timers) &&
          ledger.coins == old(ledger.coins) + (if cardsMatched == TotalPairs then MemoramaReward(turns) else 0)) &&
        (!old(SameAsset(cardsFlipped[0], k)) ==>
          cardsMatched == old(cardsMatched) && cardsFlipped == old(cardsFlipped) + [k] && lockBoard &&
          ledger.coins == old(ledger.coins) && |timers| == |old(timers)| + 1 && timers[..|old(timers)|] == old(timers))
    {
      if lockBoard || board[k].matched || board[k].flipped {
        return;
      }
      ghost var wasValid := Valid();
      TurnUp(k);
      if |cardsFlipped| == 2 {
        turns := turns + 1;
        lockBoard := true;
        CheckForMatch();
      }
      if wasValid {
        assert 2 * cardsMatched + |cardsFlipped| <= BoardSize;
      }
    }

    /**
     * `card1Obj.flipped = false` and `card2Obj.flipped = false`, each when
     * `find` found the card (Casino/casino.js:392-393). Two distinct face-up
     * cards leave the face-up count two lower; ids and `matched` flags stay.
     */
    method TurnDown(first: Option<nat>, second: Option<nat>)
      requires |board| == BoardSize
      requires first.Some? ==> first.value < BoardSize
      requires second.Some? ==> second.value < BoardSize
      modifies this`board
      ensures board == Unflip(Unflip(old(board), first), second) && |board| == BoardSize
      ensures forall j :: 0 <= j < |board| ==> board[j].id == old(board)[j].id && board[j].matched == old(board)[j].matched
      ensures (first.Some? && second.Some? && first != second &&
                old(board)[first.value].flipped && old(board)[second.value].flipped) ==>
        FaceUp(board) == FaceUp(old(board)) - 2
    {
      if first.Some? {
        FaceUpUpdate(board, first.value, board[first.value].(flipped := false));
        board := board[first.value := board[first.value].(flipped := false)];
      }
      if second.Some? {
        FaceUpUpdate(board, second.value, board[second.value].(flipped := false));
        board := board[second.value := board[second.value].(flipped := false)];
      }
    }

    /**
     * The flip-back timer of `handleNoMatch` firing (Casino/casino.js:386-396):
     * the oldest pending flip-back turns its two cards face down again, if
     * they are on the current board, and then ends the turn with `resetTurn`.
     */
    method FlipBack()
      requires Wellformed() && timers != []
      modifies this`board, this`cardsFlipped, this`lockBoard, this`timers
      ensures Wellformed()
      ensures old(Valid()) ==> Valid()
      ensures timers == old(timers)[1..] && cardsFlipped == [] && !lockBoard
      ensures board == if old(timers)[0].generation == generation
        then Unflip(Unflip(old(board), old(timers)[0].first), old(timers)[0].second)
        else old(board)
    {
      var task := timers[0];
      assert task in timers;
      timers := timers[1..];
      if task.generation == generation {
        TurnDown(task.first, task.second);
      }
      ResetTurn();
    }
  }

  /**
   * The reset button pressed while a mismatch waits for its flip-back, as
   * `initMemorama` is written: the old timer survives the reset. A card
   * turned over on the new board before it fires stays face up after the
   * old timer's `resetTurn`, out of the turn and with the board unlocked:
   * `flipCard` ignores it from then on, so its pair can never be found.
   */
  method StaleFlipBackOrphansCard(g: MemoramaGame, draws: seq<nat>, k: nat)
    requires g.Valid() && g.lockBoard && ValidDraws(draws, BoardSize) && k < BoardSize
    modifies g, g.ledger
    ensures |g.board| == BoardSize && g.board[k].flipped && !g.board[k].matched && k !in g.cardsFlipped && !g.lockBoard && g.cardsMatched == 0
    ensures !g.Valid()
  {
    g.InitMemorama(draws);
    assert g.board[k] in g.board;
    g.FlipCard(k);
    g.FlipBack();
  }
}
