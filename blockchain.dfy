/**
 * The chain engine of one node: its blocks, the UTXOs they leave, and its
 * transaction pool; appending a block, validating and replacing the whole
 * chain (fork choice by accumulated difficulty), the difficulty retarget,
 * balances and the data of the next block to mine.
 *
 * Every state change is specified by a function on `ChainState` values; the
 * `Blockchain` class performs it in place and is proved to match.
 */
module Chain {
  import opened Wrappers
  import opened Cryptography
  import opened Transactions
  import opened Pool
  import opened Blocks

  /** Seconds expected between two blocks. */
  const BLOCK_GENERATION_INTERVAL: int := 10
  /** Blocks between two difficulty adjustments. */
  const DIFFICULTY_ADJUSTMENT_INTERVAL: int := 10

  function Last(blocks: seq<Block>): Block
    requires |blocks| > 0
  {
    blocks[|blocks| - 1]
  }

  // ---------------------------------------------------------------------------
  // Accumulated difficulty

  function Pow2(n: nat): (r: nat)
    ensures r >= 1
  {
    if n == 0 then 1 else 2 * Pow2(n - 1)
  }

  /** 2 to the power `d`, for any integer `d`. */
  function BlockWork(d: int): (w: real)
    ensures w > 0.0
    ensures d >= 0 ==> w == Pow2(d) as real
    ensures d < 0 ==> w * (Pow2(-d) as real) == 1.0
  {
    if d >= 0 then Pow2(d) as real else 1.0 / (Pow2(-d) as real)
  }

  function TotalWork(chain: seq<Block>): (w: real)
    ensures w >= 0.0
  {
    if |chain| == 0 then 0.0 else TotalWork(chain[..|chain| - 1]) + BlockWork(chain[|chain| - 1].difficulty)
  }

  /** The sum of 2^difficulty over the chain, truncated to an integer. */
  function GetAccumulatedDifficulty(chain: seq<Block>): int
  {
    TotalWork(chain).Floor
  }

  /** The sum of 2^difficulty over blocks of non-negative difficulty, in integers. */
  function IntegerWork(chain: seq<Block>): int
  {
    if |chain| == 0 then 0
    else
      var d := chain[|chain| - 1].difficulty;
      IntegerWork(chain[..|chain| - 1]) + if d >= 0 then Pow2(d) else 0
  }

  lemma FloorShift(x: real, n: int)
    ensures (x + n as real).Floor == x.Floor + n
  {
  }

  /** When no difficulty is negative, the accumulated difficulty is the exact integer sum of 2^difficulty. */
  lemma {:induction false} AccumulatedDifficultyIsIntegerSum(chain: seq<Block>)
    requires forall i :: 0 <= i < |chain| ==> chain[i].difficulty >= 0
    ensures TotalWork(chain) == IntegerWork(chain) as real
    ensures GetAccumulatedDifficulty(chain) == IntegerWork(chain)
    decreases |chain|
  {
    if |chain| > 0 {
      AccumulatedDifficultyIsIntegerSum(chain[..|chain| - 1]);
    }
  }

  /** Appending a block never lowers the accumulated difficulty, and a block
      of non-negative difficulty raises it by exactly 2^difficulty. */
  lemma AppendRaisesAccumulatedDifficulty(chain: seq<Block>, b: Block)
    ensures GetAccumulatedDifficulty(chain + [b]) >= GetAccumulatedDifficulty(chain)
    ensures b.difficulty >= 0 ==>
              GetAccumulatedDifficulty(chain + [b]) == GetAccumulatedDifficulty(chain) + Pow2(b.difficulty)
  {
    assert (chain + [b])[..|chain|] == chain;
    if b.difficulty >= 0 {
      FloorShift(TotalWork(chain), Pow2(b.difficulty));
    }
  }

  // ---------------------------------------------------------------------------
  // Difficulty retarget

  /** The last block sits on an adjustment boundary. */
  predicate RetargetDue(last: Block)
  {
    last.index % DIFFICULTY_ADJUSTMENT_INTERVAL == 0 && last.index != 0
  }

  /** Difficulty of the next block: the last block's, except on an adjustment
      boundary, where the block ten back is compared against the expected
      100 seconds: under half raises its difficulty by one, over double lowers it by one. */
  function GetUpdatedDifficulty(blocks: seq<Block>): int
    requires |blocks| > 0
    requires RetargetDue(Last(blocks)) ==> |blocks| >= DIFFICULTY_ADJUSTMENT_INTERVAL
  {
    var last := Last(blocks);
    if !RetargetDue(last) then last.difficulty
    else
      var previousAdjustmentBlock := blocks[|blocks| - DIFFICULTY_ADJUSTMENT_INTERVAL];
      var timeExpected := BLOCK_GENERATION_INTERVAL * DIFFICULTY_ADJUSTMENT_INTERVAL;
      var timeTaken := last.timestamp - previousAdjustmentBlock.timestamp;
      if timeTaken < timeExpected / 2 then previousAdjustmentBlock.difficulty + 1
      else if timeTaken > timeExpected * 2 then previousAdjustmentBlock.difficulty - 1
      else last.difficulty
  }

  /** Between adjustment boundaries the difficulty carries over. */
  lemma DifficultyCarriesOverBetweenBoundaries(blocks: seq<Block>)
    requires |blocks| > 0 && !RetargetDue(Last(blocks))
    ensures GetUpdatedDifficulty(blocks) == Last(blocks).difficulty
  {
  }

  /** On a boundary, the next difficulty is one off the block ten back when
      blocks came too fast or too slow, and the last one's otherwise. */
  lemma RetargetOnBoundary(blocks: seq<Block>)
    requires |blocks| >= DIFFICULTY_ADJUSTMENT_INTERVAL && RetargetDue(Last(blocks))
    ensures var a := blocks[|blocks| - DIFFICULTY_ADJUSTMENT_INTERVAL];
            var taken := Last(blocks).timestamp - a.timestamp;
            && (taken < 50 ==> GetUpdatedDifficulty(blocks) == a.difficulty + 1)
            && (taken > 200 ==> GetUpdatedDifficulty(blocks) == a.difficulty - 1)
            && (50 <= taken <= 200 ==> GetUpdatedDifficulty(blocks) == Last(blocks).difficulty)
  {
  }

  // ---------------------------------------------------------------------------
  // Whole-chain validation

  /** The UTXOs a chain leaves when replayed from nothing, or null when its
      first block is not a valid genesis, a block does not follow its
      predecessor, or a block's transactions are invalid. */
  function Replay(c: Crypto, chain: seq<Block>, now: int): Option<seq<UnspentTxOut>>
    requires |chain| > 0
    decreases |chain|
  {
    if |chain| == 1 then
      if IsValidFirstBlock(c, chain[0]) then ProcessTransactions(c, chain[0], []) else None
    else
      match Replay(c, chain[..|chain| - 1], now)
      case None => None
      case Some(u) =>
        if IsValidNewBlock(c, chain[|chain| - 1], Some(chain[|chain| - 2]), now)
        then ProcessTransactions(c, chain[|chain| - 1], u)
        else None
  }

  lemma ReplaySnoc(c: Crypto, chain: seq<Block>, b: Block, now: int)
    requires |chain| > 0
    ensures Replay(c, chain + [b], now)
            == match Replay(c, chain, now)
               case None => None
               case Some(u) => if IsValidNewBlock(c, b, Some(Last(chain)), now) then ProcessTransactions(c, b, u) else None
  {
    assert (chain + [b])[..|chain|] == chain;
  }

  /** A chain that replays is linked: a valid genesis, then every block a valid
      successor of the one before it, with indices equal to positions. */
  lemma {:induction false} ReplayedChainIsLinked(c: Crypto, chain: seq<Block>, now: int)
    requires |chain| > 0 && Replay(c, chain, now).Some?
    ensures IsValidFirstBlock(c, chain[0])
    ensures forall i :: 1 <= i < |chain| ==> IsValidNewBlock(c, chain[i], Some(chain[i - 1]), now)
    ensures forall i :: 0 <= i < |chain| ==> chain[i].index == i && IsHashValid(c, chain[i])
    decreases |chain|
  {
    if |chain| > 1 {
      var front := chain[..|chain| - 1];
      ReplayedChainIsLinked(c, front, now);
      forall i | 0 <= i < |front|
        ensures chain[i] == front[i]
      {
      }
    }
  }

  /** A chain valid at one moment stays valid, with the same UTXOs, later. */
  lemma {:induction false} ReplayLaterClock(c: Crypto, chain: seq<Block>, now: int, later: int)
    requires |chain| > 0 && now <= later && Replay(c, chain, now).Some?
    ensures Replay(c, chain, later) == Replay(c, chain, now)
    decreases |chain|
  {
    if |chain| > 1 {
      ReplayLaterClock(c, chain[..|chain| - 1], now, later);
    }
  }

  /** A replayed chain leaves room for the retarget window. */
  lemma ReplayedChainHasRetargetWindow(c: Crypto, chain: seq<Block>, now: int)
    requires |chain| > 0 && Replay(c, chain, now).Some?
    ensures RetargetDue(Last(chain)) ==> |chain| >= DIFFICULTY_ADJUSTMENT_INTERVAL
  {
    ReplayedChainIsLinked(c, chain, now);
    var n := Last(chain).index;
    assert n == |chain| - 1;
    if RetargetDue(Last(chain)) {
      assert n == DIFFICULTY_ADJUSTMENT_INTERVAL * (n / DIFFICULTY_ADJUSTMENT_INTERVAL);
      assert n / DIFFICULTY_ADJUSTMENT_INTERVAL >= 1;
    }
  }

  /** Replaying one more block of a chain's prefix. */
  lemma ReplayPrefixStep(c: Crypto, chain: seq<Block>, i: nat, now: int)
    requires i < |chain|
    ensures i == 0 ==> Replay(c, chain[..1], now)
                       == if IsValidFirstBlock(c, chain[0]) then ProcessTransactions(c, chain[0], []) else None
    ensures i > 0 ==> Replay(c, chain[..i + 1], now)
                      == match Replay(c, chain[..i], now)
                         case None => None
                         case Some(u) =>
                           if IsValidNewBlock(c, chain[i], Some(chain[i - 1]), now)
                           then ProcessTransactions(c, chain[i], u) else None
  {
    assert chain[..i + 1][..i] == chain[..i];
  }

  // ---------------------------------------------------------------------------
  // Chain state and its transitions

  datatype ChainState = ChainState(blocks: seq<Block>, unspentTxOuts: seq<UnspentTxOut>, pool: seq<Transaction>)

  /** Every pooled transaction still has all its inputs among the UTXOs. */
  predicate PoolBacked(pool: seq<Transaction>, utxos: seq<UnspentTxOut>)
  {
    forall i :: 0 <= i < |pool| ==> AllInputsFound(pool[i].txIns, utxos)
  }

  /** What a node's chain state always satisfies: its blocks replay (at some
      moment) to its UTXOs, and its pool is conflict-free and backed by them. */
  ghost predicate ChainInvariant(c: Crypto, st: ChainState)
  {
    && |st.blocks| > 0
    && (exists t :: Replay(c, st.blocks, t) == Some(st.unspentTxOuts))
    && NoConflicts(st.pool)
    && PoolBacked(st.pool, st.unspentTxOuts)
  }

  /** A fresh chain: the genesis block, its single reward UTXO, an empty pool. */
  function InitialState(c: Crypto, nodeAddress: string, difficulty: int, now: int): (st: ChainState)
    ensures |st.blocks| == 1 && IsValidFirstBlock(c, st.blocks[0]) && |st.blocks[0].data| == 1
    ensures st.unspentTxOuts == [UnspentTxOut(st.blocks[0].data[0].id, 0, nodeAddress, COINBASE_AMOUNT)]
    ensures st.pool == []
  {
    var g := CreateGenesisBlock(c, nodeAddress, difficulty, now);
    GenesisFundsItsAddress(c, nodeAddress, difficulty, now);
    ChainState([g], ProcessTransactions(c, g, []).value, [])
  }

  lemma InitialStateSatisfiesInvariant(c: Crypto, nodeAddress: string, difficulty: int, now: int)
    ensures ChainInvariant(c, InitialState(c, nodeAddress, difficulty, now))
  {
    var st := InitialState(c, nodeAddress, difficulty, now);
    GenesisFundsItsAddress(c, nodeAddress, difficulty, now);
    assert Replay(c, st.blocks, now) == Some(st.unspentTxOuts);
  }

  /** Appending `b`: kept only when it is present, follows the last block and
      its transactions are valid; then the UTXOs move on and the pool is pruned. */
  function AddBlockSpec(c: Crypto, st: ChainState, b: Option<Block>, now: int): ChainState
    requires |st.blocks| > 0
  {
    if b.None? || !IsValidNewBlock(c, b.value, Some(Last(st.blocks)), now) then st
    else
      match ProcessTransactions(c, b.value, st.unspentTxOuts)
      case None => st
      case Some(u) => ChainState(st.blocks + [b.value], u, Prune(st.pool, u))
  }

  /** Fork choice: a candidate chain is adopted when it replays and is either
      strictly heavier or a lone index-0 block; then its UTXOs replace the
      current ones and the pool is pruned. */
  function ReplaceChainSpec(c: Crypto, st: ChainState, newBlocks: seq<Block>, now: int): ChainState
    requires |newBlocks| > 0
  {
    match Replay(c, newBlocks, now)
    case None => st
    case Some(u) =>
      if GetAccumulatedDifficulty(newBlocks) <= GetAccumulatedDifficulty(st.blocks)
         && !(|newBlocks| == 1 && Last(newBlocks).index == 0)
      then st
      else ChainState(newBlocks, u, Prune(st.pool, u))
  }

  /** Offering a transaction to the pool. */
  function AddToPoolSpec(c: Crypto, st: ChainState, tx: Transaction): ChainState
  {
    if Admissible(c, st.pool, tx, st.unspentTxOuts) then st.(pool := st.pool + [tx]) else st
  }

  /** Offering `tx` to the pool throws instead of answering. */
  predicate AddToPoolThrows(c: Crypto, st: ChainState, tx: Transaction)
  {
    AddThrows(c, st.pool, tx, st.unspentTxOuts)
  }

  /** Offering several transactions, in order, going on past rejections; an
      offer that throws ends the list, and the rest are never offered. */
  function OfferAll(c: Crypto, st: ChainState, txs: seq<Transaction>): ChainState
    decreases |txs|
  {
    if |txs| == 0 || AddToPoolThrows(c, st, txs[0]) then st
    else OfferAll(c, AddToPoolSpec(c, st, txs[0]), txs[1..])
  }

  /** Building a transfer from the node's UTXOs and pool and offering it to the pool. */
  function SendTransactionSpec(c: Crypto, st: ChainState, sender: string, receiver: string,
                               key: KeyContainer, amount: int): ChainState
  {
    match CreatedTransaction(c, sender, receiver, key, amount, st.unspentTxOuts, st.pool)
    case None => st
    case Some(tx) => AddToPoolSpec(c, st, tx)
  }

  /** Sum of the amounts of the UTXOs owned by `address`. */
  function GetBalance(utxos: seq<UnspentTxOut>, address: string): int
  {
    if |utxos| == 0 then 0
    else
      var u := utxos[|utxos| - 1];
      GetBalance(utxos[..|utxos| - 1], address) + if u.address == address then u.amount else 0
  }

  /** The transactions of the next block to mine: a reward for the next height, then the pool in order. */
  function NextBlockData(c: Crypto, st: ChainState, address: string): (data: seq<Transaction>)
    requires |st.blocks| > 0
    ensures |data| == |st.pool| + 1 && data[1..] == st.pool
    ensures IsAValidCoinBaseTx(c, data[0], Last(st.blocks).index + 1)
    ensures data[0].txOuts == [TxOut(address, COINBASE_AMOUNT)]
  {
    [CreateCoinbaseTransaction(c, address, Last(st.blocks).index + 1)] + st.pool
  }

  /** The block to mine on top of the chain, before any nonce is tried. */
  function NextBlock(c: Crypto, st: ChainState, data: seq<Transaction>, now: int): (b: Block)
    requires |st.blocks| > 0
    requires RetargetDue(Last(st.blocks)) ==> |st.blocks| >= DIFFICULTY_ADJUSTMENT_INTERVAL
    ensures b.index == Last(st.blocks).index + 1 && b.previousHash == Last(st.blocks).hash
    ensures b.timestamp == now && b.data == data && b.hash.None?
    ensures b.difficulty == GetUpdatedDifficulty(st.blocks)
  {
    Block(Last(st.blocks).index + 1, now, None, Last(st.blocks).hash, data, 0, GetUpdatedDifficulty(st.blocks))
  }

  /** The block with a nonce chosen and its hash computed. */
  function Seal(c: Crypto, b: Block, nonce: int): (r: Block)
    ensures IsHashValid(c, r) && r.nonce == nonce
    ensures r.(hash := b.hash, nonce := b.nonce) == b
  {
    var b' := b.(nonce := nonce);
    SetComputedHashIsValid(c, b');
    SetHash(b', ComputeHash(c, b'))
  }

  // ---------------------------------------------------------------------------
  // Properties of the transitions

  /** The pool stays conflict-free and backed across pruning. */
  lemma PrunedPoolKeepsInvariant(pool: seq<Transaction>, utxos: seq<UnspentTxOut>)
    requires NoConflicts(pool)
    ensures NoConflicts(Prune(pool, utxos)) && PoolBacked(Prune(pool, utxos), utxos)
  {
    PrunePreservesNoConflicts(pool, utxos);
    var r := Prune(pool, utxos);
    forall i | 0 <= i < |r|
      ensures AllInputsFound(r[i].txIns, utxos)
    {
      assert r[i] in r;
    }
  }

  lemma AddBlockPreservesInvariant(c: Crypto, st: ChainState, b: Option<Block>, now: int)
    requires ChainInvariant(c, st)
    ensures ChainInvariant(c, AddBlockSpec(c, st, b, now))
  {
    var st' := AddBlockSpec(c, st, b, now);
    if st' != st {
      var t :| Replay(c, st.blocks, t) == Some(st.unspentTxOuts);
      var later := if t <= now then now else t;
      ReplayLaterClock(c, st.blocks, t, later);
      ReplaySnoc(c, st.blocks, b.value, later);
      assert Replay(c, st'.blocks, later) == Some(st'.unspentTxOuts);
      PrunedPoolKeepsInvariant(st.pool, st'.unspentTxOuts);
    }
  }

  /** An accepted block is a valid successor of the old last block; the chain
      grows by exactly that block and the UTXOs are its transition's result. */
  lemma AddBlockAppendsValidSuccessor(c: Crypto, st: ChainState, b: Option<Block>, now: int)
    requires |st.blocks| > 0
    requires AddBlockSpec(c, st, b, now) != st
    ensures b.Some? && IsValidNewBlock(c, b.value, Some(Last(st.blocks)), now)
    ensures AddBlockSpec(c, st, b, now).blocks == st.blocks + [b.value]
    ensures ProcessTransactions(c, b.value, st.unspentTxOuts) == Some(AddBlockSpec(c, st, b, now).unspentTxOuts)
  {
  }

  /** Delivering the same block twice changes nothing the second time. */
  lemma AddBlockTwiceIsOnce(c: Crypto, st: ChainState, b: Block, now: int)
    requires ChainInvariant(c, st)
    ensures var st' := AddBlockSpec(c, st, Some(b), now);
            AddBlockSpec(c, st', Some(b), now) == st'
  {
    var st' := AddBlockSpec(c, st, Some(b), now);
    if st' != st {
      assert Last(st'.blocks) == b;
      assert b.index != b.index + 1;
    } else {
      assert st' == st;
    }
  }

  /** An accepted block of non-negative difficulty strictly raises the accumulated difficulty. */
  lemma AddBlockRaisesAccumulatedDifficulty(c: Crypto, st: ChainState, b: Block, now: int)
    requires |st.blocks| > 0
    requires AddBlockSpec(c, st, Some(b), now) != st && b.difficulty >= 0
    ensures GetAccumulatedDifficulty(AddBlockSpec(c, st, Some(b), now).blocks) > GetAccumulatedDifficulty(st.blocks)
  {
    AppendRaisesAccumulatedDifficulty(st.blocks, b);
  }

  lemma ReplaceChainPreservesInvariant(c: Crypto, st: ChainState, newBlocks: seq<Block>, now: int)
    requires ChainInvariant(c, st) && |newBlocks| > 0
    ensures ChainInvariant(c, ReplaceChainSpec(c, st, newBlocks, now))
  {
    var st' := ReplaceChainSpec(c, st, newBlocks, now);
    if st' != st {
      assert Replay(c, st'.blocks, now) == Some(st'.unspentTxOuts);
      PrunedPoolKeepsInvariant(st.pool, st'.unspentTxOuts);
    }
  }

  /** The chain is replaced only by a valid chain that is strictly heavier or a lone index-0 block. */
  lemma ReplaceChainOnlyByHeavierOrGenesis(c: Crypto, st: ChainState, newBlocks: seq<Block>, now: int)
    requires |newBlocks| > 0
    requires ReplaceChainSpec(c, st, newBlocks, now) != st
    ensures Replay(c, newBlocks, now).Some?
    ensures GetAccumulatedDifficulty(newBlocks) > GetAccumulatedDifficulty(st.blocks)
            || (|newBlocks| == 1 && newBlocks[0].index == 0)
    ensures ReplaceChainSpec(c, st, newBlocks, now).blocks == newBlocks
    ensures ReplaceChainSpec(c, st, newBlocks, now).unspentTxOuts == Replay(c, newBlocks, now).value
  {
  }

  /** A valid chain of equal accumulated difficulty does not displace the current one (unless it is a lone genesis). */
  lemma ReplaceChainKeepsOnTie(c: Crypto, st: ChainState, newBlocks: seq<Block>, now: int)
    requires |newBlocks| > 1
    requires GetAccumulatedDifficulty(newBlocks) == GetAccumulatedDifficulty(st.blocks)
    ensures ReplaceChainSpec(c, st, newBlocks, now) == st
  {
  }

  /** A lone valid genesis block replaces any chain, however long: fork choice
      does not compare it with the current chain at all. */
  lemma LoneGenesisReplacesAnyChain(c: Crypto, st: ChainState, g: Block, now: int)
    requires Replay(c, [g], now).Some?
    ensures ReplaceChainSpec(c, st, [g], now).blocks == [g]
  {
  }

  lemma AddToPoolPreservesInvariant(c: Crypto, st: ChainState, tx: Transaction)
    requires ChainInvariant(c, st)
    ensures ChainInvariant(c, AddToPoolSpec(c, st, tx))
  {
    if Admissible(c, st.pool, tx, st.unspentTxOuts) {
      AddPreservesNoConflicts(c, st.pool, tx, st.unspentTxOuts);
      var pool' := st.pool + [tx];
      forall i | 0 <= i < |pool'|
        ensures AllInputsFound(pool'[i].txIns, st.unspentTxOuts)
      {
        if i < |st.pool| {
          assert pool'[i] == st.pool[i];
        }
      }
    }
  }

  lemma {:induction false} OfferAllPreservesInvariant(c: Crypto, st: ChainState, txs: seq<Transaction>)
    requires ChainInvariant(c, st)
    ensures ChainInvariant(c, OfferAll(c, st, txs))
    ensures OfferAll(c, st, txs).blocks == st.blocks && OfferAll(c, st, txs).unspentTxOuts == st.unspentTxOuts
    decreases |txs|
  {
    if |txs| > 0 && !AddToPoolThrows(c, st, txs[0]) {
      AddToPoolPreservesInvariant(c, st, txs[0]);
      OfferAllPreservesInvariant(c, AddToPoolSpec(c, st, txs[0]), txs[1..]);
    }
  }

  /** One offer leaves the pool as it is or appends the offered transaction. */
  lemma AddToPoolAppendsOnly(c: Crypto, st: ChainState, tx: Transaction)
    ensures AddToPoolSpec(c, st, tx).pool in {st.pool, st.pool + [tx]}
  {
  }

  /** Offering a list only appends to the pool: every transaction pooled
      before stays, in place, and every new one is one of the offered. */
  lemma {:induction false} OfferAllOnlyAppends(c: Crypto, st: ChainState, txs: seq<Transaction>)
    ensures var pool' := OfferAll(c, st, txs).pool;
            && |st.pool| <= |pool'| && pool'[..|st.pool|] == st.pool
            && forall t :: t in pool'[|st.pool|..] ==> t in txs
    decreases |txs|
  {
    if |txs| > 0 && !AddToPoolThrows(c, st, txs[0]) {
      var st1 := AddToPoolSpec(c, st, txs[0]);
      AddToPoolAppendsOnly(c, st, txs[0]);
      OfferAllOnlyAppends(c, st1, txs[1..]);
      AppendedTail(st.pool, st1.pool, OfferAll(c, st1, txs[1..]).pool, txs);
    }
  }

  /** Sequence bookkeeping for `OfferAllOnlyAppends`: two appending steps,
      the first adding at most `txs[0]`, the second only elements of `txs[1..]`. */
  lemma AppendedTail<T>(p0: seq<T>, p1: seq<T>, p2: seq<T>, txs: seq<T>)
    requires |txs| > 0
    requires p1 in {p0, p0 + [txs[0]]}
    requires |p1| <= |p2| && p2[..|p1|] == p1 && forall t :: t in p2[|p1|..] ==> t in txs[1..]
    ensures |p0| <= |p2| && p2[..|p0|] == p0 && forall t :: t in p2[|p0|..] ==> t in txs
  {
    assert p1[..|p0|] == p0;
    assert p2[..|p0|] == p2[..|p1|][..|p0|];
    forall t | t in p2[|p0|..]
      ensures t in txs
    {
      var k :| |p0| <= k < |p2| && p2[k] == t;
      if k < |p1| {
        assert p2[k] == p1[k];
      } else {
        assert p2[k] in p2[|p1|..];
      }
    }
  }

  /** Once an offer throws, nothing after it reaches the pool. */
  lemma ThrowingOfferEndsTheList(c: Crypto, st: ChainState, tx: Transaction, rest: seq<Transaction>)
    requires AddToPoolThrows(c, st, tx)
    ensures OfferAll(c, st, [tx] + rest) == st
  {
    assert ([tx] + rest)[0] == tx;
  }

  /** With nothing pooled, the sender's available funds are exactly their balance. */
  lemma {:induction false} BalanceIsAvailableWithEmptyPool(utxos: seq<UnspentTxOut>, address: string)
    ensures UtxoTotal(Available(utxos, address, [])) == GetBalance(utxos, address)
    decreases |utxos|
  {
    if |utxos| > 0 {
      var front, u := utxos[..|utxos| - 1], utxos[|utxos| - 1];
      BalanceIsAvailableWithEmptyPool(front, address);
      assert AllTxIns([]) == [];
      UtxoTotalConcat(Available(front, address, []), if u.address == address then [u] else []);
      if u.address == address {
        assert [u][..0] == [];
      }
    }
  }

  /** With nothing pooled and no negative amounts, a send fails exactly when the balance is short. */
  lemma SendFailsIffBalanceShort(c: Crypto, st: ChainState, sender: string, receiver: string,
                                 key: KeyContainer, amount: int)
    requires st.pool == []
    requires forall u :: u in st.unspentTxOuts ==> u.amount >= 0
    ensures CreatedTransaction(c, sender, receiver, key, amount, st.unspentTxOuts, st.pool).None?
            <==> GetBalance(st.unspentTxOuts, sender) < amount
  {
    CreatedTransactionFailsIffUnfunded(c, sender, receiver, key, amount, st.unspentTxOuts, st.pool);
    BalanceIsAvailableWithEmptyPool(st.unspentTxOuts, sender);
  }

  /** A transfer built with the sender's own key, from UTXOs with unique names,
      is admitted to the pool unless its id is already pooled. */
  lemma SendTransactionIsAdmitted(c: Crypto, st: ChainState, sender: string, receiver: string,
                                  key: KeyContainer, amount: int)
    requires SignaturesSound(c) && c.publicKey(key) == sender
    requires UniqueKeys(st.unspentTxOuts)
    requires CreatedTransaction(c, sender, receiver, key, amount, st.unspentTxOuts, st.pool).Some?
    requires !HasId(st.pool, CreatedTransaction(c, sender, receiver, key, amount, st.unspentTxOuts, st.pool).value.id)
    ensures var tx := CreatedTransaction(c, sender, receiver, key, amount, st.unspentTxOuts, st.pool).value;
            SendTransactionSpec(c, st, sender, receiver, key, amount) == st.(pool := st.pool + [tx])
  {
    var tx := CreatedTransaction(c, sender, receiver, key, amount, st.unspentTxOuts, st.pool).value;
    CreatedTransactionIsValid(c, sender, receiver, key, amount, st.unspentTxOuts, st.pool);
    CreatedTransactionSpendsFreeOwnOutputs(c, sender, receiver, key, amount, st.unspentTxOuts, st.pool);
    forall j | 0 <= j < |tx.txIns|
      ensures !Spends(AllTxIns(st.pool), InKey(tx.txIns[j]))
    {
      var u :| u in st.unspentTxOuts && UtxoKey(u) == InKey(tx.txIns[j]) && u.address == sender
               && !Spends(AllTxIns(st.pool), UtxoKey(u));
    }
  }

  /** Whatever nonce mining settles on, the sealed next block is accepted on top
      of a valid chain, provided the clock has not fallen a minute behind the last block. */
  lemma MinedBlockFollowsChain(c: Crypto, st: ChainState, address: string, now: int, nonce: int)
    requires ChainInvariant(c, st)
    requires Last(st.blocks).timestamp < now + TIMESTAMP_TOLERANCE
    ensures RetargetDue(Last(st.blocks)) ==> |st.blocks| >= DIFFICULTY_ADJUSTMENT_INTERVAL
    ensures IsValidNewBlock(c, Seal(c, NextBlock(c, st, NextBlockData(c, st, address), now), nonce),
                            Some(Last(st.blocks)), now)
  {
    var t :| Replay(c, st.blocks, t) == Some(st.unspentTxOuts);
    ReplayedChainIsLinked(c, st.blocks, t);
    ReplayedChainHasRetargetWindow(c, st.blocks, t);
  }

  // ---------------------------------------------------------------------------
  // The chain object

  class Blockchain {
    const crypto: Crypto
    var blocks: seq<Block>
    var unspentTxOuts: seq<UnspentTxOut>
    const transactionPool: TransactionPool

    function State(): ChainState
      reads this, transactionPool
    {
      ChainState(blocks, unspentTxOuts, transactionPool.transactions)
    }

    ghost predicate Valid()
      reads this, transactionPool
    {
      ChainInvariant(crypto, State())
    }

    /** A chain holding only its own genesis block, rewarding `nodeAddress`. */
    constructor Init(c: Crypto, nodeAddress: string, difficulty: int, now: int)
      ensures crypto == c && fresh(transactionPool)
      ensures State() == InitialState(c, nodeAddress, difficulty, now)
      ensures Valid()
    {
      crypto := c;
      var genesisBlock := CreateGenesisBlock(c, nodeAddress, difficulty, now);
      GenesisFundsItsAddress(c, nodeAddress, difficulty, now);
      unspentTxOuts := ProcessTransactions(c, genesisBlock, []).value;
      blocks := [genesisBlock];
      transactionPool := new TransactionPool();
      new;
      InitialStateSatisfiesInvariant(c, nodeAddress, difficulty, now);
    }

    method LastBlock() returns (b: Block)
      requires Valid()
      ensures b == Last(blocks)
    {
      b := blocks[|blocks| - 1];
    }

    method GetPooledTransactions() returns (txs: seq<Transaction>)
      ensures txs == transactionPool.transactions
    {
      txs := transactionPool.GetTransactions();
    }

    method GetBalanceOf(publicKey: string) returns (balance: int)
      ensures balance == GetBalance(unspentTxOuts, publicKey)
    {
      balance := GetBalance(unspentTxOuts, publicKey);
    }

    /** Replay a chain block by block, stopping at the first failure. */
    method ValidateChain(chain: seq<Block>, now: int) returns (r: Option<seq<UnspentTxOut>>)
      requires |chain| > 0
      ensures r == Replay(crypto, chain, now)
    {
      if !IsValidFirstBlock(crypto, chain[0]) {
        ReplayPrefixStep(crypto, chain, 0, now);
        NoReplayPastFailure(crypto, chain, 1, now);
        return None;
      }
      var chainUnspentTxOuts: seq<UnspentTxOut> := [];
      for i := 0 to |chain|
        invariant i == 0 ==> chainUnspentTxOuts == []
        invariant i > 0 ==> Replay(crypto, chain[..i], now) == Some(chainUnspentTxOuts)
      {
        ReplayPrefixStep(crypto, chain, i, now);
        if i != 0 && !IsValidNewBlock(crypto, chain[i], Some(chain[i - 1]), now) {
          NoReplayPastFailure(crypto, chain, i + 1, now);
          return None;
        }
        var processed := ProcessTransactions(crypto, chain[i], chainUnspentTxOuts);
        if processed.None? {
          NoReplayPastFailure(crypto, chain, i + 1, now);
          return None;
        }
        chainUnspentTxOuts := processed.value;
      }
      assert chain[..|chain|] == chain;
      r := Some(chainUnspentTxOuts);
    }

    method IsValidChain(now: int) returns (ok: bool)
      requires |blocks| > 0
      ensures ok == Replay(crypto, blocks, now).Some?
    {
      var r := ValidateChain(blocks, now);
      ok := r.Some?;
    }

    method AddToPool(tx: Transaction) returns (ok: bool, threw: bool)
      requires Valid()
      modifies transactionPool
      ensures ok == Admissible(crypto, old(State()).pool, tx, unspentTxOuts)
      ensures threw == AddToPoolThrows(crypto, old(State()), tx)
      ensures State() == AddToPoolSpec(crypto, old(State()), tx)
      ensures Valid()
    {
      AddToPoolPreservesInvariant(crypto, State(), tx);
      ok, threw := transactionPool.Add(crypto, tx, unspentTxOuts);
    }

    method SendTransaction(senderAddress: string, receiverAddress: string, key: KeyContainer, amount: int)
      returns (ok: bool)
      requires Valid()
      modifies transactionPool
      ensures State() == SendTransactionSpec(crypto, old(State()), senderAddress, receiverAddress, key, amount)
      ensures ok <==> State() != old(State())
      ensures Valid()
    {
      var pooled := transactionPool.GetTransactions();
      var tx := CreateTransaction(crypto, senderAddress, receiverAddress, key, amount, unspentTxOuts, pooled);
      if tx.None? {
        return false;
      }
      var threw;
      ok, threw := AddToPool(tx.value);
      assert ok ==> |State().pool| == |old(State()).pool| + 1;
    }

    /** The transactions and the unmined block that mining would start from. */
    method GenerateNextBlock(address: string, now: int) returns (b: Block)
      requires Valid()
      ensures RetargetDue(Last(blocks)) ==> |blocks| >= DIFFICULTY_ADJUSTMENT_INTERVAL
      ensures b == NextBlock(crypto, State(), NextBlockData(crypto, State(), address), now)
    {
      var t :| Replay(crypto, blocks, t) == Some(unspentTxOuts);
      ReplayedChainHasRetargetWindow(crypto, blocks, t);
      var pooled := transactionPool.GetTransactions();
      var blockData := [CreateCoinbaseTransaction(crypto, address, blocks[|blocks| - 1].index + 1)] + pooled;
      b := NextBlock(crypto, State(), blockData, now);
    }

    method AddBlock(b: Option<Block>, now: int)
      requires Valid()
      modifies this, transactionPool
      ensures State() == AddBlockSpec(crypto, old(State()), b, now)
      ensures Valid()
    {
      AddBlockPreservesInvariant(crypto, State(), b, now);
      if b.None? {
        return;
      }
      if !IsValidNewBlock(crypto, b.value, Some(blocks[|blocks| - 1]), now) {
        return;
      }
      var updatedUnspentTxOuts := ProcessTransactions(crypto, b.value, unspentTxOuts);
      if updatedUnspentTxOuts.None? {
        return;
      }
      blocks := blocks + [b.value];
      unspentTxOuts := updatedUnspentTxOuts.value;
      transactionPool.Update(unspentTxOuts);
    }

    method ReplaceChain(newBlocks: seq<Block>, now: int)
      requires Valid() && |newBlocks| > 0
      modifies this, transactionPool
      ensures State() == ReplaceChainSpec(crypto, old(State()), newBlocks, now)
      ensures Valid()
    {
      ReplaceChainPreservesInvariant(crypto, State(), newBlocks, now);
      var newUnspentTxOuts := ValidateChain(newBlocks, now);
      if newUnspentTxOuts.None? {
        return;
      }
      if GetAccumulatedDifficulty(newBlocks) <= GetAccumulatedDifficulty(blocks)
         && !(|newBlocks| == 1 && newBlocks[|newBlocks| - 1].index == 0) {
        return;
      }
      blocks := newBlocks;
      unspentTxOuts := newUnspentTxOuts.value;
      transactionPool.Update(unspentTxOuts);
    }
  }

  /** Once a prefix fails to replay, so does every longer prefix. */
  lemma {:induction false} NoReplayPastFailure(c: Crypto, chain: seq<Block>, i: nat, now: int)
    requires 0 < i <= |chain| && Replay(c, chain[..i], now).None?
    ensures Replay(c, chain, now).None?
    decreases |chain| - i
  {
    if i < |chain| {
      assert chain[..i + 1][..i] == chain[..i];
      NoReplayPastFailure(c, chain, i + 1, now);
    } else {
      assert chain[..i] == chain;
    }
  }
}
