/**
 * Blocks: hashing, the genesis and successor rules, the in-block checks on
 * transactions, and the UTXO transition a block performs.
 *
 * A block is a value. Timestamps are whole seconds; the wall clock is the
 * parameter `now`.
 */
module Blocks {
  import opened Wrappers
  import opened Cryptography
  import opened Transactions
  import opened Sequences

  /** Seconds a block's timestamp may run ahead of its predecessor's, and of the clock. */
  const TIMESTAMP_TOLERANCE: int := 60

  datatype Block = Block(index: int, timestamp: int, hash: Option<string>, previousHash: Option<string>,
                         data: seq<Transaction>, nonce: int, difficulty: int)

  // ---------------------------------------------------------------------------
  // Hashing

  /** The transactions' texts separated by commas. */
  function JoinTxs(data: seq<Transaction>): string
  {
    if |data| == 0 then ""
    else if |data| == 1 then TxText(data[0])
    else JoinTxs(data[..|data| - 1]) + "," + TxText(data[|data| - 1])
  }

  /** The text a block hash is computed over; a null previous hash contributes nothing. */
  function HashContent(b: Block): string
  {
    IntToString(b.index) + (if b.previousHash.Some? then b.previousHash.value else "")
    + IntToString(b.timestamp) + JoinTxs(b.data) + IntToString(b.difficulty) + IntToString(b.nonce)
  }

  function ComputeHash(c: Crypto, b: Block): string
  {
    CalculateHash(c, Some(HashContent(b))).value
  }

  /** The stored hash is present and is the computed one. */
  predicate IsHashValid(c: Crypto, b: Block)
  {
    b.hash.Some? && b.hash.value == ComputeHash(c, b)
  }

  /** The block with its stored hash replaced. */
  function SetHash(b: Block, h: string): (r: Block)
    ensures r.hash == Some(h)
    ensures r.(hash := b.hash) == b
  {
    b.(hash := Some(h))
  }

  /** The block with the next nonce, every other field kept. */
  function IncrementNonce(b: Block): (r: Block)
    ensures r.nonce == b.nonce + 1
    ensures r.(nonce := b.nonce) == b
  {
    b.(nonce := b.nonce + 1)
  }

  /** The hash depends on every field but the stored hash itself. */
  lemma ComputeHashIgnoresStoredHash(c: Crypto, b: Block, h: Option<string>)
    ensures ComputeHash(c, b.(hash := h)) == ComputeHash(c, b)
  {
  }

  /** Setting the computed hash makes the hash valid. */
  lemma SetComputedHashIsValid(c: Crypto, b: Block)
    ensures IsHashValid(c, SetHash(b, ComputeHash(c, b)))
  {
    ComputeHashIgnoresStoredHash(c, b, Some(ComputeHash(c, b)));
  }

  // ---------------------------------------------------------------------------
  // Structural rules

  /** A first block has index 0, no previous hash, and a valid hash. */
  predicate IsValidFirstBlock(c: Crypto, b: Block)
  {
    b.index == 0 && b.previousHash.None? && IsHashValid(c, b)
  }

  /** The timestamp is less than a minute behind the predecessor's and less than a minute ahead of the clock. */
  predicate IsTimestampValid(b: Block, prev: Block, now: int)
  {
    prev.timestamp < b.timestamp + TIMESTAMP_TOLERANCE && b.timestamp < now + TIMESTAMP_TOLERANCE
  }

  /** A timestamp acceptable now stays acceptable later: the clock enters the
      check only as an upper bound. */
  lemma TimestampValidLater(b: Block, prev: Block, now: int, later: int)
    requires now <= later && IsTimestampValid(b, prev, now)
    ensures IsTimestampValid(b, prev, later)
  {
  }

  /** `b` may follow `prev`. Proof of work is not checked. */
  predicate IsValidNewBlock(c: Crypto, b: Block, prev: Option<Block>, now: int)
  {
    && prev.Some?
    && prev.value.index + 1 == b.index
    && b.previousHash.Some? && b.previousHash == prev.value.hash
    && IsTimestampValid(b, prev.value, now)
    && IsHashValid(c, b)
  }

  /** The genesis block: index 0, a single height-0 coinbase to `nodeAddress`, nonce 0. */
  function CreateGenesisBlock(c: Crypto, nodeAddress: string, difficulty: int, now: int): (b: Block)
    ensures b.index == 0 && b.timestamp == now && b.previousHash.None?
    ensures b.data == [CreateCoinbaseTransaction(c, nodeAddress, 0)]
    ensures b.nonce == 0 && b.difficulty == difficulty
    ensures IsValidFirstBlock(c, b)
  {
    var unsealed := Block(0, now, None, None, [CreateCoinbaseTransaction(c, nodeAddress, 0)], 0, difficulty);
    SetComputedHashIsValid(c, unsealed);
    SetHash(unsealed, ComputeHash(c, unsealed))
  }

  /** Trying another nonce and resealing keeps a block a valid successor whenever
      the first seal was: the nonce enters validity only through the hash. */
  lemma ResealKeepsSuccessor(c: Crypto, b: Block, prev: Option<Block>, now: int)
    requires IsValidNewBlock(c, b, prev, now)
    ensures var b' := IncrementNonce(b);
            IsValidNewBlock(c, SetHash(b', ComputeHash(c, b')), prev, now)
  {
    SetComputedHashIsValid(c, IncrementNonce(b));
  }

  // ---------------------------------------------------------------------------
  // Inputs spent by a block

  /** How many inputs of `ins` reference `k`. */
  function CountRef(ins: seq<TxIn>, k: OutPoint): nat
  {
    if |ins| == 0 then 0
    else CountRef(ins[..|ins| - 1], k) + if InKey(ins[|ins| - 1]) == k then 1 else 0
  }

  /** Some input's reference occurs more than once. */
  predicate HasDuplicateTxIns(ins: seq<TxIn>)
  {
    exists p :: 0 <= p < |ins| && CountRef(ins, InKey(ins[p])) > 1
  }

  /** No two inputs reference the same output. */
  predicate DistinctRefs(ins: seq<TxIn>)
  {
    forall p, q :: 0 <= p < q < |ins| ==> InKey(ins[p]) != InKey(ins[q])
  }

  lemma {:induction false} CountRefZero(ins: seq<TxIn>, k: OutPoint)
    ensures CountRef(ins, k) == 0 <==> !Spends(ins, k)
    decreases |ins|
  {
    if |ins| > 0 {
      var front := ins[..|ins| - 1];
      CountRefZero(front, k);
      if Spends(front, k) {
        var p :| 0 <= p < |front| && InKey(front[p]) == k;
        assert InKey(ins[p]) == k;
      }
      if Spends(ins, k) && InKey(ins[|ins| - 1]) != k {
        var p :| 0 <= p < |ins| && InKey(ins[p]) == k;
        assert InKey(front[p]) == k;
      }
    }
  }

  lemma {:induction false} DistinctCountsAtMostOne(ins: seq<TxIn>, k: OutPoint)
    requires DistinctRefs(ins)
    ensures CountRef(ins, k) <= 1
    decreases |ins|
  {
    if |ins| > 0 {
      var front := ins[..|ins| - 1];
      DistinctCountsAtMostOne(front, k);
      if InKey(ins[|ins| - 1]) == k {
        forall p | 0 <= p < |front|
          ensures InKey(front[p]) != k
        {
          assert InKey(ins[p]) != InKey(ins[|ins| - 1]);
        }
        CountRefZero(front, k);
      }
    }
  }

  lemma {:induction false} RepeatCountsTwo(ins: seq<TxIn>, p: int, q: int)
    requires 0 <= p < q < |ins| && InKey(ins[p]) == InKey(ins[q])
    ensures CountRef(ins, InKey(ins[p])) >= 2
    decreases |ins|
  {
    var front := ins[..|ins| - 1];
    if q < |ins| - 1 {
      assert front[p] == ins[p] && front[q] == ins[q];
      RepeatCountsTwo(front, p, q);
    } else {
      assert InKey(front[p]) == InKey(ins[p]);
      CountRefZero(front, InKey(ins[p]));
    }
  }

  /** The source's counting test for duplicate inputs means exactly that two inputs share a reference. */
  lemma NoDuplicateIffDistinct(ins: seq<TxIn>)
    ensures !HasDuplicateTxIns(ins) <==> DistinctRefs(ins)
  {
    if DistinctRefs(ins) {
      forall p | 0 <= p < |ins|
        ensures CountRef(ins, InKey(ins[p])) <= 1
      {
        DistinctCountsAtMostOne(ins, InKey(ins[p]));
      }
    } else {
      var p, q :| 0 <= p < q < |ins| && InKey(ins[p]) == InKey(ins[q]);
      RepeatCountsTwo(ins, p, q);
    }
  }

  // ---------------------------------------------------------------------------
  // Transaction checks and the UTXO transition

  /** The coinbase rule, no input repeated anywhere in the block, and every
      other transaction valid against the UTXOs from before the block. A block
      without transactions is rejected (the source fails on it). */
  predicate AreTransactionsValid(c: Crypto, b: Block, unspentTxOuts: seq<UnspentTxOut>)
  {
    && |b.data| > 0
    && IsAValidCoinBaseTx(c, b.data[0], b.index)
    && !HasDuplicateTxIns(AllTxIns(b.data))
    && forall i :: 1 <= i < |b.data| ==> IsValid(c, b.data[i], unspentTxOuts)
  }

  /** A block whose transactions pass opens with a coinbase minting the
      reward, never spends one output twice, and every later transaction
      passes `IsValid`, so none of their checks throws. */
  lemma ValidTransactionsSpendEachOutputOnce(c: Crypto, b: Block, unspentTxOuts: seq<UnspentTxOut>)
    requires AreTransactionsValid(c, b, unspentTxOuts)
    ensures OutTotal(b.data[0].txOuts) == COINBASE_AMOUNT
    ensures DistinctRefs(AllTxIns(b.data))
    ensures forall i :: 1 <= i < |b.data| ==> !IsValidThrows(c, b.data[i], unspentTxOuts)
  {
    ValidCoinbaseMintsReward(c, b.data[0], b.index);
    NoDuplicateIffDistinct(AllTxIns(b.data));
    forall i | 1 <= i < |b.data|
      ensures !IsValidThrows(c, b.data[i], unspentTxOuts)
    {
      ValidMeansSignedByOwners(c, b.data[i], unspentTxOuts);
    }
  }

  /** The outputs of one transaction as UTXOs: its id, each output's position, address and amount. */
  function TxUnspentOuts(id: string, outs: seq<TxOut>): (r: seq<UnspentTxOut>)
    ensures |r| == |outs|
    ensures forall k :: 0 <= k < |outs| ==> r[k] == UnspentTxOut(id, k, outs[k].address, outs[k].amount)
  {
    seq(|outs|, k requires 0 <= k < |outs| => UnspentTxOut(id, k, outs[k].address, outs[k].amount))
  }

  /** The UTXOs a sequence of transactions creates, in order. */
  function NewUnspentTxOuts(data: seq<Transaction>): seq<UnspentTxOut>
  {
    if |data| == 0 then []
    else NewUnspentTxOuts(data[..|data| - 1]) + TxUnspentOuts(data[|data| - 1].id, data[|data| - 1].txOuts)
  }

  /** The UTXOs that no input of `ins` references, in their original order. */
  function Unreferenced(utxos: seq<UnspentTxOut>, ins: seq<TxIn>): seq<UnspentTxOut>
  {
    if |utxos| == 0 then []
    else
      var u := utxos[|utxos| - 1];
      Unreferenced(utxos[..|utxos| - 1], ins) + if Spends(ins, UtxoKey(u)) then [] else [u]
  }

  /** `Unreferenced` is an order-keeping filter dropping exactly the
      referenced UTXOs. */
  lemma {:induction false} UnreferencedKeepsOrder(utxos: seq<UnspentTxOut>, ins: seq<TxIn>)
    ensures IsFilterOf(Unreferenced(utxos, ins), utxos, NotSpentBy(ins))
    decreases |utxos|
  {
    if |utxos| == 0 {
      EmptyIsFilterOfEmpty(NotSpentBy(ins));
    } else {
      var front, u := utxos[..|utxos| - 1], utxos[|utxos| - 1];
      UnreferencedKeepsOrder(front, ins);
      FilterSnoc(Unreferenced(front, ins), front, NotSpentBy(ins), u);
      assert front + [u] == utxos;
    }
  }

  /** What `Unreferenced` keeps: the UTXOs no input of `ins` references. */
  function NotSpentBy(ins: seq<TxIn>): UnspentTxOut -> bool
  {
    (u: UnspentTxOut) => !Spends(ins, UtxoKey(u))
  }

  /** A UTXO survives the filter iff it was there and no input references it. */
  lemma {:induction false} UnreferencedMembers(utxos: seq<UnspentTxOut>, ins: seq<TxIn>)
    ensures forall u :: u in Unreferenced(utxos, ins) <==> u in utxos && !Spends(ins, UtxoKey(u))
    decreases |utxos|
  {
    if |utxos| > 0 {
      var front, u := utxos[..|utxos| - 1], utxos[|utxos| - 1];
      UnreferencedMembers(front, ins);
      assert utxos == front + [u];
    }
  }

  /** Drop every UTXO the block spends, then append the ones it creates. */
  function UpdateUnspentTxOuts(b: Block, unspentTxOuts: seq<UnspentTxOut>): (r: seq<UnspentTxOut>)
    ensures forall u :: u in r <==> (u in unspentTxOuts && !Spends(AllTxIns(b.data), UtxoKey(u)))
                                     || u in NewUnspentTxOuts(b.data)
  {
    UnreferencedMembers(unspentTxOuts, AllTxIns(b.data));
    Unreferenced(unspentTxOuts, AllTxIns(b.data)) + NewUnspentTxOuts(b.data)
  }

  /** The updated list is the old one with the spent UTXOs taken out, order
      kept, followed by the block's new outputs. */
  lemma UpdateUnspentTxOutsKeepsOrder(b: Block, unspentTxOuts: seq<UnspentTxOut>)
    ensures var r := UpdateUnspentTxOuts(b, unspentTxOuts);
            var n := |r| - |NewUnspentTxOuts(b.data)|;
            && 0 <= n
            && IsFilterOf(r[..n], unspentTxOuts, NotSpentBy(AllTxIns(b.data)))
            && r[n..] == NewUnspentTxOuts(b.data)
  {
    var kept := Unreferenced(unspentTxOuts, AllTxIns(b.data));
    var r := UpdateUnspentTxOuts(b, unspentTxOuts);
    UnreferencedKeepsOrder(unspentTxOuts, AllTxIns(b.data));
    assert r[..|kept|] == kept;
  }

  /** The outputs of a block's transactions are listed transaction by
      transaction, in order: those of `a + b` are those of `a`, then those of `b`. */
  lemma {:induction false} NewUnspentTxOutsAppend(a: seq<Transaction>, b: seq<Transaction>)
    ensures NewUnspentTxOuts(a + b) == NewUnspentTxOuts(a) + NewUnspentTxOuts(b)
    decreases |b|
  {
    if |b| == 0 {
      assert a + b == a;
    } else {
      var front, t := b[..|b| - 1], b[|b| - 1];
      NewUnspentTxOutsAppend(a, front);
      assert (a + b)[..|a + b| - 1] == a + front;
    }
  }

  /** One transaction's outputs become UTXOs under its id, at their own indices. */
  lemma NewUnspentTxOutsOfOne(t: Transaction)
    ensures NewUnspentTxOuts([t]) == TxUnspentOuts(t.id, t.txOuts)
  {
    assert [t][..0] == [];
  }

  /** The UTXOs after the block, or null when its transactions are invalid. */
  function ProcessTransactions(c: Crypto, b: Block, unspentTxOuts: seq<UnspentTxOut>): (r: Option<seq<UnspentTxOut>>)
    ensures r.None? <==> !AreTransactionsValid(c, b, unspentTxOuts)
    ensures r.Some? ==> forall u :: u in r.value ==>
              (u in unspentTxOuts && !Spends(AllTxIns(b.data), UtxoKey(u))) || u in NewUnspentTxOuts(b.data)
  {
    if !AreTransactionsValid(c, b, unspentTxOuts) then None
    else Some(UpdateUnspentTxOuts(b, unspentTxOuts))
  }

  /** The genesis block's transactions are valid against no UTXOs and leave a
      single UTXO: the coinbase reward, owned by the node. */
  lemma GenesisFundsItsAddress(c: Crypto, nodeAddress: string, difficulty: int, now: int)
    ensures var g := CreateGenesisBlock(c, nodeAddress, difficulty, now);
            ProcessTransactions(c, g, []) == Some([UnspentTxOut(g.data[0].id, 0, nodeAddress, COINBASE_AMOUNT)])
  {
    var g := CreateGenesisBlock(c, nodeAddress, difficulty, now);
    assert AllTxIns(g.data) == [] + g.data[0].txIns by {
      assert g.data[..0] == [];
    }
    assert DistinctRefs(AllTxIns(g.data));
    NoDuplicateIffDistinct(AllTxIns(g.data));
    assert AreTransactionsValid(c, g, []);
    assert NewUnspentTxOuts(g.data) == [] + TxUnspentOuts(g.data[0].id, g.data[0].txOuts) by {
      assert g.data[..0] == [];
    }
    assert Unreferenced([], AllTxIns(g.data)) == [];
    assert TxUnspentOuts(g.data[0].id, g.data[0].txOuts) == [UnspentTxOut(g.data[0].id, 0, nodeAddress, COINBASE_AMOUNT)];
    assert UpdateUnspentTxOuts(g, []) == Unreferenced([], AllTxIns(g.data)) + NewUnspentTxOuts(g.data);
    assert UpdateUnspentTxOuts(g, []) == [UnspentTxOut(g.data[0].id, 0, nodeAddress, COINBASE_AMOUNT)];
    assert ProcessTransactions(c, g, []) == Some(UpdateUnspentTxOuts(g, []));
  }

  // ---------------------------------------------------------------------------
  // Conservation of value

  /** Total amount of the UTXOs the inputs reference, counting an input whose output is missing as 0. */
  function SpentTotal(ins: seq<TxIn>, utxos: seq<UnspentTxOut>): int
  {
    if |ins| == 0 then 0
    else
      var x := ins[|ins| - 1];
      SpentTotal(ins[..|ins| - 1], utxos)
      + match FindUnspentTxOut(utxos, InKey(x)) case None => 0 case Some(u) => u.amount
  }

  /** Total amount of all outputs of a sequence of transactions. */
  function TxsOutTotal(data: seq<Transaction>): int
  {
    if |data| == 0 then 0 else TxsOutTotal(data[..|data| - 1]) + OutTotal(data[|data| - 1].txOuts)
  }

  lemma {:induction false} SpentTotalConcat(a: seq<TxIn>, b: seq<TxIn>, utxos: seq<UnspentTxOut>)
    ensures SpentTotal(a + b, utxos) == SpentTotal(a, utxos) + SpentTotal(b, utxos)
    decreases |b|
  {
    if |b| > 0 {
      assert (a + b)[..|a + b| - 1] == a + b[..|b| - 1];
      SpentTotalConcat(a, b[..|b| - 1], utxos);
    } else {
      assert a + b == a;
    }
  }

  lemma {:induction false} SpentTotalOfFound(ins: seq<TxIn>, utxos: seq<UnspentTxOut>)
    requires AllInputsFound(ins, utxos)
    ensures SpentTotal(ins, utxos) == InTotal(ins, utxos)
    decreases |ins|
  {
    if |ins| > 0 {
      SpentTotalOfFound(ins[..|ins| - 1], utxos);
    }
  }

  lemma {:induction false} TxsOutTotalConcat(a: seq<Transaction>, b: seq<Transaction>)
    ensures TxsOutTotal(a + b) == TxsOutTotal(a) + TxsOutTotal(b)
    decreases |b|
  {
    if |b| > 0 {
      assert (a + b)[..|a + b| - 1] == a + b[..|b| - 1];
      TxsOutTotalConcat(a, b[..|b| - 1]);
    } else {
      assert a + b == a;
    }
  }

  /** Valid transactions spend exactly what they pay out. */
  lemma {:induction false} ValidTxsSpendTheirOutputs(c: Crypto, txs: seq<Transaction>, utxos: seq<UnspentTxOut>)
    requires forall i :: 0 <= i < |txs| ==> IsValid(c, txs[i], utxos)
    ensures SpentTotal(AllTxIns(txs), utxos) == TxsOutTotal(txs)
    decreases |txs|
  {
    if |txs| > 0 {
      var front, t := txs[..|txs| - 1], txs[|txs| - 1];
      ValidTxsSpendTheirOutputs(c, front, utxos);
      SpentTotalConcat(AllTxIns(front), t.txIns, utxos);
      SpentTotalOfFound(t.txIns, utxos);
    }
  }

  lemma {:induction false} TxUnspentOutsTotal(id: string, outs: seq<TxOut>)
    ensures UtxoTotal(TxUnspentOuts(id, outs)) == OutTotal(outs)
    decreases |outs|
  {
    if |outs| > 0 {
      var r := TxUnspentOuts(id, outs);
      assert r[..|r| - 1] == TxUnspentOuts(id, outs[..|outs| - 1]);
      TxUnspentOutsTotal(id, outs[..|outs| - 1]);
    }
  }

  lemma {:induction false} NewUnspentTotal(data: seq<Transaction>)
    ensures UtxoTotal(NewUnspentTxOuts(data)) == TxsOutTotal(data)
    decreases |data|
  {
    if |data| > 0 {
      var front, t := data[..|data| - 1], data[|data| - 1];
      NewUnspentTotal(front);
      UtxoTotalConcat(NewUnspentTxOuts(front), TxUnspentOuts(t.id, t.txOuts));
      TxUnspentOutsTotal(t.id, t.txOuts);
    }
  }

  lemma SpendsSnoc(ins: seq<TxIn>, x: TxIn, k: OutPoint)
    ensures Spends(ins + [x], k) <==> Spends(ins, k) || InKey(x) == k
  {
    if Spends(ins, k) {
      var p :| 0 <= p < |ins| && InKey(ins[p]) == k;
      assert (ins + [x])[p] == ins[p];
    }
    if Spends(ins + [x], k) && InKey(x) != k {
      var p :| 0 <= p < |ins + [x]| && InKey((ins + [x])[p]) == k;
      assert InKey(ins[p]) == k;
    }
    if InKey(x) == k {
      assert (ins + [x])[|ins|] == x;
    }
  }

  lemma UnreferencedSnoc(utxos: seq<UnspentTxOut>, u: UnspentTxOut, ins: seq<TxIn>)
    ensures Unreferenced(utxos + [u], ins) == Unreferenced(utxos, ins) + if Spends(ins, UtxoKey(u)) then [] else [u]
  {
    assert (utxos + [u])[..|utxos + [u]| - 1] == utxos;
  }

  /** Filtering by `ins + [x]` is filtering by `ins`, then by `[x]`. */
  lemma {:induction false} UnreferencedByOneMore(utxos: seq<UnspentTxOut>, ins: seq<TxIn>, x: TxIn)
    ensures Unreferenced(utxos, ins + [x]) == Unreferenced(Unreferenced(utxos, ins), [x])
    decreases |utxos|
  {
    if |utxos| > 0 {
      var front, u := utxos[..|utxos| - 1], utxos[|utxos| - 1];
      var k := UtxoKey(u);
      UnreferencedByOneMore(front, ins, x);
      SpendsSnoc(ins, x, k);
      SpendsSingle(x, k);
      var kept := Unreferenced(front, ins);
      assert Unreferenced(utxos, ins + [x])
             == Unreferenced(front, ins + [x]) + if Spends(ins + [x], k) then [] else [u];
      assert Unreferenced(utxos, ins) == kept + if Spends(ins, k) then [] else [u];
      if Spends(ins, k) {
        assert kept + [] == kept;
      } else {
        UnreferencedSnoc(kept, u, [x]);
      }
    }
  }

  lemma SpendsSingle(x: TxIn, k: OutPoint)
    ensures Spends([x], k) <==> InKey(x) == k
  {
    assert [x][0] == x;
  }

  lemma UniqueKeysSnoc(us: seq<UnspentTxOut>, u: UnspentTxOut)
    requires UniqueKeys(us)
    requires forall v :: v in us ==> UtxoKey(v) != UtxoKey(u)
    ensures UniqueKeys(us + [u])
  {
    forall i, j | 0 <= i < j < |us + [u]|
      ensures UtxoKey((us + [u])[i]) != UtxoKey((us + [u])[j])
    {
      assert (us + [u])[i] == us[i];
      if j == |us| {
        assert us[i] in us;
      }
    }
  }

  /** Filtering keeps names unique. */
  lemma {:induction false} UnreferencedKeepsUniqueKeys(utxos: seq<UnspentTxOut>, ins: seq<TxIn>)
    requires UniqueKeys(utxos)
    ensures UniqueKeys(Unreferenced(utxos, ins))
    decreases |utxos|
  {
    if |utxos| > 0 {
      var front, u := utxos[..|utxos| - 1], utxos[|utxos| - 1];
      UnreferencedKeepsUniqueKeys(front, ins);
      UnreferencedMembers(front, ins);
      if !Spends(ins, UtxoKey(u)) {
        forall v | v in Unreferenced(front, ins)
          ensures UtxoKey(v) != UtxoKey(u)
        {
          var i :| 0 <= i < |front| && front[i] == v;
        }
        UniqueKeysSnoc(Unreferenced(front, ins), u);
      }
    }
  }

  /** Filtering out other references does not change what a lookup of an unreferenced name finds. */
  lemma {:induction false} FindInUnreferenced(utxos: seq<UnspentTxOut>, ins: seq<TxIn>, k: OutPoint)
    requires !Spends(ins, k)
    ensures FindUnspentTxOut(Unreferenced(utxos, ins), k) == FindUnspentTxOut(utxos, k)
    decreases |utxos|
  {
    if |utxos| > 0 {
      var front, u := utxos[..|utxos| - 1], utxos[|utxos| - 1];
      FindInUnreferenced(front, ins, k);
      assert utxos == front + [u];
      FindSnoc(front, u, k);
      var kept := Unreferenced(front, ins);
      assert Unreferenced(utxos, ins) == kept + if Spends(ins, UtxoKey(u)) then [] else [u];
      if Spends(ins, UtxoKey(u)) {
        assert kept + [] == kept;
      } else {
        FindSnoc(kept, u, k);
      }
    }
  }

  /** Removing the single UTXO one input names lowers the total by that UTXO's amount. */
  lemma {:induction false} RemoveOneTotal(utxos: seq<UnspentTxOut>, x: TxIn)
    requires UniqueKeys(utxos)
    ensures UtxoTotal(Unreferenced(utxos, [x]))
            == UtxoTotal(utxos) - match FindUnspentTxOut(utxos, InKey(x)) case None => 0 case Some(u) => u.amount
    decreases |utxos|
  {
    if |utxos| > 0 {
      var front, u := utxos[..|utxos| - 1], utxos[|utxos| - 1];
      assert utxos == front + [u];
      assert UniqueKeys(front);
      RemoveOneTotal(front, x);
      FindSnoc(front, u, InKey(x));
      UnreferencedSnoc(front, u, [x]);
      UtxoTotalConcat(Unreferenced(front, [x]), if Spends([x], UtxoKey(u)) then [] else [u]);
      assert Spends([x], UtxoKey(u)) <==> InKey(x) == UtxoKey(u) by {
        assert [x][0] == x;
      }
      if InKey(x) == UtxoKey(u) {
        forall i | 0 <= i < |front|
          ensures UtxoKey(front[i]) != InKey(x)
        {
          assert UtxoKey(utxos[i]) != UtxoKey(utxos[|utxos| - 1]);
        }
      }
    }
  }

  /** Spending distinct references out of UTXOs with unique names lowers
      their total by exactly the amounts the references find. */
  lemma {:induction false} UnreferencedTotal(utxos: seq<UnspentTxOut>, ins: seq<TxIn>)
    requires UniqueKeys(utxos)
    requires DistinctRefs(ins)
    ensures UtxoTotal(Unreferenced(utxos, ins)) == UtxoTotal(utxos) - SpentTotal(ins, utxos)
    decreases |ins|
  {
    if |ins| == 0 {
      assert ins == [];
      UnreferencedByNone(utxos);
    } else {
      var front, x := ins[..|ins| - 1], ins[|ins| - 1];
      assert ins == front + [x];
      assert DistinctRefs(front);
      UnreferencedTotal(utxos, front);
      UnreferencedByOneMore(utxos, front, x);
      UnreferencedKeepsUniqueKeys(utxos, front);
      RemoveOneTotal(Unreferenced(utxos, front), x);
      forall p | 0 <= p < |front|
        ensures InKey(front[p]) != InKey(x)
      {
        assert InKey(ins[p]) != InKey(ins[|ins| - 1]);
      }
      FindInUnreferenced(utxos, front, InKey(x));
    }
  }

  /** Filtering by no references keeps every UTXO. */
  lemma {:induction false} UnreferencedByNone(utxos: seq<UnspentTxOut>)
    ensures Unreferenced(utxos, []) == utxos
    decreases |utxos|
  {
    if |utxos| > 0 {
      var front := utxos[..|utxos| - 1];
      UnreferencedByNone(front);
      assert utxos == front + [utxos[|utxos| - 1]];
    }
  }

  /** Value conservation: when the pre-block UTXOs have unique names and the
      coinbase input names none of them, a block with valid transactions raises
      the total unspent value by exactly the coinbase reward. */
  lemma ProcessTransactionsConservesValue(c: Crypto, b: Block, unspentTxOuts: seq<UnspentTxOut>)
    requires UniqueKeys(unspentTxOuts)
    requires ProcessTransactions(c, b, unspentTxOuts).Some?
    requires FindUnspentTxOut(unspentTxOuts, InKey(b.data[0].txIns[0])).None?
    ensures UtxoTotal(ProcessTransactions(c, b, unspentTxOuts).value) == UtxoTotal(unspentTxOuts) + COINBASE_AMOUNT
  {
    var data := b.data;
    var coinbase, rest := data[0], data[1..];
    assert data == [coinbase] + rest;
    var ins := AllTxIns(data);
    NoDuplicateIffDistinct(ins);
    UnreferencedTotal(unspentTxOuts, ins);
    AllTxInsConcat([coinbase], rest);
    assert AllTxIns([coinbase]) == [] + coinbase.txIns by {
      assert [coinbase][..0] == [];
    }
    SpentTotalConcat(coinbase.txIns, AllTxIns(rest), unspentTxOuts);
    assert coinbase.txIns == [] + [coinbase.txIns[0]];
    assert SpentTotal(coinbase.txIns, unspentTxOuts) == 0;
    forall i | 0 <= i < |rest|
      ensures IsValid(c, rest[i], unspentTxOuts)
    {
      assert rest[i] == data[i + 1];
    }
    ValidTxsSpendTheirOutputs(c, rest, unspentTxOuts);
    NewUnspentTotal(data);
    TxsOutTotalConcat([coinbase], rest);
    assert TxsOutTotal([coinbase]) == 0 + OutTotal(coinbase.txOuts) by {
      assert [coinbase][..0] == [];
    }
    assert OutTotal(coinbase.txOuts) == COINBASE_AMOUNT by {
      assert coinbase.txOuts[..0] == [];
    }
    UtxoTotalConcat(Unreferenced(unspentTxOuts, ins), NewUnspentTxOuts(data));
  }
}
