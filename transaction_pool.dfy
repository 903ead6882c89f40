/**
 * The pool of transactions waiting to be mined.
 *
 * The pool admits a transaction only when its id is new, it is valid
 * against the current unspent outputs, and none of its inputs is already
 * spent by a pooled transaction; it drops every transaction one of whose
 * inputs stops being unspent. Together these keep the pool free of
 * conflicts: no two pooled transactions share an id or spend the same output.
 */
module Pool {
  import opened Wrappers
  import opened Cryptography
  import opened Transactions
  import opened Sequences

  /** Some transaction of `pool` has id `id`. */
  predicate HasId(pool: seq<Transaction>, id: string)
  {
    exists i :: 0 <= i < |pool| && pool[i].id == id
  }

  /** No input of `tx` references an output already spent by a pooled transaction. */
  predicate TxInsAvailable(pool: seq<Transaction>, tx: Transaction)
  {
    forall j :: 0 <= j < |tx.txIns| ==> !Spends(AllTxIns(pool), InKey(tx.txIns[j]))
  }

  /** The three checks a transaction must pass to enter the pool. */
  predicate Admissible(c: Crypto, pool: seq<Transaction>, tx: Transaction, utxos: seq<UnspentTxOut>)
  {
    !HasId(pool, tx.id) && IsValid(c, tx, utxos) && TxInsAvailable(pool, tx)
  }

  /** Offering `tx` throws: its id is not pooled yet, so the validity check
      runs, and that check throws. */
  predicate AddThrows(c: Crypto, pool: seq<Transaction>, tx: Transaction, utxos: seq<UnspentTxOut>)
  {
    !HasId(pool, tx.id) && IsValidThrows(c, tx, utxos)
  }

  /** Two transactions can sit in the pool together: different ids, no shared spent output. */
  predicate Compatible(a: Transaction, b: Transaction)
  {
    a.id != b.id && forall p :: 0 <= p < |a.txIns| ==> !Spends(b.txIns, InKey(a.txIns[p]))
  }

  /** The pool invariant. */
  predicate NoConflicts(pool: seq<Transaction>)
  {
    forall i, j :: 0 <= i < j < |pool| ==> Compatible(pool[i], pool[j])
  }

  /** Compatibility is symmetric, so the invariant rules out conflicts in either order. */
  lemma CompatibleSymmetric(a: Transaction, b: Transaction)
    requires Compatible(a, b)
    ensures Compatible(b, a)
  {
    forall q | 0 <= q < |b.txIns|
      ensures !Spends(a.txIns, InKey(b.txIns[q]))
    {
      forall p | 0 <= p < |a.txIns|
        ensures InKey(a.txIns[p]) != InKey(b.txIns[q])
      {
        assert !Spends(b.txIns, InKey(a.txIns[p]));
      }
    }
  }

  /** In a conflict-free pool, an output is spent by at most one transaction. */
  lemma NoConflictsMeansSingleSpender(pool: seq<Transaction>, i: int, j: int, k: OutPoint)
    requires NoConflicts(pool)
    requires 0 <= i < |pool| && 0 <= j < |pool|
    requires Spends(pool[i].txIns, k) && Spends(pool[j].txIns, k)
    ensures i == j
  {
    if i < j {
      assert false;
    } else if j < i {
      assert false;
    }
  }

  /** Appending an admissible transaction keeps a pool conflict-free. */
  lemma AddPreservesNoConflicts(c: Crypto, pool: seq<Transaction>, tx: Transaction, utxos: seq<UnspentTxOut>)
    requires NoConflicts(pool)
    requires Admissible(c, pool, tx, utxos)
    ensures NoConflicts(pool + [tx])
  {
    var pool' := pool + [tx];
    forall i | 0 <= i < |pool|
      ensures Compatible(pool[i], tx)
    {
      assert pool[i].id != tx.id;
      forall p | 0 <= p < |pool[i].txIns|
        ensures !Spends(tx.txIns, InKey(pool[i].txIns[p]))
      {
        var k := InKey(pool[i].txIns[p]);
        SpendsAllTxIns(pool, k);
        assert Spends(pool[i].txIns, k);
      }
    }
    forall i, j | 0 <= i < j < |pool'|
      ensures Compatible(pool'[i], pool'[j])
    {
      if j < |pool| {
        assert pool'[i] == pool[i] && pool'[j] == pool[j];
      } else {
        assert pool'[i] == pool[i] && pool'[j] == tx;
      }
    }
  }

  /** The pooled transactions whose every input is still unspent, in pool order. */
  function Prune(pool: seq<Transaction>, utxos: seq<UnspentTxOut>): (r: seq<Transaction>)
    ensures forall t :: t in r <==> t in pool && AllInputsFound(t.txIns, utxos)
    ensures |r| <= |pool|
  {
    if |pool| == 0 then []
    else
      var t := pool[|pool| - 1];
      var front := pool[..|pool| - 1];
      assert pool == front + [t];
      Prune(front, utxos) + if AllInputsFound(t.txIns, utxos) then [t] else []
  }

  /** `Prune` is an order-keeping filter: the surviving transactions keep
      their relative order, and exactly the unfunded ones are dropped. */
  lemma {:induction false} PruneKeepsOrder(pool: seq<Transaction>, utxos: seq<UnspentTxOut>)
    ensures IsFilterOf(Prune(pool, utxos), pool, StillFunded(utxos))
    decreases |pool|
  {
    if |pool| == 0 {
      EmptyIsFilterOfEmpty(StillFunded(utxos));
    } else {
      var front, t := pool[..|pool| - 1], pool[|pool| - 1];
      PruneKeepsOrder(front, utxos);
      FilterSnoc(Prune(front, utxos), front, StillFunded(utxos), t);
      assert front + [t] == pool;
    }
  }

  /** What `Prune` keeps: the transactions whose every input is still unspent. */
  function StillFunded(utxos: seq<UnspentTxOut>): Transaction -> bool
  {
    (t: Transaction) => AllInputsFound(t.txIns, utxos)
  }

  /** Pruning a pool against the same outputs twice drops nothing more. */
  lemma {:induction false} PruneIdempotent(pool: seq<Transaction>, utxos: seq<UnspentTxOut>)
    ensures Prune(Prune(pool, utxos), utxos) == Prune(pool, utxos)
    decreases |pool|
  {
    PruneKeepsAllLive(Prune(pool, utxos), utxos);
  }

  /** A pool whose every transaction has all its inputs unspent is left as it is. */
  lemma {:induction false} PruneKeepsAllLive(pool: seq<Transaction>, utxos: seq<UnspentTxOut>)
    requires forall t :: t in pool ==> AllInputsFound(t.txIns, utxos)
    ensures Prune(pool, utxos) == pool
    decreases |pool|
  {
    if |pool| > 0 {
      var front, t := pool[..|pool| - 1], pool[|pool| - 1];
      assert pool == front + [t];
      assert forall x :: x in front ==> x in pool;
      assert t in pool;
      PruneKeepsAllLive(front, utxos);
      PruneSnoc(front, t, utxos);
    }
  }

  /** Pruning distributes over appending one transaction. */
  lemma PruneSnoc(pool: seq<Transaction>, t: Transaction, utxos: seq<UnspentTxOut>)
    ensures Prune(pool + [t], utxos) == Prune(pool, utxos) + if AllInputsFound(t.txIns, utxos) then [t] else []
  {
    assert (pool + [t])[..|pool + [t]| - 1] == pool;
  }

  /** Pruning keeps a pool conflict-free. */
  lemma {:induction false} PrunePreservesNoConflicts(pool: seq<Transaction>, utxos: seq<UnspentTxOut>)
    requires NoConflicts(pool)
    ensures NoConflicts(Prune(pool, utxos))
    decreases |pool|
  {
    if |pool| > 0 {
      var t := pool[|pool| - 1];
      var front := pool[..|pool| - 1];
      assert NoConflicts(front) by {
        forall i, j | 0 <= i < j < |front|
          ensures Compatible(front[i], front[j])
        {
          assert front[i] == pool[i] && front[j] == pool[j];
        }
      }
      PrunePreservesNoConflicts(front, utxos);
      var pf := Prune(front, utxos);
      if AllInputsFound(t.txIns, utxos) {
        var r := pf + [t];
        forall i, j | 0 <= i < j < |r|
          ensures Compatible(r[i], r[j])
        {
          if j < |pf| {
            assert r[i] == pf[i] && r[j] == pf[j];
          } else {
            assert r[i] == pf[i] && r[j] == t;
            assert pf[i] in front;
            var m :| 0 <= m < |front| && front[m] == pf[i];
            assert pool[m] == front[m] && pool[|pool| - 1] == t;
          }
        }
      }
    }
  }

  /** The pool of one node: an ordered list of transactions that it mutates. */
  class TransactionPool {
    var transactions: seq<Transaction>

    ghost predicate Valid()
      reads this
    {
      NoConflicts(transactions)
    }

    constructor()
      ensures transactions == [] && Valid()
    {
      transactions := [];
    }

    /** The pooled transactions, in admission order. */
    method GetTransactions() returns (txs: seq<Transaction>)
      ensures txs == transactions
    {
      txs := transactions;
    }

    /** Admit `tx` when it passes the three checks; report whether it did,
        and whether the validity check threw (the pool is then unchanged). */
    method Add(c: Crypto, tx: Transaction, unspentTxOuts: seq<UnspentTxOut>) returns (ok: bool, threw: bool)
      requires Valid()
      modifies this
      ensures ok == Admissible(c, old(transactions), tx, unspentTxOuts)
      ensures threw == AddThrows(c, old(transactions), tx, unspentTxOuts)
      ensures transactions == if ok then old(transactions) + [tx] else old(transactions)
      ensures Valid()
    {
      if HasId(transactions, tx.id) {
        return false, false;
      }
      if IsValidThrows(c, tx, unspentTxOuts) {
        ThrowingTransactionIsInvalid(c, tx, unspentTxOuts);
        return false, true;
      }
      threw := false;
      if !IsValid(c, tx, unspentTxOuts) {
        return false, false;
      }
      var available := TxInAvailable(tx);
      if !available {
        return false, false;
      }
      AddPreservesNoConflicts(c, transactions, tx, unspentTxOuts);
      transactions := transactions + [tx];
      ok := true;
    }

    /** Drop every transaction one of whose inputs is no longer unspent. */
    method Update(unspentTxOuts: seq<UnspentTxOut>)
      requires Valid()
      modifies this
      ensures transactions == Prune(old(transactions), unspentTxOuts)
      ensures Valid()
    {
      PrunePreservesNoConflicts(transactions, unspentTxOuts);
      transactions := Prune(transactions, unspentTxOuts);
    }

    /** Whether no input of `tx` is already spent by a pooled transaction. */
    method TxInAvailable(tx: Transaction) returns (b: bool)
      ensures b == TxInsAvailable(transactions, tx)
    {
      var poolTxIns := AllTxIns(transactions);
      for j := 0 to |tx.txIns|
        invariant forall q :: 0 <= q < j ==> !Spends(poolTxIns, InKey(tx.txIns[q]))
      {
        if Spends(poolTxIns, InKey(tx.txIns[j])) {
          return false;
        }
      }
      return true;
    }
  }
}
