/**
 * Transactions and unspent transaction outputs (UTXOs).
 *
 * Transactions, inputs and outputs are values. The source mutates a
 * transaction only while building it (its id, then the signatures of its
 * inputs); here those steps return the updated value, except the signing
 * loop, which overwrites an array of inputs in place.
 */
module Transactions {
  import opened Wrappers
  import opened Cryptography
  import opened Sequences

  /** Reward carried by the single output of every coinbase transaction. */
  const COINBASE_AMOUNT: int := 50

  datatype UnspentTxOut = UnspentTxOut(txId: string, txOutIndex: int, address: string, amount: int)

  /** A reference to an output, with the signature that unlocks it (null until signed, or when signing failed). */
  datatype TxIn = TxIn(txOutTxId: string, txOutIndex: int, signature: Option<string>)

  datatype TxOut = TxOut(address: string, amount: int)

  datatype Transaction = Transaction(id: string, txIns: seq<TxIn>, txOuts: seq<TxOut>)

  /** The (transaction id, output index) pair naming an output. */
  type OutPoint = (string, int)

  function UtxoKey(u: UnspentTxOut): OutPoint
  {
    (u.txId, u.txOutIndex)
  }

  function InKey(ti: TxIn): OutPoint
  {
    (ti.txOutTxId, ti.txOutIndex)
  }

  // ---------------------------------------------------------------------------
  // Decimal rendering of integers (what string concatenation does to an int)

  function DigitChar(d: nat): char
    requires d < 10
  {
    "0123456789"[d]
  }

  function NatToString(n: nat): string
    decreases n
  {
    if n < 10 then [DigitChar(n)] else NatToString(n / 10) + [DigitChar(n % 10)]
  }

  function IntToString(i: int): string
  {
    if i < 0 then "-" + NatToString(-i) else NatToString(i)
  }

  // ---------------------------------------------------------------------------
  // Looking outputs up

  /** The first output of `utxos` named by `k`, or null (FirstOrDefault). */
  function FindUnspentTxOut(utxos: seq<UnspentTxOut>, k: OutPoint): (r: Option<UnspentTxOut>)
    ensures r.None? <==> forall i :: 0 <= i < |utxos| ==> UtxoKey(utxos[i]) != k
    ensures r.Some? ==> exists i :: 0 <= i < |utxos| && utxos[i] == r.value && UtxoKey(utxos[i]) == k
                                    && forall j :: 0 <= j < i ==> UtxoKey(utxos[j]) != k
  {
    if |utxos| == 0 then None
    else if UtxoKey(utxos[0]) == k then Some(utxos[0])
    else
      var r := FindUnspentTxOut(utxos[1..], k);
      assert r.Some? ==> exists i :: 1 <= i < |utxos| && utxos[i] == r.value && UtxoKey(utxos[i]) == k
                                     && forall j :: 0 <= j < i ==> UtxoKey(utxos[j]) != k by {
        if r.Some? {
          var i :| 0 <= i < |utxos[1..]| && utxos[1..][i] == r.value && UtxoKey(utxos[1..][i]) == k
                   && forall j :: 0 <= j < i ==> UtxoKey(utxos[1..][j]) != k;
          assert utxos[i + 1] == r.value;
        }
      }
      r
  }

  /** No two outputs of `us` share a name. */
  predicate UniqueKeys(us: seq<UnspentTxOut>)
  {
    forall i, j :: 0 <= i < j < |us| ==> UtxoKey(us[i]) != UtxoKey(us[j])
  }

  /** With unique names, looking an output up by its own name finds it. */
  lemma FindMember(us: seq<UnspentTxOut>, i: int)
    requires UniqueKeys(us) && 0 <= i < |us|
    ensures FindUnspentTxOut(us, UtxoKey(us[i])) == Some(us[i])
  {
    var r := FindUnspentTxOut(us, UtxoKey(us[i]));
    var i' :| 0 <= i' < |us| && us[i'] == r.value && UtxoKey(us[i']) == UtxoKey(us[i])
              && forall j :: 0 <= j < i' ==> UtxoKey(us[j]) != UtxoKey(us[i]);
    assert i' == i;
  }

  /** Looking up in `us + [u]` finds what `us` finds, else `u` if it matches. */
  lemma FindSnoc(us: seq<UnspentTxOut>, u: UnspentTxOut, k: OutPoint)
    ensures FindUnspentTxOut(us + [u], k)
            == if FindUnspentTxOut(us, k).Some? then FindUnspentTxOut(us, k)
               else if UtxoKey(u) == k then Some(u) else None
  {
    if |us| > 0 && UtxoKey(us[0]) != k {
      assert (us + [u])[1..] == us[1..] + [u];
      FindSnoc(us[1..], u, k);
    }
  }

  /** `ins` references the output named `k`. */
  predicate Spends(ins: seq<TxIn>, k: OutPoint)
  {
    exists p :: 0 <= p < |ins| && InKey(ins[p]) == k
  }

  // ---------------------------------------------------------------------------
  // Inputs

  /** Amount of the output an input references; the source throws when there is none. */
  function GetAmount(ti: TxIn, utxos: seq<UnspentTxOut>): (amount: int)
    requires FindUnspentTxOut(utxos, InKey(ti)).Some?
    ensures exists u :: u in utxos && UtxoKey(u) == InKey(ti) && u.amount == amount
  {
    FindUnspentTxOut(utxos, InKey(ti)).value.amount
  }

  /** An input is valid when its output exists and its signature over the
      transaction id verifies against that output's address. */
  predicate TxInIsValid(c: Crypto, ti: TxIn, txId: string, utxos: seq<UnspentTxOut>)
  {
    match FindUnspentTxOut(utxos, InKey(ti))
    case None => false
    case Some(u) => ti.signature.Some? && c.verify(ti.signature.value, txId, u.address)
  }

  /** Signature of an input, or null when its output is missing or the key
      does not own that output. */
  function ComputeSignature(c: Crypto, ti: TxIn, txId: string, key: KeyContainer,
                            utxos: seq<UnspentTxOut>): (sig: Option<string>)
    ensures sig.None? <==> FindUnspentTxOut(utxos, InKey(ti)).None?
                           || c.publicKey(key) != FindUnspentTxOut(utxos, InKey(ti)).value.address
  {
    match FindUnspentTxOut(utxos, InKey(ti))
    case None => None
    case Some(u) => if c.publicKey(key) != u.address then None else Some(c.sign(key, txId))
  }

  /** A signature that could be computed makes its input valid. */
  lemma ComputedSignatureVerifies(c: Crypto, ti: TxIn, txId: string, key: KeyContainer, utxos: seq<UnspentTxOut>)
    requires SignaturesSound(c)
    requires ComputeSignature(c, ti, txId, key, utxos).Some?
    ensures TxInIsValid(c, ti.(signature := ComputeSignature(c, ti, txId, key, utxos)), txId, utxos)
  {
  }

  // ---------------------------------------------------------------------------
  // Sums

  function OutTotal(outs: seq<TxOut>): int
  {
    if |outs| == 0 then 0 else OutTotal(outs[..|outs| - 1]) + outs[|outs| - 1].amount
  }

  function UtxoTotal(us: seq<UnspentTxOut>): int
  {
    if |us| == 0 then 0 else UtxoTotal(us[..|us| - 1]) + us[|us| - 1].amount
  }

  predicate AllInputsFound(ins: seq<TxIn>, utxos: seq<UnspentTxOut>)
  {
    forall j :: 0 <= j < |ins| ==> FindUnspentTxOut(utxos, InKey(ins[j])).Some?
  }

  function InTotal(ins: seq<TxIn>, utxos: seq<UnspentTxOut>): int
    requires AllInputsFound(ins, utxos)
  {
    if |ins| == 0 then 0 else InTotal(ins[..|ins| - 1], utxos) + GetAmount(ins[|ins| - 1], utxos)
  }

  lemma {:induction false} UtxoTotalConcat(a: seq<UnspentTxOut>, b: seq<UnspentTxOut>)
    ensures UtxoTotal(a + b) == UtxoTotal(a) + UtxoTotal(b)
    decreases |b|
  {
    if |b| > 0 {
      assert (a + b)[..|a + b| - 1] == a + b[..|b| - 1];
      UtxoTotalConcat(a, b[..|b| - 1]);
    } else {
      assert a + b == a;
    }
  }

  lemma {:induction false} InTotalConcat(a: seq<TxIn>, b: seq<TxIn>, utxos: seq<UnspentTxOut>)
    requires AllInputsFound(a, utxos) && AllInputsFound(b, utxos)
    ensures AllInputsFound(a + b, utxos)
    ensures InTotal(a + b, utxos) == InTotal(a, utxos) + InTotal(b, utxos)
    decreases |b|
  {
    assert forall j :: 0 <= j < |a + b| ==> (a + b)[j] == if j < |a| then a[j] else b[j - |a|];
    if |b| > 0 {
      assert (a + b)[..|a + b| - 1] == a + b[..|b| - 1];
      InTotalConcat(a, b[..|b| - 1], utxos);
    } else {
      assert a + b == a;
    }
  }

  /** Inputs that resolve, one for one, to the outputs `sel` carry their total. */
  lemma {:induction false} InTotalOfResolved(ins: seq<TxIn>, sel: seq<UnspentTxOut>, utxos: seq<UnspentTxOut>)
    requires |ins| == |sel|
    requires forall j :: 0 <= j < |ins| ==> FindUnspentTxOut(utxos, InKey(ins[j])) == Some(sel[j])
    ensures AllInputsFound(ins, utxos) && InTotal(ins, utxos) == UtxoTotal(sel)
    decreases |ins|
  {
    if |ins| > 0 {
      InTotalOfResolved(ins[..|ins| - 1], sel[..|sel| - 1], utxos);
    }
  }

  // ---------------------------------------------------------------------------
  // Identity and serialisation

  /** The text hashed into a transaction id: input references and outputs, never signatures. */
  function InRefsContent(ins: seq<TxIn>): string
  {
    if |ins| == 0 then ""
    else InRefsContent(ins[..|ins| - 1]) + ins[|ins| - 1].txOutTxId + IntToString(ins[|ins| - 1].txOutIndex)
  }

  function OutsContent(outs: seq<TxOut>): string
  {
    if |outs| == 0 then ""
    else OutsContent(outs[..|outs| - 1]) + outs[|outs| - 1].address + IntToString(outs[|outs| - 1].amount)
  }

  function ComputeId(c: Crypto, tx: Transaction): string
  {
    CalculateHash(c, Some(InRefsContent(tx.txIns) + OutsContent(tx.txOuts))).value
  }

  /** The text of a transaction as it enters a block hash (signatures included, null as empty). */
  function InsText(ins: seq<TxIn>): string
  {
    if |ins| == 0 then ""
    else
      var ti := ins[|ins| - 1];
      InsText(ins[..|ins| - 1]) + ti.txOutTxId + IntToString(ti.txOutIndex)
      + (if ti.signature.Some? then ti.signature.value else "")
  }

  function TxText(tx: Transaction): string
  {
    tx.id + InsText(tx.txIns) + OutsContent(tx.txOuts)
  }

  /** Inputs with the same references, in the same order, serialise alike. */
  lemma {:induction false} RefsContentIgnoresSignatures(a: seq<TxIn>, b: seq<TxIn>)
    requires |a| == |b|
    requires forall j :: 0 <= j < |a| ==> InKey(a[j]) == InKey(b[j])
    ensures InRefsContent(a) == InRefsContent(b)
    decreases |a|
  {
    if |a| > 0 {
      RefsContentIgnoresSignatures(a[..|a| - 1], b[..|b| - 1]);
    }
  }

  /** Re-signing inputs (or changing the stored id) never changes the computed id. */
  lemma ComputeIdIgnoresSignatures(c: Crypto, tx: Transaction, ins: seq<TxIn>, id: string)
    requires |ins| == |tx.txIns|
    requires forall j :: 0 <= j < |ins| ==> InKey(ins[j]) == InKey(tx.txIns[j])
    ensures ComputeId(c, tx.(txIns := ins, id := id)) == ComputeId(c, tx)
  {
    RefsContentIgnoresSignatures(ins, tx.txIns);
  }

  /** The transaction with its id set to the computed one. */
  function ComputeAndSetId(c: Crypto, tx: Transaction): (r: Transaction)
    ensures r.txIns == tx.txIns && r.txOuts == tx.txOuts
    ensures ComputeId(c, r) == r.id
  {
    var r := tx.(id := ComputeId(c, tx));
    ComputeIdIgnoresSignatures(c, tx, tx.txIns, r.id);
    r
  }

  // ---------------------------------------------------------------------------
  // Validation

  /** A transaction is valid against a UTXO sequence when its id is the
      computed one, every input is valid, and inputs and outputs carry the
      same total. Output amounts are not checked for sign. */
  predicate IsValid(c: Crypto, tx: Transaction, utxos: seq<UnspentTxOut>)
  {
    && ComputeId(c, tx) == tx.id
    && (forall j :: 0 <= j < |tx.txIns| ==> TxInIsValid(c, tx.txIns[j], tx.id, utxos))
    && InTotal(tx.txIns, utxos) == OutTotal(tx.txOuts)
  }

  /** Checking `tx` throws instead of answering: the id is the computed one,
      every input before input `j` is valid, and input `j` references an
      existing output but carries a null signature, which the signature
      check cannot take. The inputs are checked in order and the first
      invalid one ends the check. */
  predicate IsValidThrows(c: Crypto, tx: Transaction, utxos: seq<UnspentTxOut>)
  {
    && ComputeId(c, tx) == tx.id
    && exists j :: 0 <= j < |tx.txIns| && NullSignatureReached(c, tx, utxos, j)
  }

  predicate NullSignatureReached(c: Crypto, tx: Transaction, utxos: seq<UnspentTxOut>, j: int)
    requires 0 <= j < |tx.txIns|
  {
    && (forall i :: 0 <= i < j ==> TxInIsValid(c, tx.txIns[i], tx.id, utxos))
    && FindUnspentTxOut(utxos, InKey(tx.txIns[j])).Some?
    && tx.txIns[j].signature.None?
  }

  /** A check that throws never finds the transaction valid. */
  lemma ThrowingTransactionIsInvalid(c: Crypto, tx: Transaction, utxos: seq<UnspentTxOut>)
    requires IsValidThrows(c, tx, utxos)
    ensures !IsValid(c, tx, utxos)
  {
    var j :| 0 <= j < |tx.txIns| && NullSignatureReached(c, tx, utxos, j);
    assert !TxInIsValid(c, tx.txIns[j], tx.id, utxos);
  }

  /** Every input names a UTXO of the list and carries a signature over the
      transaction id that verifies against that UTXO's address. */
  ghost predicate InputsSignedByOwners(c: Crypto, tx: Transaction, utxos: seq<UnspentTxOut>)
  {
    forall j :: 0 <= j < |tx.txIns| ==>
      exists u :: u in utxos && UtxoKey(u) == InKey(tx.txIns[j])
                  && tx.txIns[j].signature.Some? && c.verify(tx.txIns[j].signature.value, tx.id, u.address)
  }

  /** What passing `IsValid` means in terms of the UTXO list itself: a valid
      transaction has its computed id, inputs signed by the owners of listed
      outputs and balanced totals, and checking it never throws. With unique
      keys the converse holds too; otherwise the lookup's first match decides. */
  lemma ValidMeansSignedByOwners(c: Crypto, tx: Transaction, utxos: seq<UnspentTxOut>)
    ensures IsValid(c, tx, utxos) ==> InputsSignedByOwners(c, tx, utxos) && !IsValidThrows(c, tx, utxos)
    ensures UniqueKeys(utxos) ==>
              (IsValid(c, tx, utxos) <==>
                 && ComputeId(c, tx) == tx.id
                 && InputsSignedByOwners(c, tx, utxos)
                 && AllInputsFound(tx.txIns, utxos)
                 && InTotal(tx.txIns, utxos) == OutTotal(tx.txOuts))
  {
    if IsValid(c, tx, utxos) {
      forall j | 0 <= j < |tx.txIns|
        ensures exists u :: u in utxos && UtxoKey(u) == InKey(tx.txIns[j])
                            && tx.txIns[j].signature.Some? && c.verify(tx.txIns[j].signature.value, tx.id, u.address)
      {
        assert TxInIsValid(c, tx.txIns[j], tx.id, utxos);
        var u := FindUnspentTxOut(utxos, InKey(tx.txIns[j])).value;
        assert u in utxos && UtxoKey(u) == InKey(tx.txIns[j]);
      }
      if IsValidThrows(c, tx, utxos) {
        ThrowingTransactionIsInvalid(c, tx, utxos);
      }
    }
    if UniqueKeys(utxos) && ComputeId(c, tx) == tx.id && InputsSignedByOwners(c, tx, utxos)
       && AllInputsFound(tx.txIns, utxos) && InTotal(tx.txIns, utxos) == OutTotal(tx.txOuts) {
      forall j | 0 <= j < |tx.txIns|
        ensures TxInIsValid(c, tx.txIns[j], tx.id, utxos)
      {
        var u :| u in utxos && UtxoKey(u) == InKey(tx.txIns[j])
                 && tx.txIns[j].signature.Some? && c.verify(tx.txIns[j].signature.value, tx.id, u.address);
        var i :| 0 <= i < |utxos| && utxos[i] == u;
        FindMember(utxos, i);
      }
    }
  }

  predicate IsAValidCoinBaseTx(c: Crypto, tx: Transaction, blockIndex: int)
  {
    && ComputeId(c, tx) == tx.id
    && |tx.txIns| == 1
    && |tx.txOuts| == 1
    && tx.txIns[0].txOutIndex == blockIndex
    && tx.txOuts[0].amount == COINBASE_AMOUNT
  }

  /** A transaction passing the coinbase check mints exactly the block reward,
      in one output, from one input naming the block height. */
  lemma ValidCoinbaseMintsReward(c: Crypto, tx: Transaction, blockIndex: int)
    requires IsAValidCoinBaseTx(c, tx, blockIndex)
    ensures OutTotal(tx.txOuts) == COINBASE_AMOUNT
    ensures |tx.txIns| == 1 && tx.txIns[0].txOutIndex == blockIndex
  {
    assert tx.txOuts[..0] == [];
  }

  /** The reward transaction for the block at height `blockIndex`. */
  function CreateCoinbaseTransaction(c: Crypto, address: string, blockIndex: int): (t: Transaction)
    ensures t.txIns == [TxIn("", blockIndex, Some(""))]
    ensures t.txOuts == [TxOut(address, COINBASE_AMOUNT)]
    ensures IsAValidCoinBaseTx(c, t, blockIndex)
  {
    ComputeAndSetId(c, Transaction("", [TxIn("", blockIndex, Some(""))], [TxOut(address, COINBASE_AMOUNT)]))
  }

  /** A transaction with no inputs whose outputs cancel out passes validation:
      nothing stops an output from carrying a negative amount. */
  lemma InputlessBalancedTransactionIsValid(c: Crypto, tx: Transaction, utxos: seq<UnspentTxOut>)
    requires tx.txIns == [] && OutTotal(tx.txOuts) == 0 && tx.id == ComputeId(c, tx)
    ensures IsValid(c, tx, utxos)
  {
  }

  // ---------------------------------------------------------------------------
  // Building a transfer

  /** Every input of a sequence of transactions, in order (SelectMany). */
  function AllTxIns(txs: seq<Transaction>): seq<TxIn>
  {
    if |txs| == 0 then [] else AllTxIns(txs[..|txs| - 1]) + txs[|txs| - 1].txIns
  }

  lemma {:induction false} AllTxInsConcat(a: seq<Transaction>, b: seq<Transaction>)
    ensures AllTxIns(a + b) == AllTxIns(a) + AllTxIns(b)
    decreases |b|
  {
    if |b| > 0 {
      assert (a + b)[..|a + b| - 1] == a + b[..|b| - 1];
      AllTxInsConcat(a, b[..|b| - 1]);
    } else {
      assert a + b == a;
    }
  }

  /** An output is referenced by some transaction iff it is referenced by their joint inputs. */
  lemma {:induction false} SpendsAllTxIns(txs: seq<Transaction>, k: OutPoint)
    ensures Spends(AllTxIns(txs), k) <==> exists j :: 0 <= j < |txs| && Spends(txs[j].txIns, k)
    decreases |txs|
  {
    if |txs| > 0 {
      var front, ins := AllTxIns(txs[..|txs| - 1]), txs[|txs| - 1].txIns;
      SpendsAllTxIns(txs[..|txs| - 1], k);
      if Spends(front + ins, k) {
        var p :| 0 <= p < |front + ins| && InKey((front + ins)[p]) == k;
        if p < |front| {
          assert InKey(front[p]) == k;
          var j :| 0 <= j < |txs| - 1 && Spends(txs[..|txs| - 1][j].txIns, k);
          assert txs[j] == txs[..|txs| - 1][j];
        } else {
          assert InKey(ins[p - |front|]) == k;
        }
      }
      if exists j :: 0 <= j < |txs| && Spends(txs[j].txIns, k) {
        var j :| 0 <= j < |txs| && Spends(txs[j].txIns, k);
        var a :| 0 <= a < |txs[j].txIns| && InKey(txs[j].txIns[a]) == k;
        if j < |txs| - 1 {
          assert txs[..|txs| - 1][j] == txs[j];
          var p :| 0 <= p < |front| && InKey(front[p]) == k;
          assert (front + ins)[p] == front[p];
        } else {
          assert (front + ins)[|front| + a] == ins[a];
        }
      }
    }
  }

  /** The sender's outputs that no pooled transaction references yet, in UTXO order. */
  function Available(utxos: seq<UnspentTxOut>, sender: string, pool: seq<Transaction>): (r: seq<UnspentTxOut>)
    ensures forall u :: u in r ==> u in utxos && u.address == sender && !Spends(AllTxIns(pool), UtxoKey(u))
  {
    if |utxos| == 0 then []
    else
      var u := utxos[|utxos| - 1];
      var r := Available(utxos[..|utxos| - 1], sender, pool)
               + (if u.address == sender && !Spends(AllTxIns(pool), UtxoKey(u)) then [u] else []);
      assert forall v :: v in utxos[..|utxos| - 1] ==> v in utxos;
      r
  }

  /** `Available` is an order-keeping filter: it drops exactly the outputs
      that are not the sender's or that a pooled input spends. */
  lemma {:induction false} AvailableKeepsOrder(utxos: seq<UnspentTxOut>, sender: string, pool: seq<Transaction>)
    ensures IsFilterOf(Available(utxos, sender, pool), utxos, SpendableBy(sender, pool))
    decreases |utxos|
  {
    if |utxos| == 0 {
      EmptyIsFilterOfEmpty(SpendableBy(sender, pool));
    } else {
      var front, u := utxos[..|utxos| - 1], utxos[|utxos| - 1];
      AvailableKeepsOrder(front, sender, pool);
      FilterSnoc(Available(front, sender, pool), front, SpendableBy(sender, pool), u);
      assert front + [u] == utxos;
    }
  }

  /** What `Available` keeps: the sender's outputs no pooled input spends. */
  function SpendableBy(sender: string, pool: seq<Transaction>): UnspentTxOut -> bool
  {
    (u: UnspentTxOut) => u.address == sender && !Spends(AllTxIns(pool), UtxoKey(u))
  }

  /** The length of the shortest prefix of `avail` whose total reaches
      `amount`, or `|avail|` when no prefix does. */
  function ShortestFundingPrefix(avail: seq<UnspentTxOut>, amount: int): (k: nat)
    ensures k <= |avail|
    ensures forall j :: 0 <= j < k ==> UtxoTotal(avail[..j]) < amount
    ensures k == |avail| || UtxoTotal(avail[..k]) >= amount
  {
    if |avail| == 0 then 0
    else
      var front := avail[..|avail| - 1];
      var k := ShortestFundingPrefix(front, amount);
      assert forall j :: 0 <= j <= |front| ==> front[..j] == avail[..j];
      if k < |front| then k
      else if UtxoTotal(front) >= amount then |front|
      else |avail|
  }

  /** Outputs of a transfer: the amount to the receiver, then any change back to the sender. */
  function TransferOutputs(sender: string, receiver: string, amount: int, funded: int): (outs: seq<TxOut>)
    ensures |outs| > 0 && outs[0] == TxOut(receiver, amount)
    ensures OutTotal(outs) == funded
    ensures |outs| == (if funded == amount then 1 else 2)
    ensures |outs| == 2 ==> outs[1] == TxOut(sender, funded - amount)
  {
    var leftOver := funded - amount;
    if leftOver == 0 then [TxOut(receiver, amount)]
    else
      var outs := [TxOut(receiver, amount), TxOut(sender, leftOver)];
      assert outs[..1] == [TxOut(receiver, amount)] && outs[..1][..0] == [];
      assert OutTotal(outs[..1]) == amount;
      outs
  }

  /** Fresh, unsigned inputs for the selected outputs. */
  function UnsignedTxIns(selected: seq<UnspentTxOut>): seq<TxIn>
  {
    seq(|selected|, j requires 0 <= j < |selected| => TxIn(selected[j].txId, selected[j].txOutIndex, Some("")))
  }

  /** Each input with its signature recomputed. */
  function SignedTxIns(c: Crypto, txId: string, key: KeyContainer, utxos: seq<UnspentTxOut>, ins: seq<TxIn>): seq<TxIn>
  {
    seq(|ins|, j requires 0 <= j < |ins| => ins[j].(signature := ComputeSignature(c, ins[j], txId, key, utxos)))
  }

  /** The transaction that spends `selected`: id computed over the unsigned
      inputs, then every input signed against the full UTXO sequence. */
  function Transfer(c: Crypto, sender: string, receiver: string, key: KeyContainer, amount: int,
                    selected: seq<UnspentTxOut>, utxos: seq<UnspentTxOut>): Transaction
  {
    var unsigned := ComputeAndSetId(c, Transaction("", UnsignedTxIns(selected),
                                                   TransferOutputs(sender, receiver, amount, UtxoTotal(selected))));
    unsigned.(txIns := SignedTxIns(c, unsigned.id, key, utxos, unsigned.txIns))
  }

  /** What CreateTransaction returns: null when the available outputs cannot
      fund `amount`, otherwise the transfer spending the shortest funding prefix. */
  function CreatedTransaction(c: Crypto, sender: string, receiver: string, key: KeyContainer, amount: int,
                              utxos: seq<UnspentTxOut>, pool: seq<Transaction>): Option<Transaction>
  {
    var avail := Available(utxos, sender, pool);
    var k := ShortestFundingPrefix(avail, amount);
    if UtxoTotal(avail[..k]) < amount then None
    else Some(Transfer(c, sender, receiver, key, amount, avail[..k], utxos))
  }

  /** Overwrite the signature of every input, in place. */
  method SignTxIns(c: Crypto, txId: string, key: KeyContainer, utxos: seq<UnspentTxOut>, txIns: array<TxIn>)
    modifies txIns
    ensures txIns[..] == SignedTxIns(c, txId, key, utxos, old(txIns[..]))
  {
    for i := 0 to txIns.Length
      invariant forall j :: 0 <= j < i ==>
                  txIns[j] == old(txIns[j]).(signature := ComputeSignature(c, old(txIns[j]), txId, key, utxos))
      invariant forall j :: i <= j < txIns.Length ==> txIns[j] == old(txIns[j])
    {
      txIns[i] := txIns[i].(signature := ComputeSignature(c, txIns[i], txId, key, utxos));
    }
  }

  /** Take outputs in order until their total reaches `amount` or none are left. */
  method SelectFunding(mine: seq<UnspentTxOut>, amount: int) returns (toUse: seq<UnspentTxOut>, currentAmount: int)
    ensures toUse == mine[..ShortestFundingPrefix(mine, amount)]
    ensures currentAmount == UtxoTotal(toUse)
  {
    toUse := [];
    currentAmount := 0;
    var i := 0;
    while i < |mine| && currentAmount < amount
      invariant 0 <= i <= |mine|
      invariant toUse == mine[..i]
      invariant currentAmount == UtxoTotal(toUse)
      invariant forall j :: 0 <= j < i ==> UtxoTotal(mine[..j]) < amount
    {
      assert mine[..i + 1][..i] == mine[..i];
      toUse := toUse + [mine[i]];
      currentAmount := currentAmount + mine[i].amount;
      i := i + 1;
    }
  }

  /** Greedy coin selection over the sender's free outputs, with change. */
  method CreateTransaction(c: Crypto, senderAddress: string, receiverAddress: string, key: KeyContainer,
                           amount: int, unspentTxOuts: seq<UnspentTxOut>, pool: seq<Transaction>)
    returns (r: Option<Transaction>)
    ensures r == CreatedTransaction(c, senderAddress, receiverAddress, key, amount, unspentTxOuts, pool)
  {
    var mine := Available(unspentTxOuts, senderAddress, pool);
    var toUse, currentAmount := SelectFunding(mine, amount);
    if currentAmount < amount {
      return None;
    }
    var leftOver := currentAmount - amount;
    var txIns := new TxIn[|toUse|](j requires 0 <= j < |toUse| => TxIn(toUse[j].txId, toUse[j].txOutIndex, Some("")));
    var txOuts := if leftOver == 0 then [TxOut(receiverAddress, amount)]
                  else [TxOut(receiverAddress, amount), TxOut(senderAddress, leftOver)];
    assert txIns[..] == UnsignedTxIns(toUse);
    var transaction := ComputeAndSetId(c, Transaction("", txIns[..], txOuts));
    SignTxIns(c, transaction.id, key, unspentTxOuts, txIns);
    r := Some(transaction.(txIns := txIns[..]));
  }

  // ---------------------------------------------------------------------------
  // Properties of transfers

  /** Every input of a created transfer references one of the sender's
      outputs that no pooled transaction references. */
  lemma CreatedTransactionSpendsFreeOwnOutputs(c: Crypto, sender: string, receiver: string, key: KeyContainer,
                                                amount: int, utxos: seq<UnspentTxOut>, pool: seq<Transaction>)
    requires CreatedTransaction(c, sender, receiver, key, amount, utxos, pool).Some?
    ensures var tx := CreatedTransaction(c, sender, receiver, key, amount, utxos, pool).value;
            forall j :: 0 <= j < |tx.txIns| ==>
              exists u :: u in utxos && UtxoKey(u) == InKey(tx.txIns[j]) && u.address == sender
                          && !Spends(AllTxIns(pool), UtxoKey(u))
  {
    var avail := Available(utxos, sender, pool);
    var k := ShortestFundingPrefix(avail, amount);
    var tx := CreatedTransaction(c, sender, receiver, key, amount, utxos, pool).value;
    forall j | 0 <= j < |tx.txIns|
      ensures exists u :: u in utxos && UtxoKey(u) == InKey(tx.txIns[j]) && u.address == sender
                          && !Spends(AllTxIns(pool), UtxoKey(u))
    {
      assert avail[j] in avail;
      assert UtxoKey(avail[j]) == InKey(tx.txIns[j]);
    }
  }

  /** A created transfer pays out exactly what its inputs fund, and pays
      `amount` to the receiver first. */
  lemma CreatedTransactionBalances(c: Crypto, sender: string, receiver: string, key: KeyContainer,
                                   amount: int, utxos: seq<UnspentTxOut>, pool: seq<Transaction>)
    requires CreatedTransaction(c, sender, receiver, key, amount, utxos, pool).Some?
    ensures var tx := CreatedTransaction(c, sender, receiver, key, amount, utxos, pool).value;
            var avail := Available(utxos, sender, pool);
            var k := ShortestFundingPrefix(avail, amount);
            && tx.txOuts[0] == TxOut(receiver, amount)
            && OutTotal(tx.txOuts) == UtxoTotal(avail[..k]) >= amount
            && |tx.txOuts| == (if UtxoTotal(avail[..k]) == amount then 1 else 2)
            && (|tx.txOuts| == 2 ==> tx.txOuts[1] == TxOut(sender, UtxoTotal(avail[..k]) - amount))
            && |tx.txIns| == k
            && forall j :: 0 <= j < k ==> InKey(tx.txIns[j]) == UtxoKey(avail[j])
  {
  }

  /** With non-negative output amounts, creation fails exactly when the
      sender's free outputs together fall short of `amount`. */
  lemma CreatedTransactionFailsIffUnfunded(c: Crypto, sender: string, receiver: string, key: KeyContainer,
                                           amount: int, utxos: seq<UnspentTxOut>, pool: seq<Transaction>)
    requires forall u :: u in utxos ==> u.amount >= 0
    ensures CreatedTransaction(c, sender, receiver, key, amount, utxos, pool).None?
            <==> UtxoTotal(Available(utxos, sender, pool)) < amount
  {
    var avail := Available(utxos, sender, pool);
    var k := ShortestFundingPrefix(avail, amount);
    assert avail[..|avail|] == avail;
    PrefixTotalGrows(avail, k);
  }

  /** With non-negative amounts, a longer prefix never totals less. */
  lemma {:induction false} PrefixTotalGrows(us: seq<UnspentTxOut>, k: nat)
    requires k <= |us|
    requires forall u :: u in us ==> u.amount >= 0
    ensures UtxoTotal(us[..k]) <= UtxoTotal(us)
    decreases |us|
  {
    if k < |us| {
      assert us[..|us| - 1][..k] == us[..k];
      assert us[|us| - 1] in us;
      PrefixTotalGrows(us[..|us| - 1], k);
    } else {
      assert us[..k] == us;
    }
  }

  /** A transfer of outputs owned by the key's address, each found by its own
      name, passes validation. */
  lemma {:induction false} TransferIsValid(c: Crypto, sender: string, receiver: string, key: KeyContainer,
                                           amount: int, selected: seq<UnspentTxOut>, utxos: seq<UnspentTxOut>)
    requires SignaturesSound(c)
    requires c.publicKey(key) == sender
    requires forall j :: 0 <= j < |selected| ==>
               selected[j].address == sender && FindUnspentTxOut(utxos, UtxoKey(selected[j])) == Some(selected[j])
    ensures IsValid(c, Transfer(c, sender, receiver, key, amount, selected, utxos), utxos)
  {
    var unsigned := ComputeAndSetId(c, Transaction("", UnsignedTxIns(selected),
                                                   TransferOutputs(sender, receiver, amount, UtxoTotal(selected))));
    var tx := Transfer(c, sender, receiver, key, amount, selected, utxos);
    ComputeIdIgnoresSignatures(c, unsigned, tx.txIns, tx.id);
    assert tx == unsigned.(txIns := tx.txIns, id := tx.id);
    forall j | 0 <= j < |tx.txIns|
      ensures TxInIsValid(c, tx.txIns[j], tx.id, utxos)
      ensures FindUnspentTxOut(utxos, InKey(tx.txIns[j])) == Some(selected[j])
    {
      ComputedSignatureVerifies(c, unsigned.txIns[j], tx.id, key, utxos);
    }
    InTotalOfResolved(tx.txIns, selected, utxos);
  }

  /** Against a UTXO sequence with unique names, a transfer created with the
      sender's own key is valid. */
  lemma CreatedTransactionIsValid(c: Crypto, sender: string, receiver: string, key: KeyContainer,
                                  amount: int, utxos: seq<UnspentTxOut>, pool: seq<Transaction>)
    requires SignaturesSound(c)
    requires c.publicKey(key) == sender
    requires UniqueKeys(utxos)
    requires CreatedTransaction(c, sender, receiver, key, amount, utxos, pool).Some?
    ensures IsValid(c, CreatedTransaction(c, sender, receiver, key, amount, utxos, pool).value, utxos)
  {
    var avail := Available(utxos, sender, pool);
    var k := ShortestFundingPrefix(avail, amount);
    var selected := avail[..k];
    forall j | 0 <= j < |selected|
      ensures selected[j].address == sender && FindUnspentTxOut(utxos, UtxoKey(selected[j])) == Some(selected[j])
    {
      assert selected[j] in avail;
      var i :| 0 <= i < |utxos| && utxos[i] == selected[j];
      FindMember(utxos, i);
    }
    TransferIsValid(c, sender, receiver, key, amount, selected, utxos);
  }

  /** Sending a negative amount with no outputs at all yields a valid
      transaction that pays the sender the negated amount as change. */
  lemma NegativeTransferMintsChange(c: Crypto, sender: string, receiver: string, key: KeyContainer,
                                    amount: int, utxos: seq<UnspentTxOut>, pool: seq<Transaction>)
    requires amount < 0
    ensures var r := CreatedTransaction(c, sender, receiver, key, amount, utxos, pool);
            && r.Some? && r.value.txIns == []
            && r.value.txOuts == [TxOut(receiver, amount), TxOut(sender, -amount)]
            && IsValid(c, r.value, utxos)
  {
    var avail := Available(utxos, sender, pool);
    var k := ShortestFundingPrefix(avail, amount);
    assert avail[..0] == [];
    assert k == 0;
  }

  /** A transfer the owner of the spent outputs creates never makes the
      validity check throw. */
  lemma CreatedTransactionNeverThrows(c: Crypto, sender: string, receiver: string, key: KeyContainer,
                                      amount: int, utxos: seq<UnspentTxOut>, pool: seq<Transaction>)
    requires SignaturesSound(c)
    requires c.publicKey(key) == sender
    requires UniqueKeys(utxos)
    requires CreatedTransaction(c, sender, receiver, key, amount, utxos, pool).Some?
    ensures !IsValidThrows(c, CreatedTransaction(c, sender, receiver, key, amount, utxos, pool).value, utxos)
  {
    var tx := CreatedTransaction(c, sender, receiver, key, amount, utxos, pool).value;
    CreatedTransactionIsValid(c, sender, receiver, key, amount, utxos, pool);
    if IsValidThrows(c, tx, utxos) {
      ThrowingTransactionIsInvalid(c, tx, utxos);
    }
  }
}
