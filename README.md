# NaiveCoin node model

A Dafny model of the core of Unity3D-NaiveCoin. That project is a small proof-of-work
cryptocurrency. Its coins live in unspent transaction outputs (UTXOs). A transaction
spends some of them and creates new ones. Every node keeps three things: a chain of
blocks, the set of UTXOs that the chain produces, and a pool of transactions not yet
mined. Nodes exchange their latest block, their whole chain and their pool as
messages. A node adopts the chain with the greatest accumulated difficulty, which is
the sum of 2^difficulty over its blocks.

The modules follow the source files:

| module | file | source |
|---|---|---|
| `Cryptography` | `cryptography.dfy` | `Cryptography.cs`: hashing, signatures and the difficulty test |
| `Transactions` | `transaction.dfy` | `Transaction.cs`: UTXOs, inputs, outputs, ids, signing, validation, building a transfer |
| `Pool` | `transaction_pool.dfy` | `TransactionPool.cs`: admission and pruning, as a class over a `seq` |
| `Blocks` | `block.dfy` | `Block.cs`: hashes, block validity, duplicate-input detection, the UTXO update |
| `Chain` | `blockchain.dfy` | `Blockchain.cs`: accumulated difficulty, retargeting, chain replay, adding blocks, chain replacement, pool entry, as a class |
| `Network` | `node.dfy` | `Node.cs`: start-up, the message dispatcher, broadcasts |

Values the source never mutates are datatypes: a transaction, a UTXO and a block
received or produced. The objects whose fields the source updates are classes:
`TransactionPool`, `Blockchain` and `Node`.

Every state-changing method is proved equal to a pure function of the old state:
- `TransactionPool.Add` is specified by `Admissible`.
- `TransactionPool.Update` is specified by `Prune`.
- `Blockchain.AddBlock` is specified by `AddBlockSpec`.
- `Blockchain.ReplaceChain` is specified by `ReplaceChainSpec`.
- `Blockchain.ValidateChain` is specified by `Replay`.
- `Node.PeerMessage` is specified by `Handle`.
- `Node`'s handling of a received pool is specified by `OfferAll`.

The lemmas state what the system promises about those functions:
- The chain invariant holds after every operation. It says: the chain replays to the
  stored UTXOs at some clock, the pool has no conflicts, and every pooled input is
  unspent.
- A block adds exactly the coinbase amount to the value held in UTXOs.
- A created transaction is valid and balanced.
- A chain is replaced only by a valid and strictly heavier chain, or by a lone genesis
  block.
- Each message kind has its own effect, proved separately.

Hashing, signing, public-key derivation and signature checking are uninterpreted
functions. They are collected in a `Crypto` value that every operation takes as a
parameter. The current time is an integer number of seconds, passed as `now`.

The model follows the code where it differs from what its comments suggest:
- `Block.IsValidNewBlock` never checks proof of work. `Cryptography.HashMatchesDifficulty`
  exists but nothing calls it. So a block with any nonce is accepted when its stored
  hash matches its content.
- `Blockchain.ReplaceChain` accepts a lone valid genesis block whatever the current
  chain's difficulty. `LoneGenesisReplacesAnyChain` proves this.
- `Transaction.IsValid` does not reject an input repeated inside one transaction. Only
  the block-level check does.
- A negative amount passes `Transaction.CreateTransaction`. The change output then
  pays the sender more than the inputs hold. `NegativeTransferMintsChange` proves this.
- `Blockchain.cs` calls `Block.InitAsGenesis`, `Block.IsValidGenesis`, `Block.Init` and
  `Block.MineBlock`, and `Block.cs` does not define them. The first two are modelled by
  `CreateGenesisBlock` and `IsValidFirstBlock`, which `Block.cs` does define.
  `Block.Init` is modelled as a fresh block with nonce 0 and no hash (`Chain.NextBlock`).
  `Block.MineBlock` is modelled as any nonce together with the hash it gives
  (`Chain.Seal`).
- `TxIn.IsValid` passes a null signature to the signature check, which throws.
  Pool admission calls it, and nothing in the source catches the exception.
  The model names that case `IsValidThrows`. `TransactionPool.Add` and
  `Blockchain.AddToPool` report it, and a received pool stops at the first offer
  that throws, so the later transactions are never offered (`ThrowingOfferEndsTheList`).
  `CreatedTransactionNeverThrows` shows that a node's own transfers never reach it.
- `Node.Start` calls `Blockchain.Init` with two arguments; its declaration takes three
  (the third is a display colour). The model takes the address and the difficulty.

## Model

| member | source | states |
|---|---|---|
| Cryptography.CalculateHash | Assets/Scripts/Cryptography.cs:9-19 | a null input hashes to null, any other input hashes to a string |
| Cryptography.HashMatchesDifficulty | Assets/Scripts/Cryptography.cs:22-25 | true exactly when the first `difficulty` characters of the hash are all '0' |
| Cryptography.ZeroDifficultyAlwaysMatches | Assets/Scripts/Cryptography.cs:22-25 | every hash meets difficulty 0 |
| Cryptography.DifficultyIsDownwardClosed | Assets/Scripts/Cryptography.cs:22-25 | a hash that meets a difficulty meets every lower one |
| Transactions.FindUnspentTxOut | Assets/Scripts/Transaction.cs:53-56 | no result exactly when no UTXO has the input's (txId, index); otherwise a UTXO in the list with that key |
| Transactions.FindMember | Assets/Scripts/Transaction.cs:53-56 | when keys are unique, looking up a UTXO's own key finds that UTXO |
| Transactions.ComputeSignature | Assets/Scripts/Transaction.cs:86-105 | signing yields null exactly when the referenced output is missing or the key's public key is not its address |
| Transactions.ComputedSignatureVerifies | Assets/Scripts/Transaction.cs:67-105 | an input signed by its own signature computation passes `TxIn.IsValid`, given sound signatures |
| Transactions.RefsContentIgnoresSignatures | Assets/Scripts/Transaction.cs:271-278 | the id content depends on the inputs' references only |
| Transactions.ComputeIdIgnoresSignatures | Assets/Scripts/Transaction.cs:271-278 | signing the inputs or overwriting the id does not change the computed id |
| Transactions.ComputeAndSetId | Assets/Scripts/Transaction.cs:266-269 | the stored id equals the id computed from the transaction; inputs and outputs are kept |
| Transactions.CreateCoinbaseTransaction | Assets/Scripts/Transaction.cs:125-135 | one empty-reference input at the block index, one output of 50 to the address; it passes the coinbase check |
| Transactions.InputlessBalancedTransactionIsValid | Assets/Scripts/Transaction.cs:204-229 | a transaction with a correct id, no inputs and outputs summing to 0 passes `IsValid` |
| Transactions.GetAmount | Assets/Scripts/Transaction.cs:58-65 | the amount of a UTXO in the list that the input references |
| Transactions.ValidMeansSignedByOwners | Assets/Scripts/Transaction.cs:204-229 | a valid transaction has its computed id, balanced totals and every input signed over the id for the address of a listed output, and checking it never throws; with unique keys these conditions are also sufficient |
| Transactions.ThrowingTransactionIsInvalid | Assets/Scripts/Transaction.cs:67-79 | a check that reaches a null signature never finds the transaction valid |
| Transactions.ValidCoinbaseMintsReward | Assets/Scripts/Transaction.cs:231-264 | a transaction passing the coinbase check mints exactly 50, from one input naming the block height |
| Transactions.SpendsAllTxIns | Assets/Scripts/TransactionPool.cs:52 | an output is spent by the pool's combined inputs iff some pooled transaction spends it |
| Transactions.Available | Assets/Scripts/Transaction.cs:139-143 | the candidate outputs are the sender's UTXOs not spent by any pooled transaction |
| Transactions.AvailableKeepsOrder | Assets/Scripts/Transaction.cs:139-143 | the candidates are the UTXO list with exactly the other owners' and the pool-spent outputs dropped, in their original order |
| Transactions.ShortestFundingPrefix | Assets/Scripts/Transaction.cs:146-152 | outputs are taken in order until their total reaches the amount: every shorter prefix is short of it |
| Transactions.TransferOutputs | Assets/Scripts/Transaction.cs:160-169 | the receiver's output comes first; one output when the funds match the amount exactly, else a second one returning the change to the sender; together they carry exactly the funded total |
| Transactions.SignTxIns | Assets/Scripts/Transaction.cs:280-283 | each input of the array is signed in place, and nothing else in it changes |
| Transactions.SelectFunding | Assets/Scripts/Transaction.cs:145-152 | the loop returns the shortest funding prefix of the candidates and its total |
| Transactions.CreateTransaction | Assets/Scripts/Transaction.cs:137-178 | the transaction built equals the transfer specified by `CreatedTransaction` |
| Transactions.CreatedTransactionSpendsFreeOwnOutputs | Assets/Scripts/Transaction.cs:139-152 | each input spends a UTXO owned by the sender and spent by no pooled transaction |
| Transactions.CreatedTransactionBalances | Assets/Scripts/Transaction.cs:160-169 | the outputs carry exactly what the inputs spend; the first pays the receiver the amount, and a second, present exactly when there is change, returns it to the sender |
| Transactions.CreatedTransactionFailsIffUnfunded | Assets/Scripts/Transaction.cs:154-158 | with non-negative UTXOs, creation fails exactly when all the sender's free outputs total less than the amount |
| Transactions.PrefixTotalGrows | Assets/Scripts/Transaction.cs:148-152 | with non-negative amounts, a prefix never holds more than the whole list |
| Transactions.TransferIsValid | Assets/Scripts/Transaction.cs:171-177 | a transfer signed by the owner of the outputs it spends passes `Transaction.IsValid` |
| Transactions.CreatedTransactionIsValid | Assets/Scripts/Transaction.cs:137-178 | a created transaction passes `Transaction.IsValid` against the UTXOs it was built from |
| Transactions.CreatedTransactionNeverThrows | Assets/Scripts/Transaction.cs:137-178 | checking a transaction the owner created never throws |
| Transactions.NegativeTransferMintsChange | Assets/Scripts/Transaction.cs:146-169 | a negative amount yields a valid transaction with no inputs that pays the sender the negated amount |
| Pool.CompatibleSymmetric | Assets/Scripts/TransactionPool.cs:50-64 | two transactions that share no spent output do so in either order |
| Pool.NoConflictsMeansSingleSpender | Assets/Scripts/TransactionPool.cs:13-37 | in a conflict-free pool every output is spent by at most one pooled transaction |
| Pool.AddPreservesNoConflicts | Assets/Scripts/TransactionPool.cs:13-37 | adding an admissible transaction keeps the pool conflict-free |
| Pool.Prune | Assets/Scripts/TransactionPool.cs:39-48 | a pooled transaction is kept exactly when all its inputs are still unspent; the pool never grows |
| Pool.PruneKeepsOrder | Assets/Scripts/TransactionPool.cs:39-48 | the pruned pool is the old pool with exactly the unfunded transactions dropped, in admission order |
| Pool.PruneIdempotent | Assets/Scripts/TransactionPool.cs:39-48 | pruning twice against the same UTXOs is pruning once |
| Pool.PruneKeepsAllLive | Assets/Scripts/TransactionPool.cs:39-48 | a pool whose inputs are all unspent is left as it is |
| Pool.PrunePreservesNoConflicts | Assets/Scripts/TransactionPool.cs:39-48 | pruning keeps the pool conflict-free |
| Pool.TransactionPool.constructor | Assets/Scripts/TransactionPool.cs:6 | a new pool is empty and conflict-free |
| Pool.TransactionPool.GetTransactions | Assets/Scripts/TransactionPool.cs:8-11 | returns the pooled transactions in admission order |
| Pool.TransactionPool.Add | Assets/Scripts/TransactionPool.cs:13-37 | admitted exactly when the id is new, the transaction is valid and none of its inputs is already pooled; then it is appended, otherwise the pool is unchanged; it reports a throw exactly when the id is new and the validity check reaches a null signature; the pool stays conflict-free |
| Pool.TransactionPool.Update | Assets/Scripts/TransactionPool.cs:39-48 | the pool becomes its pruned self and stays conflict-free |
| Pool.TransactionPool.TxInAvailable | Assets/Scripts/TransactionPool.cs:50-64 | true exactly when no input of the transaction is spent by a pooled transaction |
| Blocks.SetHash | Assets/Scripts/Block.cs:52-55 | only the stored hash changes |
| Blocks.IncrementNonce | Assets/Scripts/Block.cs:57-60 | only the nonce changes, by one |
| Blocks.ComputeHashIgnoresStoredHash | Assets/Scripts/Block.cs:47-50 | the computed hash does not depend on the stored hash |
| Blocks.SetComputedHashIsValid | Assets/Scripts/Block.cs:47-78 | storing the computed hash makes the block's hash valid |
| Blocks.CreateGenesisBlock | Assets/Scripts/Block.cs:16-24 | index 0, no previous hash, one coinbase paying the node, nonce 0, the given difficulty; it passes the first-block check |
| Blocks.ResealKeepsSuccessor | Assets/Scripts/Block.cs:57-96 | after changing the nonce and storing the recomputed hash, a valid successor is still valid |
| Blocks.TimestampValidLater | Assets/Scripts/Block.cs:98-101 | a timestamp accepted now is accepted at any later time |
| Blocks.CountRefZero | Assets/Scripts/Block.cs:111-117 | an output is referenced zero times exactly when no input spends it |
| Blocks.DistinctCountsAtMostOne | Assets/Scripts/Block.cs:111-117 | when all references differ, each output is referenced at most once |
| Blocks.RepeatCountsTwo | Assets/Scripts/Block.cs:111-117 | two inputs with the same reference make that reference count at least two |
| Blocks.NoDuplicateIffDistinct | Assets/Scripts/Block.cs:111-117 | the grouping check finds no duplicate exactly when all input references differ |
| Blocks.TxUnspentOuts | Assets/Scripts/Block.cs:140-143 | the k-th output of a transaction becomes the UTXO (id, k, address, amount) |
| Blocks.NewUnspentTxOutsOfOne | Assets/Scripts/Block.cs:140-143 | one transaction's new UTXOs are its outputs under its id, at their own indices |
| Blocks.NewUnspentTxOutsAppend | Assets/Scripts/Block.cs:140-143 | new UTXOs are listed transaction by transaction, in block order |
| Blocks.UnreferencedMembers | Assets/Scripts/Block.cs:145-147 | a UTXO survives exactly when no input of the block spends it |
| Blocks.UnreferencedKeepsOrder | Assets/Scripts/Block.cs:145-147 | removal drops exactly the referenced UTXOs and keeps the others in order |
| Blocks.UpdateUnspentTxOuts | Assets/Scripts/Block.cs:138-151 | an old UTXO is kept exactly when no input of the block spends it; new outputs are added |
| Blocks.UpdateUnspentTxOutsKeepsOrder | Assets/Scripts/Block.cs:138-151 | the new list is the old one with exactly the spent UTXOs dropped, in order, followed by the block's new outputs |
| Blocks.ValidTransactionsSpendEachOutputOnce | Assets/Scripts/Block.cs:103-125 | a block whose transactions pass opens with a coinbase minting 50, spends no output twice, and none of its other transactions' checks throws |
| Blocks.ProcessTransactions | Assets/Scripts/Block.cs:127-136 | rejects exactly the blocks whose transactions are invalid; every resulting UTXO is an old unspent one or an output of the block |
| Blocks.GenesisFundsItsAddress | Assets/Scripts/Block.cs:16-24 | processing a genesis block on no UTXOs yields exactly one UTXO of 50 for the node's address |
| Blocks.ValidTxsSpendTheirOutputs | Assets/Scripts/Transaction.cs:204-229 | for valid transactions, the value their inputs spend equals the value their outputs create |
| Blocks.UnreferencedTotal | Assets/Scripts/Block.cs:145-148 | with unique keys and distinct references, removal lowers the total by exactly the value spent |
| Blocks.ProcessTransactionsConservesValue | Assets/Scripts/Block.cs:103-151 | with unique UTXO keys, an accepted block raises the value held in UTXOs by exactly the coinbase amount |
| Chain.BlockWork | Assets/Scripts/Blockchain.cs:31-34 | a block contributes 2^difficulty, also for a negative difficulty, and always a positive amount |
| Chain.TotalWork | Assets/Scripts/Blockchain.cs:31-34 | the summed work of a chain is never negative |
| Chain.AccumulatedDifficultyIsIntegerSum | Assets/Scripts/Blockchain.cs:31-34 | with non-negative difficulties, the accumulated difficulty is the integer sum of 2^difficulty |
| Chain.AppendRaisesAccumulatedDifficulty | Assets/Scripts/Blockchain.cs:31-34 | appending a block never lowers the accumulated difficulty, and raises it when the difficulty is non-negative |
| Chain.DifficultyCarriesOverBetweenBoundaries | Assets/Scripts/Blockchain.cs:274-287 | off an adjustment boundary the last difficulty is kept |
| Chain.RetargetOnBoundary | Assets/Scripts/Blockchain.cs:274-287 | on a boundary: one more than the block 10 back when the window took under 50 s, one less when it took over 200 s, otherwise the last difficulty |
| Chain.ReplayedChainIsLinked | Assets/Scripts/Blockchain.cs:230-259 | a chain that validates starts with a valid first block, each block is a valid successor of the one before, and block i has index i |
| Chain.ReplayLaterClock | Assets/Scripts/Blockchain.cs:230-259 | a chain valid now stays valid, with the same UTXOs, at any later time |
| Chain.ReplayedChainHasRetargetWindow | Assets/Scripts/Blockchain.cs:274-287 | a valid chain whose last block is on a boundary holds at least 10 blocks, so retargeting never reads before the chain |
| Chain.ReplayPrefixStep | Assets/Scripts/Blockchain.cs:238-256 | validating one more block extends the prefix's result by that block's checks |
| Chain.NoReplayPastFailure | Assets/Scripts/Blockchain.cs:238-256 | once a prefix fails to validate, the whole chain fails |
| Chain.InitialState | Assets/Scripts/Blockchain.cs:42-56 | one valid genesis block whose coinbase funds the node's address, and an empty pool |
| Chain.InitialStateSatisfiesInvariant | Assets/Scripts/Blockchain.cs:42-56 | the initial state satisfies the chain invariant |
| Chain.NextBlockData | Assets/Scripts/Blockchain.cs:130-138 | a valid coinbase paying the miner 50, followed by the pool in order |
| Chain.NextBlock | Assets/Scripts/Blockchain.cs:140-160 | the candidate block follows the last block in index and previous hash, carries the data and the current time, and has the retargeted difficulty |
| Chain.Seal | Assets/Scripts/Blockchain.cs:140-160 | a sealed block carries the chosen nonce and a valid hash, and nothing else changes |
| Chain.PrunedPoolKeepsInvariant | Assets/Scripts/Blockchain.cs:195 | after pruning, the pool is conflict-free and every pooled input is unspent |
| Chain.AddBlockPreservesInvariant | Assets/Scripts/Blockchain.cs:173-196 | adding a block keeps the chain invariant |
| Chain.AddBlockAppendsValidSuccessor | Assets/Scripts/Blockchain.cs:173-196 | any change made by adding a block is: a valid successor is appended and the UTXOs become that block's processed result |
| Chain.AddBlockTwiceIsOnce | Assets/Scripts/Blockchain.cs:173-196 | offering the same block twice changes the state no more than once |
| Chain.AddBlockRaisesAccumulatedDifficulty | Assets/Scripts/Blockchain.cs:173-196 | an accepted block with non-negative difficulty raises the accumulated difficulty |
| Chain.ReplaceChainPreservesInvariant | Assets/Scripts/Blockchain.cs:204-228 | replacing the chain keeps the chain invariant |
| Chain.ReplaceChainOnlyByHeavierOrGenesis | Assets/Scripts/Blockchain.cs:204-228 | a replacement happens only with a valid chain that is strictly heavier or a lone genesis block; the UTXOs become its replayed UTXOs |
| Chain.ReplaceChainKeepsOnTie | Assets/Scripts/Blockchain.cs:214 | a chain of equal accumulated difficulty with more than one block is refused |
| Chain.LoneGenesisReplacesAnyChain | Assets/Scripts/Blockchain.cs:214 | a valid lone genesis block replaces any chain |
| Chain.AddToPoolPreservesInvariant | Assets/Scripts/Blockchain.cs:125-128 | pool entry keeps the chain invariant |
| Chain.OfferAllPreservesInvariant | Assets/Scripts/Node.cs:192-195 | offering a list of transactions keeps the invariant and touches neither blocks nor UTXOs |
| Chain.AddToPoolAppendsOnly | Assets/Scripts/Blockchain.cs:125-128 | one offer leaves the pool unchanged or appends the offered transaction |
| Chain.OfferAllOnlyAppends | Assets/Scripts/Node.cs:192-195 | offering a list keeps every pooled transaction in place and adds only offered ones |
| Chain.ThrowingOfferEndsTheList | Assets/Scripts/Node.cs:192-195 | after an offer that throws, none of the remaining transactions is offered |
| Chain.BalanceIsAvailableWithEmptyPool | Assets/Scripts/Blockchain.cs:107-110 | with an empty pool, a sender's spendable outputs total exactly the balance |
| Chain.SendFailsIffBalanceShort | Assets/Scripts/Blockchain.cs:117-123 | with an empty pool and non-negative UTXOs, sending fails exactly when the balance is below the amount |
| Chain.SendTransactionIsAdmitted | Assets/Scripts/Blockchain.cs:117-123 | a transaction the owner creates is admitted to the pool when its id is not yet pooled |
| Chain.MinedBlockFollowsChain | Assets/Scripts/Blockchain.cs:130-196 | a block built from the chain and sealed with any nonce is a valid successor of the last block |
| Chain.Blockchain.Init | Assets/Scripts/Blockchain.cs:42-56 | the chain starts in the initial state and satisfies the invariant |
| Chain.Blockchain.LastBlock | Assets/Scripts/Blockchain.cs:70-73 | returns the last block of the chain |
| Chain.Blockchain.GetPooledTransactions | Assets/Scripts/Blockchain.cs:75-78 | returns the pool's transactions |
| Chain.Blockchain.GetBalanceOf | Assets/Scripts/Blockchain.cs:107-110 | the sum of the amounts of the UTXOs addressed to the key |
| Chain.Blockchain.ValidateChain | Assets/Scripts/Blockchain.cs:230-259 | the loop returns the chain's replayed UTXOs, or null exactly when some check fails |
| Chain.Blockchain.IsValidChain | Assets/Scripts/Blockchain.cs:112-115 | true exactly when the node's own chain replays |
| Chain.Blockchain.AddToPool | Assets/Scripts/Blockchain.cs:125-128 | admitted exactly when admissible against the current UTXOs; a throw is reported exactly when the pool's check throws; only the pool changes; the invariant holds |
| Chain.Blockchain.SendTransaction | Assets/Scripts/Blockchain.cs:117-123 | the state follows the send specification, and success is reported exactly when the state changed |
| Chain.Blockchain.GenerateNextBlock | Assets/Scripts/Blockchain.cs:130-160 | the block to mine is the next candidate built from the current pool |
| Chain.Blockchain.AddBlock | Assets/Scripts/Blockchain.cs:173-196 | the state follows the add-block specification and the invariant holds |
| Chain.Blockchain.ReplaceChain | Assets/Scripts/Blockchain.cs:204-228 | the state follows the replace-chain specification and the invariant holds |
| Network.Register | Assets/Scripts/Node.cs:112-116 | the sender is in the peer list afterwards, and no other peer is added |
| Network.Broadcast | Assets/Scripts/Node.cs:204-243 | one copy of the message per peer, in peer order |
| Network.RemoveFirst | Assets/Scripts/Node.cs:78-79 | one occurrence of the node is removed when present, the list is unchanged otherwise, and every other peer is kept |
| Network.RemoveFirstAtFirstOccurrence | Assets/Scripts/Node.cs:78-79 | the occurrence removed is the first, and the peers before and after it keep their order |
| Network.HandlePreservesInvariant | Assets/Scripts/Node.cs:108-199 | every peer message keeps the chain invariant |
| Network.IgnoredBeforeStart | Assets/Scripts/Node.cs:110 | before start-up a message changes nothing |
| Network.SenderRegisteredOnce | Assets/Scripts/Node.cs:112-116 | the sender is appended once when unknown and never duplicated |
| Network.QueriesOnlyReply | Assets/Scripts/Node.cs:120-137 | each query sends one reply to its sender with the latest block, the chain or the pool, and changes nothing else |
| Network.EmptyBlockResponseIsIgnored | Assets/Scripts/Node.cs:140-146 | a null or empty chain response only registers the sender |
| Network.LinkedBlockIsAppended | Assets/Scripts/Node.cs:150-155 | a block that extends the chain stops mining and goes through block addition |
| Network.UnlinkedBlockQueriesWholeChain | Assets/Scripts/Node.cs:156-161 | a lone non-genesis block that does not extend the chain asks its sender for the whole chain and changes nothing else |
| Network.ChainResponseNeverReplies | Assets/Scripts/Node.cs:168-179 | a longer chain response sends nothing and replaces the chain only by a valid, strictly heavier one |
| Network.PoolResponseOnlyTouchesPool | Assets/Scripts/Node.cs:182-197 | a pool response changes only the pool, and a null one changes nothing |
| Network.Node.constructor | Assets/Scripts/Node.cs:74-76 | the node has a fresh blockchain in its initial state, no peer list and nothing sent |
| Network.Node.Start | Assets/Scripts/Node.cs:72-88 | the peers are the discovered nodes minus itself; the node asks each for its latest block, then each for its pool |
| Network.Node.QueryLatestOfPeers | Assets/Scripts/Node.cs:204-208 | a latest-block query is sent to every peer |
| Network.Node.QueryTransactionPoolOfPeers | Assets/Scripts/Node.cs:213-217 | a pool query is sent to every peer |
| Network.Node.BroadcastLatest | Assets/Scripts/Node.cs:222-234 | the last block is sent to every peer |
| Network.Node.BroadcastTransactionPool | Assets/Scripts/Node.cs:239-243 | the pool is sent to every peer |
| Network.Node.GetNodeBalance | Assets/Scripts/Node.cs:99-102 | the balance of the node's own address |
| Network.Node.SendTransaction | Assets/Scripts/Node.cs:255-259 | the chain state follows the send specification, and the pool is broadcast exactly when the transfer was pooled |
| Network.Node.PeerMessage | Assets/Scripts/Node.cs:108-199 | the node's new state is the message handler applied to the old one, and the invariant holds |
| Network.Node.ReceiveBlocks | Assets/Scripts/Node.cs:140-179 | the state follows the reaction to a received chain |
| Network.Node.ReceivePool | Assets/Scripts/Node.cs:192-195 | the received transactions are offered to the pool in order until one throws; nothing else changes |

## Left out

- Rendering and the user interface are not modelled: `PlaceBlock`, `SetColor`, `Instantiate`/`Destroy`, the node label and `UiControl`.
- The mining coroutine is not modelled. `Node.MineBlock` and the block's own `MineBlock` are not part of this model. A mined block is any nonce together with the hash it gives (`Chain.Seal`), and `MinedBlockFollowsChain` covers it.
- `Blockchain.StopMining` is recorded as a counter of stop events (`miningStops`), because the coroutine it cancels is not modelled.
- SHA-256, RSA key containers and UTF-16 encoding are uninterpreted functions in `Crypto`. Only their interface is modelled. Signature soundness is a hypothesis (`SignaturesSound`) wherever it is needed. It also takes for granted that a signature survives the trip from bytes to a UTF-16 string and back (`Cryptography.cs` lines 41 and 59), which .NET does not guarantee for arbitrary bytes.
- Key generation and the wallet (`Wallet.cs`) are not part of this model. A node takes its key container as a constructor argument.
- `SendMessage` delivers a message synchronously and re-entrantly in Unity. Here a sent message is appended to the sender's outbox, and the environment delivers it later.
- Peers are identified by number. `FindObjectsOfType<Node>` becomes the list passed to `Start`, and the static instance counter becomes the id passed to the constructor.
- Blockchain.Init: the genesis block is created when the node is constructed, not in `Start`. Messages before `Start` are ignored either way, so only the genesis timestamp can differ.
- Chain.BlockWork: `Math.Pow` is modelled in exact real arithmetic, then floored. Double rounding of very large or very small powers is not modelled.
- 32-bit overflow of amounts, indices and the `(int)` cast in the accumulated difficulty is not modelled. Integers are unbounded.
- `DateTime` is an integer number of seconds. The hash content renders it in decimal, not in .NET's date format.
- Clones (`CloneLatestBlock`, `CloneChain`, `Transaction.Clone`) are plain values, since the model has no aliasing of blocks or transactions.
- Blocks.SetHash and Blocks.IncrementNonce return an updated value instead of changing a block object in place.
- Transactions.ComputeAndSetId returns an updated value instead of changing a transaction object in place.
- A list received from a peer never holds null blocks or null transactions. Only a null list is modelled.
- Chain.GetUpdatedDifficulty requires the 10-block window to exist. The source would throw when it does not. `ReplayedChainHasRetargetWindow` shows that a valid chain always has the window.
- Chain.Blockchain.ReplaceChain requires a non-empty chain. The source throws on an empty one in `IsFirstBlockValid`. `Node.PeerMessage` never passes one.
- Logging (`Debug.Log`, the `DebugHack` wrapper) is left out, and so are `ToString` and `PrintBlocks`. The transaction text that feeds the block hash is modelled (`TxText`).
- Blocks.ProcessTransactionsConservesValue assumes unique UTXO keys, and that the coinbase input references no existing output. The source does not check either.
- Chain.SendTransactionIsAdmitted assumes the new transaction's id is not already pooled. Ids are hashes, so the source relies on their being distinct.
- Blocks.AreTransactionsValid: the source throws, instead of answering, on a block with no transactions and on a block transaction whose check reaches a null signature. The model rejects such a block. `AddBlock`, `ReplaceChain`, `ValidateChain` and `IsValidChain` then leave the state as a rejection does, which is the state the exception leaves, since each of them changes nothing before that check and `Node.PeerMessage` does nothing after calling them.
- Chain.Blockchain.SendTransaction: a throw from pool admission is reported as a failed send. The state is unchanged and nothing is broadcast. `CreatedTransactionNeverThrows` shows that a transaction the node builds itself never throws.
- Transactions.GetAmount requires the referenced output to exist, where the source throws. Its callers establish that first.
