/**
 * A peer: it answers queries about its chain and pool, reacts to the blocks
 * and pools other peers send it, and announces its own.
 *
 * Delivering a message to a peer is left to the environment: every message
 * a node sends is appended to its outbox as (recipient, message). Stopping
 * the mining of the current block is recorded as a counter of stop events.
 */
module Network {
  import opened Wrappers
  import opened Cryptography
  import opened Transactions
  import opened Pool
  import opened Blocks
  import opened Chain

  type NodeId = nat

  /** The difficulty a node's own genesis block is created with. */
  const GENESIS_DIFFICULTY: int := 2

  datatype Message =
    | QueryLatest(sender: NodeId)
    | QueryAll(sender: NodeId)
    | ResponseBlockchain(sender: NodeId, blocks: Option<seq<Block>>)
    | QueryTransactionPool(sender: NodeId)
    | ResponseTransactionPool(sender: NodeId, transactions: Option<seq<Transaction>>)

  datatype Outgoing = Outgoing(recipient: NodeId, message: Message)

  /** Everything a message can change: the peer list (null before start-up),
      the messages sent, how often mining was stopped, and the chain state. */
  datatype NodeState = NodeState(peers: Option<seq<NodeId>>, outbox: seq<Outgoing>, miningStops: nat, chain: ChainState)

  /** The peer list with `sender` added at the end unless already present. */
  function Register(peers: seq<NodeId>, sender: NodeId): (r: seq<NodeId>)
    ensures sender in r
    ensures forall p :: p in r <==> p in peers || p == sender
  {
    if sender in peers then peers else peers + [sender]
  }

  predicate NoDuplicates(peers: seq<NodeId>)
  {
    forall i, j :: 0 <= i < j < |peers| ==> peers[i] != peers[j]
  }

  /** The same message to every peer, in peer order. */
  function Broadcast(peers: seq<NodeId>, m: Message): (r: seq<Outgoing>)
    ensures |r| == |peers|
    ensures forall i :: 0 <= i < |peers| ==> r[i] == Outgoing(peers[i], m)
  {
    seq(|peers|, i requires 0 <= i < |peers| => Outgoing(peers[i], m))
  }

  /** `xs` without its first occurrence of `x` (List.Remove). */
  function RemoveFirst(xs: seq<NodeId>, x: NodeId): (r: seq<NodeId>)
    ensures x in xs ==> |r| == |xs| - 1
    ensures x !in xs ==> r == xs
    ensures forall y :: y != x ==> (y in r <==> y in xs)
  {
    if |xs| == 0 then []
    else if xs[0] == x then xs[1..]
    else [xs[0]] + RemoveFirst(xs[1..], x)
  }

  /** The occurrence removed is the first: with `i` the first position of
      `x`, everything before and after it is kept, in order. */
  lemma {:induction false} RemoveFirstAtFirstOccurrence(xs: seq<NodeId>, x: NodeId, i: int)
    requires 0 <= i < |xs| && xs[i] == x && x !in xs[..i]
    ensures RemoveFirst(xs, x) == xs[..i] + xs[i + 1..]
    decreases i
  {
    if i > 0 {
      assert xs[0] in xs[..i];
      assert xs[1..][..i - 1] == xs[1..i];
      RemoveFirstAtFirstOccurrence(xs[1..], x, i - 1);
      assert xs[..i] == [xs[0]] + xs[1..][..i - 1];
      assert xs[1..][i..] == xs[i + 1..];
    }
  }

  /** The sender of a message. */
  function SenderOf(m: Message): NodeId
  {
    m.sender
  }

  /** The effect of one message on node `self`: ignored before start-up,
      otherwise the sender is registered as a peer and the message answered. */
  function Handle(c: Crypto, self: NodeId, st: NodeState, m: Message, now: int): NodeState
    requires |st.chain.blocks| > 0
  {
    if st.peers.None? then st
    else Respond(c, self, st.(peers := Some(Register(st.peers.value, m.sender))), m, now)
  }

  function Respond(c: Crypto, self: NodeId, st: NodeState, m: Message, now: int): NodeState
    requires |st.chain.blocks| > 0
  {
    match m
    case QueryLatest(s) =>
      st.(outbox := st.outbox + [Outgoing(s, ResponseBlockchain(self, Some([Last(st.chain.blocks)])))])
    case QueryAll(s) =>
      st.(outbox := st.outbox + [Outgoing(s, ResponseBlockchain(self, Some(st.chain.blocks)))])
    case QueryTransactionPool(s) =>
      st.(outbox := st.outbox + [Outgoing(s, ResponseTransactionPool(self, Some(st.chain.pool)))])
    case ResponseBlockchain(s, received) =>
      if received.None? then st else RespondToBlocks(c, self, st, s, received.value, now)
    case ResponseTransactionPool(s, txs) =>
      if txs.None? then st else st.(chain := OfferAll(c, st.chain, txs.value))
  }

  /** The reaction to a chain (or the latest block) received from `s`. */
  function RespondToBlocks(c: Crypto, self: NodeId, st: NodeState, s: NodeId, received: seq<Block>, now: int): NodeState
    requires |st.chain.blocks| > 0
  {
    var chain := st.chain;
    if |received| == 0 then st
    else if |received| == 1 then
      var b := received[0];
      if b.previousHash == Last(chain.blocks).hash && b.index == Last(chain.blocks).index + 1 then
        st.(miningStops := st.miningStops + 1, chain := AddBlockSpec(c, chain, Some(b), now))
      else if b.index != 0 then
        st.(outbox := st.outbox + [Outgoing(s, QueryAll(self))])
      else
        st.(chain := ReplaceChainSpec(c, chain, [b], now))
    else if GetAccumulatedDifficulty(received) > GetAccumulatedDifficulty(chain.blocks) then
      st.(chain := ReplaceChainSpec(c, chain, received, now))
    else st
  }

  // ---------------------------------------------------------------------------
  // Properties of message handling

  /** Every message keeps the chain invariant. */
  lemma HandlePreservesInvariant(c: Crypto, self: NodeId, st: NodeState, m: Message, now: int)
    requires ChainInvariant(c, st.chain)
    ensures ChainInvariant(c, Handle(c, self, st, m, now).chain)
  {
    if st.peers.Some? {
      match m
      case ResponseBlockchain(s, received) =>
        if received.Some? && |received.value| > 0 {
          if |received.value| == 1 {
            AddBlockPreservesInvariant(c, st.chain, Some(received.value[0]), now);
            ReplaceChainPreservesInvariant(c, st.chain, [received.value[0]], now);
          } else {
            ReplaceChainPreservesInvariant(c, st.chain, received.value, now);
          }
        }
      case ResponseTransactionPool(s, txs) =>
        if txs.Some? {
          OfferAllPreservesInvariant(c, st.chain, txs.value);
        }
      case _ =>
    }
  }

  /** Before start-up a node ignores every message. */
  lemma IgnoredBeforeStart(c: Crypto, self: NodeId, st: NodeState, m: Message, now: int)
    requires |st.chain.blocks| > 0 && st.peers.None?
    ensures Handle(c, self, st, m, now) == st
  {
  }

  /** After start-up the sender becomes a peer exactly once: it is added when
      unknown, never duplicated, and no other peer is added or dropped. */
  lemma SenderRegisteredOnce(c: Crypto, self: NodeId, st: NodeState, m: Message, now: int)
    requires |st.chain.blocks| > 0 && st.peers.Some?
    ensures var peers' := Handle(c, self, st, m, now).peers;
            && peers'.Some?
            && (SenderOf(m) in st.peers.value ==> peers'.value == st.peers.value)
            && (SenderOf(m) !in st.peers.value ==> peers'.value == st.peers.value + [SenderOf(m)])
            && (NoDuplicates(st.peers.value) ==> NoDuplicates(peers'.value))
  {
    var peers := st.peers.value;
    if SenderOf(m) !in peers && NoDuplicates(peers) {
      var r := peers + [SenderOf(m)];
      forall i, j | 0 <= i < j < |r|
        ensures r[i] != r[j]
      {
        if j == |peers| {
          assert r[i] == peers[i];
        }
      }
    }
  }

  /** Queries send one reply to the sender and change neither the chain nor the mining. */
  lemma QueriesOnlyReply(c: Crypto, self: NodeId, st: NodeState, m: Message, now: int)
    requires |st.chain.blocks| > 0 && st.peers.Some?
    requires m.QueryLatest? || m.QueryAll? || m.QueryTransactionPool?
    ensures var st' := Handle(c, self, st, m, now);
            && st'.chain == st.chain && st'.miningStops == st.miningStops
            && |st'.outbox| == |st.outbox| + 1 && st'.outbox[..|st.outbox|] == st.outbox
            && st'.outbox[|st.outbox|].recipient == SenderOf(m)
            && (m.QueryLatest? ==> st'.outbox[|st.outbox|].message == ResponseBlockchain(self, Some([Last(st.chain.blocks)])))
            && (m.QueryAll? ==> st'.outbox[|st.outbox|].message == ResponseBlockchain(self, Some(st.chain.blocks)))
            && (m.QueryTransactionPool? ==> st'.outbox[|st.outbox|].message == ResponseTransactionPool(self, Some(st.chain.pool)))
  {
  }

  /** A null or empty chain response changes nothing but the peer list. */
  lemma EmptyBlockResponseIsIgnored(c: Crypto, self: NodeId, st: NodeState, s: NodeId, received: Option<seq<Block>>, now: int)
    requires |st.chain.blocks| > 0 && st.peers.Some?
    requires received.None? || received.value == []
    ensures var st' := Handle(c, self, st, ResponseBlockchain(s, received), now);
            st' == st.(peers := st'.peers)
  {
  }

  /** A lone block that does not extend the chain and is not a genesis block
      leaves the chain alone and asks its sender for the whole chain. */
  lemma UnlinkedBlockQueriesWholeChain(c: Crypto, self: NodeId, st: NodeState, s: NodeId, b: Block, now: int)
    requires |st.chain.blocks| > 0 && st.peers.Some?
    requires !(b.previousHash == Last(st.chain.blocks).hash && b.index == Last(st.chain.blocks).index + 1)
    requires b.index != 0
    ensures var st' := Handle(c, self, st, ResponseBlockchain(s, Some([b])), now);
            && st'.chain == st.chain && st'.miningStops == st.miningStops
            && st'.outbox == st.outbox + [Outgoing(s, QueryAll(self))]
  {
  }

  /** A lone block that extends the chain stops mining and goes through AddBlock. */
  lemma LinkedBlockIsAppended(c: Crypto, self: NodeId, st: NodeState, s: NodeId, b: Block, now: int)
    requires |st.chain.blocks| > 0 && st.peers.Some?
    requires b.previousHash == Last(st.chain.blocks).hash && b.index == Last(st.chain.blocks).index + 1
    ensures var st' := Handle(c, self, st, ResponseBlockchain(s, Some([b])), now);
            && st'.miningStops == st.miningStops + 1 && st'.outbox == st.outbox
            && st'.chain == AddBlockSpec(c, st.chain, Some(b), now)
  {
  }

  /** A response of several blocks never triggers a reply, and replaces the
      chain only by a valid, strictly heavier one. */
  lemma ChainResponseNeverReplies(c: Crypto, self: NodeId, st: NodeState, s: NodeId, blocks: seq<Block>, now: int)
    requires |st.chain.blocks| > 0 && st.peers.Some? && |blocks| > 1
    ensures var st' := Handle(c, self, st, ResponseBlockchain(s, Some(blocks)), now);
            && st'.outbox == st.outbox && st'.miningStops == st.miningStops
            && (st'.chain != st.chain ==>
                  && Replay(c, blocks, now).Some?
                  && GetAccumulatedDifficulty(blocks) > GetAccumulatedDifficulty(st.chain.blocks)
                  && st'.chain.blocks == blocks)
  {
    var st' := Handle(c, self, st, ResponseBlockchain(s, Some(blocks)), now);
    if st'.chain != st.chain {
      ReplaceChainOnlyByHeavierOrGenesis(c, st.chain, blocks, now);
    }
  }

  /** A pool response touches only the pool: blocks and UTXOs stay, and nothing is sent. */
  lemma PoolResponseOnlyTouchesPool(c: Crypto, self: NodeId, st: NodeState, s: NodeId,
                                    txs: Option<seq<Transaction>>, now: int)
    requires ChainInvariant(c, st.chain) && st.peers.Some?
    ensures var st' := Handle(c, self, st, ResponseTransactionPool(s, txs), now);
            && st'.outbox == st.outbox && st'.miningStops == st.miningStops
            && st'.chain.blocks == st.chain.blocks && st'.chain.unspentTxOuts == st.chain.unspentTxOuts
            && (txs.None? ==> st'.chain == st.chain)
  {
    if txs.Some? {
      OfferAllPreservesInvariant(c, st.chain, txs.value);
    }
  }

  // ---------------------------------------------------------------------------
  // The node object

  class Node {
    const id: NodeId
    const address: string
    const key: KeyContainer
    const blockchain: Blockchain
    var peers: Option<seq<NodeId>>
    var outbox: seq<Outgoing>
    var miningStops: nat

    function State(): NodeState
      reads this, blockchain, blockchain.transactionPool
    {
      NodeState(peers, outbox, miningStops, blockchain.State())
    }

    ghost predicate Valid()
      reads this, blockchain, blockchain.transactionPool
    {
      blockchain.Valid()
    }

    /** A node with its own genesis chain, not yet started: no peer list, nothing sent. */
    constructor(id: NodeId, c: Crypto, key: KeyContainer, now: int)
      ensures this.id == id && this.key == key && address == c.publicKey(key)
      ensures peers.None? && outbox == [] && miningStops == 0
      ensures fresh(blockchain) && fresh(blockchain.transactionPool) && blockchain.crypto == c
      ensures blockchain.State() == InitialState(c, c.publicKey(key), GENESIS_DIFFICULTY, now)
      ensures Valid()
    {
      this.id := id;
      this.key := key;
      address := c.publicKey(key);
      blockchain := new Blockchain.Init(c, c.publicKey(key), GENESIS_DIFFICULTY, now);
      peers := None;
      outbox := [];
      miningStops := 0;
    }

    /** Take every discovered node but itself as a peer, then ask them all
        for their latest block and for their pools. */
    method Start(discovered: seq<NodeId>)
      modifies this
      ensures peers == Some(RemoveFirst(discovered, id))
      ensures outbox == old(outbox) + Broadcast(peers.value, QueryLatest(id))
                                    + Broadcast(peers.value, QueryTransactionPool(id))
      ensures miningStops == old(miningStops)
    {
      peers := Some(RemoveFirst(discovered, id));
      QueryLatestOfPeers();
      QueryTransactionPoolOfPeers();
    }

    method QueryLatestOfPeers()
      requires peers.Some?
      modifies this
      ensures peers == old(peers) && miningStops == old(miningStops)
      ensures outbox == old(outbox) + Broadcast(peers.value, QueryLatest(id))
    {
      outbox := outbox + Broadcast(peers.value, QueryLatest(id));
    }

    method QueryTransactionPoolOfPeers()
      requires peers.Some?
      modifies this
      ensures peers == old(peers) && miningStops == old(miningStops)
      ensures outbox == old(outbox) + Broadcast(peers.value, QueryTransactionPool(id))
    {
      outbox := outbox + Broadcast(peers.value, QueryTransactionPool(id));
    }

    method BroadcastLatest()
      requires peers.Some? && Valid()
      modifies this
      ensures peers == old(peers) && miningStops == old(miningStops)
      ensures outbox == old(outbox) + Broadcast(peers.value, ResponseBlockchain(id, Some([Last(blockchain.blocks)])))
    {
      var last := blockchain.LastBlock();
      outbox := outbox + Broadcast(peers.value, ResponseBlockchain(id, Some([last])));
    }

    method BroadcastTransactionPool()
      requires peers.Some?
      modifies this
      ensures peers == old(peers) && miningStops == old(miningStops)
      ensures outbox == old(outbox) + Broadcast(peers.value, ResponseTransactionPool(id, Some(blockchain.transactionPool.transactions)))
    {
      var pooled := blockchain.GetPooledTransactions();
      outbox := outbox + Broadcast(peers.value, ResponseTransactionPool(id, Some(pooled)));
    }

    /** The balance of this node's own address. */
    method GetNodeBalance() returns (balance: int)
      ensures balance == GetBalance(blockchain.unspentTxOuts, address)
    {
      balance := blockchain.GetBalanceOf(address);
    }

    /** Send `amount` from this node's address; announce the pool when the transfer was pooled. */
    method SendTransaction(receiver: string, amount: int)
      requires peers.Some? && Valid()
      modifies this, blockchain.transactionPool
      ensures blockchain.State() == SendTransactionSpec(blockchain.crypto, old(blockchain.State()), address, receiver, key, amount)
      ensures peers == old(peers) && miningStops == old(miningStops)
      ensures outbox == if blockchain.State() == old(blockchain.State()) then old(outbox)
                        else old(outbox) + Broadcast(peers.value, ResponseTransactionPool(id, Some(blockchain.transactionPool.transactions)))
      ensures Valid()
    {
      var ok := blockchain.SendTransaction(address, receiver, key, amount);
      if ok {
        BroadcastTransactionPool();
      }
    }

    /** React to a message from another peer. */
    method PeerMessage(m: Message, now: int)
      requires Valid()
      modifies this, blockchain, blockchain.transactionPool
      ensures State() == Handle(blockchain.crypto, id, old(State()), m, now)
      ensures Valid()
    {
      if peers.None? {
        return;
      }
      if m.sender !in peers.value {
        peers := Some(peers.value + [m.sender]);
      }
      match m {
        case QueryLatest(s) =>
          var last := blockchain.LastBlock();
          outbox := outbox + [Outgoing(s, ResponseBlockchain(id, Some([last])))];
        case QueryAll(s) =>
          outbox := outbox + [Outgoing(s, ResponseBlockchain(id, Some(blockchain.blocks)))];
        case QueryTransactionPool(s) =>
          var pooled := blockchain.GetPooledTransactions();
          outbox := outbox + [Outgoing(s, ResponseTransactionPool(id, Some(pooled)))];
        case ResponseBlockchain(s, received) =>
          if received.Some? {
            ReceiveBlocks(s, received.value, now);
          }
        case ResponseTransactionPool(s, txs) =>
          if txs.Some? {
            ReceivePool(txs.value);
          }
      }
    }

    method ReceiveBlocks(s: NodeId, received: seq<Block>, now: int)
      requires Valid()
      modifies this, blockchain, blockchain.transactionPool
      ensures State() == RespondToBlocks(blockchain.crypto, id, old(State()), s, received, now)
      ensures Valid()
    {
      if |received| == 0 {
        return;
      }
      var last := blockchain.LastBlock();
      if |received| == 1 {
        var b := received[0];
        if b.previousHash == last.hash && b.index == last.index + 1 {
          miningStops := miningStops + 1;
          blockchain.AddBlock(Some(b), now);
        } else if b.index != 0 {
          outbox := outbox + [Outgoing(s, QueryAll(id))];
        } else {
          blockchain.ReplaceChain([b], now);
        }
      } else if GetAccumulatedDifficulty(received) > GetAccumulatedDifficulty(blockchain.blocks) {
        blockchain.ReplaceChain(received, now);
      }
    }

    /** Offer every received transaction to the pool, in order, until an
        offer throws. */
    method ReceivePool(offered: seq<Transaction>)
      requires Valid()
      modifies blockchain.transactionPool
      ensures State() == old(State()).(chain := OfferAll(blockchain.crypto, old(blockchain.State()), offered))
      ensures Valid()
    {
      var i := 0;
      while i < |offered|
        invariant 0 <= i <= |offered|
        invariant OfferAll(blockchain.crypto, old(blockchain.State()), offered)
                  == OfferAll(blockchain.crypto, blockchain.State(), offered[i..])
        invariant Valid()
      {
        assert offered[i..][1..] == offered[i + 1..];
        var ok, threw := blockchain.AddToPool(offered[i]);
        if threw {
          return;
        }
        i := i + 1;
      }
    }
  }
}
