/** A node: it floods transactions, judges submitted blocks, and mines. */
module Server {
  import opened Types
  import opened Transactions
  import opened LedgerSpec
  import opened Hex
  import opened Blocks
  import opened Difficulty
  import opened ChainSpec
  import opened Fork
  import opened Chain
  import opened Pool
  import opened Peers
  import opened Flooding
  import opened Gossip
  import opened NodeSpec

  ghost predicate ChainHas(blocks: seq<Block>, hash: string) {
    exists i :: 0 <= i < |blocks| && Carries(blocks[i], hash)
  }

  /** Where the mining loop stands: working on a block that hashes to `hash`, without one, or
      done with one. A panic is a division by zero or a nil dereference. */
  datatype Mining =
    | NothingToMine
    | CreationFailed
    | Panicked
    | Working(block: Block, hash: string)
    | NonceNotFound
    | Stale
    | MinedNotAdded(block: Block)
    | MinedAndAdded(block: Block)

  /** `txs` is one transaction of the pool that passes the ledger's check, or nothing exactly when
      there is none. */
  ghost predicate Offers(c: Crypto, bag: multiset<UTXO>, pool: map<string, Transaction>, txs: seq<Transaction>) {
    if txs == [] then forall h | h in pool :: !LedgerSpec.CheckTransaction(c, bag, pool[h])
    else |txs| == 1 && txs[0] in pool.Values && LedgerSpec.CheckTransaction(c, bag, txs[0])
  }

  /** What an attempt at making a block from `txs` on top of `blocks` comes to. */
  function Attempted(c: Crypto, blocks: seq<Block>, txs: seq<Transaction>, now: int64): (r: Mining)
    ensures r.NothingToMine? || r.Panicked? || r.CreationFailed? || r.Working?
  {
    var previousHash := if blocks == [] then "" else blocks[|blocks| - 1].hash;
    if txs == [] then NothingToMine else
    match DifficultyAt(c, blocks, |blocks|)
    case None => Panicked
    case Some(due) =>
      if ContentHash(c, txs).None? then CreationFailed else
      var block := UnminedBlock(c, previousHash, |blocks|, due, txs, now);
      Working(block, c.hashHeader(block.header))
  }

  /** A chain with its genesis block at least, whose heights are the positions. */
  predicate Numbered(blocks: seq<Block>) {
    blocks != [] && HeightsMatch(blocks)
  }

  /** With `nonce`, the block made of `txs` on top of `blocks` hashes to the target or above. */
  ghost predicate Misses(c: Crypto, blocks: seq<Block>, txs: seq<Transaction>, now: int64, nonce: int64)
    requires blocks != [] && ContentHash(c, txs).Some? && DifficultyAt(c, blocks, |blocks|).Some?
  {
    BigOf(c, Candidate(c, blocks, txs, now, nonce).hash) >= BigOf(c, DifficultyAt(c, blocks, |blocks|).value)
  }

  ghost predicate AllMiss(c: Crypto, blocks: seq<Block>, txs: seq<Transaction>, now: int64, tries: seq<int64>) {
    && blocks != [] && ContentHash(c, txs).Some? && DifficultyAt(c, blocks, |blocks|).Some?
    && forall j :: 0 <= j < |tries| ==> Misses(c, blocks, txs, now, tries[j])
  }

  /** What a round of mining on `blocks` must come to, when the pool offers `txs` and these nonces
      are tried in order: nothing without a transaction; a panic if retargeting divides by zero; a
      failed block if the transaction has no hash; else the first nonce that meets the difficulty
      due makes the block that goes through AddBlock, and only if all miss is there none. */
  ghost predicate RoundComesTo(c: Crypto, blocks: seq<Block>, txs: seq<Transaction>, now: int64, tries: seq<int64>,
        r: Mining)
    requires blocks != []
  {
    if txs == [] then r == NothingToMine
    else if DifficultyAt(c, blocks, |blocks|).None? then r == Panicked
    else if txs[0].hash == "" then r == CreationFailed
    else if r == NonceNotFound then AllMiss(c, blocks, txs, now, tries)
    else (r.MinedAndAdded? || r.MinedNotAdded?) && exists k :: MinesAt(c, blocks, txs, now, tries, k, r.block)
  }

  /** `block` is the one made with the first nonce, number `k`, that meets the target. */
  ghost predicate MinesAt(c: Crypto, blocks: seq<Block>, txs: seq<Transaction>, now: int64, tries: seq<int64>, k: nat,
        block: Block)
  {
    && k < |tries| && AllMiss(c, blocks, txs, now, tries[..k])
    && !Misses(c, blocks, txs, now, tries[k]) && block == Candidate(c, blocks, txs, now, tries[k])
  }

  class BlockchainServer {
    const blockchain: Blockchain
    const txPool: TransactionPool
    const peerManager: PeerManager

    constructor (crypto: Crypto, peerManager: PeerManager, initialUTXOs: seq<UTXO>, now: int64)
      ensures this.peerManager == peerManager && fresh(blockchain) && fresh(blockchain.utxoSet) && fresh(txPool)
      ensures blockchain.crypto == crypto && blockchain.Valid() && Sound(crypto, blockchain.blocks)
      ensures blockchain.utxoSet.bag == multiset(initialUTXOs)
      ensures txPool.Valid() && txPool.transactions == map[]
    {
      blockchain := new Blockchain(crypto, initialUTXOs, now);
      txPool := new TransactionPool();
      this.peerManager := peerManager;
    }

    /** HandleTransactionSubmission at the node with address `me`, in a network that `v`
        describes. Calls are synchronous; a node takes the transaction into its pool first
        and calls its peers afterwards, so the nodes lacking it only get fewer. */
    method HandleTransactionSubmission(net: map<string, BlockchainServer>, me: string, tx: Transaction, ghost v: View)
        returns (ok: bool, ghost w: View, ghost log: Log)
      requires me in net && net[me] == this && Shows(net, tx.hash, v)
      modifies PoolObjects(net)
      ensures Shows(net, tx.hash, w) && Submitted(v, me, tx, ok, w, log)
      decreases v.peers.Keys - Holders(v, tx.hash), 0
    {
      hide Submitted, Broadcasted, Transactions.Verify, ContentOk, Shows, ChainHas, Deliver, Holders;
      ShowsNodes(net, tx.hash, v);
      VerifyIs(blockchain.crypto, tx);
      var contentOk := VerifyContent(blockchain.crypto, tx.content);
      if !contentOk || !blockchain.crypto.verifySignature(tx.hash, tx.signature, tx.content.senderPubKey) {
        RejectedSubmission(v, me, tx);
        return false, v, multiset{};
      }
      var pooled := txPool.HasTransaction(tx.hash);
      var recorded := blockchain.HasTransaction(tx.hash);
      ChainHasIs(blockchain.blocks, tx.hash);
      HolderIs(v, me, tx.hash);
      if pooled || recorded {
        AlreadyHeld(v, me, tx);
        return false, v, multiset{};
      }
      ghost var mid := v.(pools := Deliver(v.pools, {me}, tx));
      DeliverHolders(v, {me}, tx);
      DeliverToOne(v.pools, me, tx);
      var added := txPool.AddTransaction(tx);
      forall a | a in net ensures NodeShows(net[a], a, tx.hash, mid) {
        assert old(NodeShows(net[a], a, tx.hash, v));
      }
      ShowsAll(net, tx.hash, mid);
      w, log := BroadcastTransaction(net, me, tx, mid);
      TakenAndBroadcasted(v, me, tx, w, log);
      ok := true;
    }

    /** Calls every peer in turn; an address where no node answers is passed over. */
    method BroadcastTransaction(net: map<string, BlockchainServer>, me: string, tx: Transaction, ghost v: View)
        returns (ghost w: View, ghost log: Log)
      requires me in net && net[me] == this && Shows(net, tx.hash, v)
      requires Transactions.Verify(v.crypto, tx) && me in Holders(v, tx.hash)
      modifies PoolObjects(net)
      ensures Shows(net, tx.hash, w)
      ensures Broadcasted(v, me, |v.peers[me]|, tx, w, log)
      decreases v.peers.Keys - Holders(v, tx.hash), 1
    {
      hide Submitted, Broadcasted, Transactions.Verify, Shows, Deliver, Holders;
      ShowsNodes(net, tx.hash, v);
      var clients := peerManager.peerClients;
      assert clients == v.peers[me] && v.peers.Keys == net.Keys;
      w, log := v, multiset{};
      BroadcastStart(v, me, tx);
      for i := 0 to |clients|
        invariant Shows(net, tx.hash, w)
        invariant Broadcasted(v, me, i, tx, w, log)
      {
        BroadcastKeeps(v, me, i, tx, w, log);
        if clients[i] in net {
          ghost var before := w;
          ghost var more;
          var accepted;
          accepted, w, more := net[clients[i]].HandleTransactionSubmission(net, clients[i], tx, w);
          BroadcastStep(v, me, i, tx, before, log, accepted, w, more);
          log := log + multiset{(me, clients[i])} + more;
        } else {
          BroadcastSkip(v, me, i, tx, w, log);
          log := log + multiset{(me, clients[i])};
        }
      }
    }

    /** Everyone in the list of peers has been sent the block and the hashes, once per entry. */
    ghost predicate ToAllPeers(sent: seq<BlockMessage>, block: Block, hashes: seq<string>)
      reads peerManager
    {
      && |sent| == |peerManager.peerClients|
      && forall i :: 0 <= i < |sent| ==> sent[i] == BlockMessage(peerManager.peerClients[i], block, hashes)
    }

    /** Sends a block and a hash list to every peer in turn. */
    method BroadcastBlock(block: Block, hashes: seq<string>) returns (sent: seq<BlockMessage>)
      ensures ToAllPeers(sent, block, hashes)
    {
      sent := [];
      for i := 0 to |peerManager.peerClients|
        invariant |sent| == i
        invariant forall k :: 0 <= k < i ==> sent[k] == BlockMessage(peerManager.peerClients[k], block, hashes)
      {
        sent := sent + [BlockMessage(peerManager.peerClients[i], block, hashes)];
      }
    }

    /** HandleBlockSubmission of a node that does not misbehave. An added block and one whose
        fork was resolved are passed on, with the hash list they came with. */
    method HandleBlockSubmission(block: Block, hashes: seq<string>, peerAddr: string,
          request: Oracle) returns (reply: Reply, sent: seq<BlockMessage>)
      requires blockchain.Valid()
      modifies blockchain`blocks, blockchain.utxoSet, peerManager`blacklisted, peerManager`invalidCount
      ensures blockchain.Valid()
      ensures Judgement(reply, blockchain.State(), peerManager.State())
        == Judge(blockchain.crypto, old(blockchain.State()), old(peerManager.State()), block, hashes, peerAddr, request)
      ensures if reply in {Added, ForkHandled} then ToAllPeers(sent, block, hashes) else sent == []
    {
      hide VerifyBlock, AddBlockEffect, ChainSpec.AddBlock, Fork.HandleFork, HashesOf, Black, Increment;
      sent := [];
      var black := peerManager.IsBlacklisted(peerAddr);
      if black {
        reply := Blacklisted;
        return;
      }
      var valid := CheckBlock(blockchain.crypto, block);
      if !valid {
        peerManager.IncrementInvalidCount(peerAddr);
        reply := Invalid;
        return;
      }
      var lastBlock := blockchain.GetLastBlock();
      if lastBlock == None {
        reply := Crashed;
        return;
      }
      if block.header.previousHash == lastBlock.value.hash {
        var added := blockchain.AddBlock(block);
        if !added {
          reply := NotAdded;
          return;
        }
        sent := BroadcastBlock(block, hashes);
        reply := Added;
        return;
      }
      var known := blockchain.GetBlockByHash(block.hash);
      KnownIs(blockchain.blocks, block.hash, known);
      if known != None {
        reply := Duplicate;
        return;
      }
      var outcome := blockchain.HandleFork(hashes, request);
      reply := ForkReply(outcome);
      if reply == ForkHandled {
        sent := BroadcastBlock(block, hashes);
      }
    }

    /** `txs` is what this node's pool offers for a block. */
    ghost predicate Offered(txs: seq<Transaction>)
      reads blockchain, blockchain.utxoSet, txPool
    {
      Offers(blockchain.crypto, blockchain.utxoSet.bag, txPool.transactions, txs)
    }

    /** One attempt at making a block from what the pool offers; with no transaction the node
        waits. */
    method CreateBlockWithTransactions(now: int64) returns (r: Mining, ghost txs: seq<Transaction>)
      requires blockchain.Valid() && txPool.Valid()
      ensures Offered(txs) && r == Attempted(blockchain.crypto, blockchain.blocks, txs, now)
    {
      hide DifficultyAt, ContentHash, LedgerSpec.CheckTransaction;
      var transactions := txPool.GetUpToNTransactions(1, blockchain.utxoSet);
      txs := transactions;
      assert |transactions| == 1 ==> txPool.transactions[transactions[0].hash] in txPool.transactions.Values;
      if transactions == [] {
        r := NothingToMine;
        return;
      }
      var created := blockchain.CreateBlock(transactions, now);
      match created
      case DivisionByZero => r := Panicked;
      case ContentInvalid => r := CreationFailed;
      case Created(block) => r := Working(block, blockchain.crypto.hashHeader(block.header));
    }

    /** One turn of the search: a new nonce, and for every ten-thousandth a look whether the
        chain has caught up with the block, in which case a new block is made. If that fails
        there is no block left, and the search dereferences nil. */
    method TryNonce(work: Mining, nonce: int64, now: int64) returns (r: Mining, ghost txs: seq<Transaction>)
      requires blockchain.Valid() && txPool.Valid() && work.Working?
      ensures var blocks := blockchain.blocks;
        if nonce % 10000 != 0 || (blocks != [] && !CaughtUp(blocks, work.block)) then
          && r.Working? && r.block == work.block.(header := work.block.header.(nonce := nonce))
          && r.hash == blockchain.crypto.hashHeader(r.block.header)
        else if blocks == [] then r == Panicked
        else
          && Offered(txs)
          && var again := Attempted(blockchain.crypto, blocks, txs, now);
             r == if again.CreationFailed? then Panicked else again
    {
      hide Offers, Attempted;
      txs := [];
      var block := work.block.(header := work.block.header.(nonce := nonce));
      if nonce % 10000 == 0 {
        var lastBlock := blockchain.GetLastBlock();
        if lastBlock == None {
          r := Panicked;
          return;
        }
        if block.header.height <= lastBlock.value.header.height {
          r, txs := CreateBlockWithTransactions(now);
          if r.CreationFailed? {
            r := Panicked;
          }
          return;
        }
      }
      r := Working(block, blockchain.crypto.hashHeader(block.header));
    }

    /** The block in work is a candidate on the chain as it is now, from what the pool offers. */
    ghost predicate WorksHere(r: Mining, now: int64, nonce: int64)
      requires r.Working?
      reads blockchain, blockchain.utxoSet, txPool
    {
      && WorksOn(blockchain.crypto, blockchain.State(), r.block, r.hash, now, nonce)
      && Offered(r.block.transactions)
    }

    /** A block just made is a candidate with nonce zero. */
    lemma AttemptWorks(txs: seq<Transaction>, now: int64)
      requires Offered(txs) && blockchain.blocks != []
      ensures var r := Attempted(blockchain.crypto, blockchain.blocks, txs, now);
        r.Working? ==>
          && WorksHere(r, now, 0)
          && r.block.transactions == txs
          && r.block.header.height == |blockchain.blocks| && r.block.header.nonce == 0
    {
      hide DifficultyAt, ContentHash, LedgerSpec.CheckTransaction;
    }

    /** A nonce has been found: unless the chain has caught up, the block is added, and sent to
        every peer with the last hashes of the chain it then tops. */
    method FinishMining(work: Mining) returns (r: Mining, sent: seq<BlockMessage>)
      requires blockchain.Valid() && work.Working?
      modifies blockchain`blocks, blockchain.utxoSet
      ensures blockchain.Valid()
      ensures var c, st, found := blockchain.crypto, old(blockchain.State()), work.block.(hash := work.hash);
        if st.blocks == [] then r == Panicked && blockchain.State() == st && sent == []
        else if CaughtUp(st.blocks, found) then
          r == Stale && blockchain.State() == st && sent == []
        else
          && blockchain.State() == ChainSpec.AddBlock(c, st, found)
          && r == (if AddBlockEffect(c, st, found).ok then MinedAndAdded(found) else MinedNotAdded(found))
          && if r.MinedAndAdded? then ToAllPeers(sent, found, Last100(blockchain.blocks)) else sent == []
    {
      hide AddBlockEffect, ChainSpec.AddBlock, Last100;
      sent := [];
      var block := work.block.(hash := work.hash);
      var lastBlock := blockchain.GetLastBlock();
      if lastBlock == None {
        r := Panicked;
        return;
      }
      if block.header.height <= lastBlock.value.header.height {
        r := Stale;
        return;
      }
      var added := blockchain.AddBlock(block);
      if !added {
        r := MinedNotAdded(block);
        return;
      }
      var hashes := blockchain.GetLast100Hashes();
      sent := BroadcastBlock(block, hashes);
      r := MinedAndAdded(block);
    }

    /** A whole round at time `now`, trying zero and then the given nonces, while nothing else
        happens at the node. A found block is a candidate on this chain, from what the pool
        offers, with a nonce that meets its target, and goes through AddBlock. On a numbered
        chain the round comes to just what the offer and the nonces determine, and a found block
        is added exactly when the ledger holds its inputs with multiplicity, so always when no
        coin is listed twice. */
    method MineBlock(now: int64, nonces: seq<int64>) returns (r: Mining, sent: seq<BlockMessage>)
      requires blockchain.Valid() && txPool.Valid()
      modifies blockchain`blocks, blockchain.utxoSet
      ensures blockchain.Valid() && txPool.Valid()
      ensures r.MinedAndAdded? || r.MinedNotAdded? ==>
        var c, st, t := blockchain.crypto, old(blockchain.State()), r.block.transactions;
        && |t| == 1 && old(Offered(t))
        && st.blocks != [] && ContentHash(c, t).Some? && DifficultyAt(c, st.blocks, |st.blocks|).Some?
        && (exists nonce: int64 :: (nonce == 0 || nonce in nonces) && r.block == Candidate(c, st.blocks, t, now, nonce))
        && VerifyHash(c, r.block.header, r.block.hash)
        && blockchain.State() == ChainSpec.AddBlock(c, st, r.block)
        && (r.MinedAndAdded? <==> AddBlockEffect(c, st, r.block).ok)
        && (HeightsMatch(st.blocks) ==>
              && (r.MinedAndAdded? <==> multiset(t[0].content.inputs) <= st.ledger)
              && (DistinctCoins(t[0].content.inputs) ==> r.MinedAndAdded?))
      ensures !r.MinedAndAdded? && !r.MinedNotAdded? ==> blockchain.State() == old(blockchain.State())
      ensures old(Numbered(blockchain.blocks)) ==> exists txs ::
        && old(Offered(txs))
        && RoundComesTo(blockchain.crypto, old(blockchain.blocks), txs, now, [0] + nonces, r)
      ensures if r.MinedAndAdded? then ToAllPeers(sent, r.block, Last100(blockchain.blocks)) else sent == []
    {
      hide VerifyBlock, BlockEffect, LedgerSpec.CheckTransaction, DifficultyAt, ContentHash, VerifyHash, DistinctCoins;
      hide Last100, Offers, Attempted, AddBlockEffect, ChainSpec.AddBlock;
      ghost var c, st := blockchain.crypto, blockchain.State();
      ghost var txs;
      sent := [];
      r, txs := CreateBlockWithTransactions(now);
      if st.blocks != [] {
        AttemptComesTo(c, st, txPool.transactions, txs, now);
      }
      if !r.Working? {
        return;
      }
      if blockchain.blocks != [] { AttemptWorks(txs, now); }
      ghost var first, tries: seq<int64> := txs, [0] + nonces;
      ghost var nonce: int64 := 0;
      var i := 0;
      while !VerifyHash(blockchain.crypto, r.block.header, r.hash)
        invariant 0 <= i <= |nonces|
        invariant nonce == 0 || nonce in nonces
        invariant blockchain.Valid() && txPool.Valid() && blockchain.State() == st
        invariant txPool.transactions == old(txPool.transactions)
        invariant r.Working?
        invariant st.blocks != [] ==> WorksHere(r, now, nonce) && r.block.header.height == |st.blocks|
        invariant Numbered(st.blocks) ==> r.block.transactions == first && nonce == tries[i]
        invariant Numbered(st.blocks) ==> AllMiss(c, st.blocks, first, now, tries[..i])
        decreases |nonces| - i
      {
        if Numbered(st.blocks) {
          OneMoreMisses(c, st, first, now, tries, i, r.block, r.hash);
        }
        if i == |nonces| {
          assert tries[..i + 1] == tries;
          r := NonceNotFound;
          return;
        }
        ghost var caughtUp := nonces[i] % 10000 == 0 && CaughtUp(st.blocks, r.block);
        r, txs := TryNonce(r, nonces[i], now);
        if !r.Working? {
          return;
        }
        if caughtUp { AttemptWorks(txs, now); }
        nonce := if caughtUp then 0 else nonces[i];
        i := i + 1;
      }
      if st.blocks != [] {
        FoundIsCandidate(c, st, r.block, r.hash, now, nonce);
        FoundIsFirst(c, st, first, now, tries, i, r.block, r.hash, nonce);
      }
      r, sent := FinishMining(r);
    }
  }

  /** What the mining loop has found on an unchanged chain, and when AddBlock takes it. */
  lemma FoundIsCandidate(c: Crypto, st: ChainState, block: Block, hash: string, now: int64,
        nonce: int64)
    requires WorksOn(c, st, block, hash, now, nonce) && VerifyHash(c, block.header, hash)
    ensures var found, t := block.(hash := hash), block.transactions;
      && |t| == 1 && st.blocks != [] && ContentHash(c, t).Some? && DifficultyAt(c, st.blocks, |st.blocks|).Some?
      && found == Candidate(c, st.blocks, t, now, nonce)
      && (HeightsMatch(st.blocks) ==>
            && !CaughtUp(st.blocks, found)
            && (AddBlockEffect(c, st, found).ok <==> multiset(t[0].content.inputs) <= st.ledger)
            && (DistinctCoins(t[0].content.inputs) ==> AddBlockEffect(c, st, found).ok))
  {
    hide DifficultyAt, ContentHash, LedgerSpec.CheckTransaction, AddBlockEffect, VerifyHash, DistinctCoins;
    if HeightsMatch(st.blocks) {
      assert block.transactions == [block.transactions[0]];
      MinedBlockAccepted(c, st, block.transactions[0], now, nonce);
    }
  }

  /** One transaction that passes the check has a content hash exactly when it has a hash. */
  lemma SingleContent(c: Crypto, bag: multiset<UTXO>, txs: seq<Transaction>)
    requires |txs| == 1 && LedgerSpec.CheckTransaction(c, bag, txs[0])
    ensures ContentHash(c, txs).Some? <==> txs[0].hash != ""
  {
    hide ContentOk;
  }

  /** How far making a block decides the round, on a chain that is not empty. */
  lemma AttemptComesTo(c: Crypto, st: ChainState, pool: map<string, Transaction>,
        txs: seq<Transaction>, now: int64)
    requires st.blocks != [] && Offers(c, st.ledger, pool, txs)
    ensures var r := Attempted(c, st.blocks, txs, now);
      && (r.Working? ==> AllMiss(c, st.blocks, txs, now, []) && txs != [] && txs[0].hash != "")
      && (!r.Working? ==> forall tries :: RoundComesTo(c, st.blocks, txs, now, tries, r))
  {
    hide DifficultyAt, ContentHash, LedgerSpec.CheckTransaction;
    if txs != [] {
      SingleContent(c, st.ledger, txs);
    }
  }

  lemma OneMoreMisses(c: Crypto, st: ChainState, txs: seq<Transaction>, now: int64,
        tries: seq<int64>, i: nat, block: Block, hash: string)
    requires i < |tries| && WorksOn(c, st, block, hash, now, tries[i]) && block.transactions == txs
    requires AllMiss(c, st.blocks, txs, now, tries[..i]) && !VerifyHash(c, block.header, hash)
    ensures AllMiss(c, st.blocks, txs, now, tries[..i + 1])
  {
    hide DifficultyAt, ContentHash, LedgerSpec.CheckTransaction, BigOf;
    var longer := tries[..i + 1];
    forall j | 0 <= j < |longer| ensures Misses(c, st.blocks, txs, now, longer[j]) {
      if j < i {
        assert longer[j] == tries[..i][j];
      }
    }
  }

  lemma FoundIsFirst(c: Crypto, st: ChainState, txs: seq<Transaction>, now: int64,
        tries: seq<int64>, i: nat, block: Block, hash: string, nonce: int64)
    requires WorksOn(c, st, block, hash, now, nonce) && VerifyHash(c, block.header, hash) && i < |tries|
    ensures block.transactions == txs && nonce == tries[i] && AllMiss(c, st.blocks, txs, now, tries[..i]) ==>
      MinesAt(c, st.blocks, txs, now, tries, i, block.(hash := hash))
  {
    hide DifficultyAt, ContentHash, LedgerSpec.CheckTransaction, BigOf;
  }

  /** Looking a hash up finds a block exactly when one of the blocks carries it. */
  lemma {:induction false} KnownIs(blocks: seq<Block>, hash: string, known: Option<Block>)
    requires known == FirstWith(blocks, hash)
    ensures known.Some? <==> hash in HashesOf(blocks)
  {
  }

  /** Holding a transaction, spelled out. */
  lemma HolderIs(v: View, a: string, hash: string)
    ensures a in Holders(v, hash) <==> a in v.pools && (hash in v.pools[a] || a in v.onChain)
  {
  }

  lemma VerifyIs(c: Crypto, tx: Transaction)
    ensures Transactions.Verify(c, tx) <==>
      ContentOk(c, tx.content) && c.verifySignature(tx.hash, tx.signature, tx.content.senderPubKey)
  {
  }

  lemma RejectedSubmission(v: View, me: string, tx: Transaction)
    requires !Transactions.Verify(v.crypto, tx)
    ensures Submitted(v, me, tx, false, v, multiset{})
  {
  }

  lemma ChainHasIs(blocks: seq<Block>, hash: string)
    ensures ChainHas(blocks, hash) <==> exists i :: 0 <= i < |blocks| && Carries(blocks[i], hash)
  {
  }

  lemma ShowsNodes(net: map<string, BlockchainServer>, hash: string, v: View)
    requires Shows(net, hash, v)
    ensures net.Keys == v.pools.Keys == v.peers.Keys && DistinctPools(net)
    ensures forall a :: a in net ==> NodeShows(net[a], a, hash, v)
  {
  }

  /** Showing a view, put together node by node. */
  lemma ShowsAll(net: map<string, BlockchainServer>, hash: string, v: View)
    requires net.Keys == v.pools.Keys == v.peers.Keys && DistinctPools(net)
    requires forall a :: a in net ==> NodeShows(net[a], a, hash, v)
    ensures Shows(net, hash, v)
  {
  }

  lemma DeliverToOne(pools: Pools, me: string, tx: Transaction)
    requires me in pools
    ensures Deliver(pools, {me}, tx) == pools[me := pools[me][tx.hash := tx]]
  {
  }

  /** Passing a transaction on only adds holders and leaves the rest of the view alone. */
  lemma BroadcastKeeps(v: View, me: string, n: nat, tx: Transaction, w: View, log: Log)
    requires Broadcasted(v, me, n, tx, w, log)
    ensures w.crypto == v.crypto && w.peers == v.peers && w.onChain == v.onChain
    ensures Holders(v, tx.hash) <= Holders(w, tx.hash)
  {
  }

  ghost function PoolObjects(net: map<string, BlockchainServer>): set<object> {
    set a | a in net :: net[a].txPool
  }

  /** The node at `a` is as `v` says. */
  ghost predicate NodeShows(node: BlockchainServer, a: string, hash: string, v: View)
    requires a in v.pools && a in v.peers
    reads node.txPool, node.peerManager, node.blockchain
  {
    && node.blockchain.crypto == v.crypto
    && node.peerManager.peerClients == v.peers[a]
    && node.txPool.transactions == v.pools[a]
    && (a in v.onChain <==> ChainHas(node.blockchain.blocks, hash))
  }

  /** The nodes of `net` are as `v` says: they do not share pools, agree on the cryptography,
      have these peers and pools, and have a transaction of this hash in their chains or not. */
  ghost predicate Shows(net: map<string, BlockchainServer>, hash: string, v: View)
    reads set a | a in net :: net[a].txPool
    reads set a | a in net :: net[a].peerManager
    reads set a | a in net :: net[a].blockchain
  {
    && net.Keys == v.pools.Keys == v.peers.Keys
    && (forall a :: a in net ==> NodeShows(net[a], a, hash, v))
    && DistinctPools(net)
  }

  ghost predicate DistinctPools(net: map<string, BlockchainServer>) {
    forall a, b :: a in net && b in net && a != b ==> net[a].txPool != net[b].txPool
  }
}
