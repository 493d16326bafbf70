/** The chain a node keeps: blocks appended and truncated in place, with the ledger. */
module Chain {
  import opened Types
  import opened LedgerSpec
  import opened Ledger
  import opened Blocks
  import opened Difficulty
  import opened ChainSpec
  import opened Fork

  /** Whether a block carries a transaction with this hash. */
  predicate Carries(b: Block, txHash: string) {
    exists j :: 0 <= j < |b.transactions| && b.transactions[j].hash == txHash
  }

  /** Some block carries the hash exactly when it is that of one of the chain's transactions. */
  lemma {:induction false} CarriedIs(blocks: seq<Block>, txHash: string)
    ensures (exists i :: 0 <= i < |blocks| && Carries(blocks[i], txHash)) <==>
      exists t :: t in ChainTransactions(blocks) && t.hash == txHash
  {
    if blocks != [] {
      var front, b := blocks[..|blocks| - 1], blocks[|blocks| - 1];
      CarriedIs(front, txHash);
      if Carries(b, txHash) {
        var j :| 0 <= j < |b.transactions| && b.transactions[j].hash == txHash;
        assert b.transactions[j] in ChainTransactions(blocks);
      }
      if t :| t in ChainTransactions(blocks) && t.hash == txHash {
        if t in b.transactions {
          var j :| 0 <= j < |b.transactions| && b.transactions[j] == t;
          assert Carries(b, txHash);
        }
      }
      forall i | 0 <= i < |front| && Carries(front[i], txHash) ensures Carries(blocks[i], txHash) {
        assert front[i] == blocks[i];
      }
    }
  }

  method BlockCarries(b: Block, txHash: string) returns (r: bool)
    ensures r <==> Carries(b, txHash)
  {
    for j := 0 to |b.transactions|
      invariant forall k :: 0 <= k < j ==> b.transactions[k].hash != txHash
    {
      if b.transactions[j].hash == txHash {
        return true;
      }
    }
    return false;
  }

  function Reversed<T>(s: seq<T>): (r: seq<T>)
    ensures |r| == |s| && forall i :: 0 <= i < |r| ==> r[i] == s[|s| - 1 - i]
  {
    seq(|s|, i requires 0 <= i < |s| => s[|s| - 1 - i])
  }

  lemma ReversedStep<T>(s: seq<T>, x: T)
    ensures Reversed(s + [x]) == [x] + Reversed(s)
  {
  }

  lemma FetchedStep(incoming: seq<string>, i: nat, request: Oracle)
    requires i < |incoming|
    ensures Fetched(incoming, i, request) == [request(i, incoming[i])] + Fetched(incoming, i + 1, request)
  {
  }

  /** CreateBlock's outcomes; retargeting may divide by zero, which panics. */
  datatype Creation = Created(block: Block) | ContentInvalid | DivisionByZero

  /** The hash-to-height table built over the first blocks: each hash with its last height. */
  ghost predicate Indexes(m: map<string, nat>, blocks: seq<Block>) {
    forall h :: (h in m <==> LastIndexOf(blocks, h).Some?) && (h in m ==> Some(m[h]) == LastIndexOf(blocks, h))
  }

  lemma IndexOne(m: map<string, nat>, blocks: seq<Block>, b: Block)
    requires Indexes(m, blocks)
    ensures Indexes(m[b.hash := |blocks|], blocks + [b])
  {
  }

  /** The highest listed block is the common ancestor. */
  lemma {:induction false} AncestorIs(blocks: seq<Block>, incoming: seq<string>, k: Option<nat>)
    requires k.Some? ==> k.value < |blocks| && blocks[k.value].hash in incoming
    requires forall i :: (if k.Some? then k.value < i else 0 <= i) && i < |blocks| ==> blocks[i].hash !in incoming
    ensures AncestorIndex(blocks, incoming) == k
  {
  }

  /** The first block at which Blockchain.Verify finds something wrong. */
  ghost predicate FirstFault(c: Crypto, blocks: seq<Block>, i: nat)
    requires i < |blocks|
  {
    !BlockChecks(c, blocks, i) && forall j :: 0 <= j < i ==> BlockChecks(c, blocks, j)
  }

  /** Blockchain.Verify gets as far as the difficulty of block `i`, which cannot be computed. */
  ghost predicate Undivided(c: Crypto, blocks: seq<Block>, i: nat)
    requires i < |blocks|
  {
    && blocks[i].header.height == i
    && blocks[i].header.previousHash == (if i == 0 then "" else blocks[i - 1].hash)
    && DifficultyAt(c, blocks, i) == None
  }

  /** There is only one first fault, so the verdict there is the verdict. */
  lemma FirstFaultDecides(c: Crypto, blocks: seq<Block>, i: nat)
    requires i < |blocks| && FirstFault(c, blocks, i)
    ensures Undivided(c, blocks, i) <==>
      exists k :: 0 <= k < |blocks| && FirstFault(c, blocks, k) && Undivided(c, blocks, k)
  {
    hide BlockChecks, Undivided;
    forall k | 0 <= k < |blocks| && FirstFault(c, blocks, k) ensures k == i {
    }
  }

  class Blockchain {
    const crypto: Crypto
    const utxoSet: UTXOSet
    var blocks: seq<Block>

    ghost predicate Valid()
      reads this, utxoSet
    {
      utxoSet.crypto == crypto && utxoSet.Valid()
    }

    ghost function State(): ChainState
      reads this, utxoSet
    {
      ChainState(blocks, utxoSet.bag)
    }

    /** NewBlockchain: the initial coins, and a genesis block that never gets a hash. */
    constructor (crypto: Crypto, initialUTXOs: seq<UTXO>, now: int64)
      ensures Valid() && fresh(utxoSet) && this.crypto == crypto
      ensures utxoSet.bag == multiset(initialUTXOs)
      ensures |blocks| == 1 && blocks[0].transactions == [] && blocks[0].header.timestamp == now
      ensures Sound(crypto, blocks) && DifficultiesMatch(crypto, blocks) && ChainTransactions(blocks) == []
    {
      this.crypto := crypto;
      utxoSet := new UTXOSet(crypto);
      blocks := [];
      new;
      utxoSet.AddInOrder(initialUTXOs);
      var difficulty := GetDifficulty(crypto, blocks, 0);
      var genesis := NewBlock(crypto, "", 0, difficulty.value, [], now);
      blocks := [genesis.value];
      assert blocks[..0] == [];
    }

    method GetLastBlock() returns (r: Option<Block>)
      ensures r == if blocks == [] then None else Some(blocks[|blocks| - 1])
    {
      return if blocks == [] then None else Some(blocks[|blocks| - 1]);
    }

    method GetBlockByHash(hash: string) returns (r: Option<Block>)
      ensures r.Some? ==> exists i ::
        && 0 <= i < |blocks| && r.value == blocks[i] && blocks[i].hash == hash
        && forall k :: 0 <= k < i ==> blocks[k].hash != hash
      ensures r.None? ==> forall i :: 0 <= i < |blocks| ==> blocks[i].hash != hash
      ensures r == FirstWith(blocks, hash)
    {
      for i := 0 to |blocks|
        invariant forall k :: 0 <= k < i ==> blocks[k].hash != hash
      {
        if blocks[i].hash == hash {
          return Some(blocks[i]);
        }
      }
      return None;
    }

    /** Blockchain.Verify; no value when retargeting panics on the way. */
    method Verify() returns (ok: Option<bool>)
      ensures ok == Some(true) <==> forall i :: 0 <= i < |blocks| ==> BlockChecks(crypto, blocks, i)
      ensures ok != Some(true) ==> exists i :: 0 <= i < |blocks| && FirstFault(crypto, blocks, i)
      ensures ok == None <==> exists i ::
        0 <= i < |blocks| && FirstFault(crypto, blocks, i) && Undivided(crypto, blocks, i)
    {
      hide DifficultyAt, VerifyBlock;
      var previousHash := "";
      for i := 0 to |blocks|
        invariant forall j :: 0 <= j < i ==> BlockChecks(crypto, blocks, j)
        invariant previousHash == if i == 0 then "" else blocks[i - 1].hash
      {
        var block := blocks[i];
        if block.header.height != i || block.header.previousHash != previousHash {
          assert FirstFault(crypto, blocks, i);
          FirstFaultDecides(crypto, blocks, i);
          return Some(false);
        }
        previousHash := block.hash;
        var difficulty := GetDifficulty(crypto, blocks, i);
        if difficulty == None {
          assert FirstFault(crypto, blocks, i) && Undivided(crypto, blocks, i);
          return None;
        }
        var valid := CheckBlock(crypto, block);
        if block.header.difficulty != difficulty.value || !valid {
          assert FirstFault(crypto, blocks, i);
          FirstFaultDecides(crypto, blocks, i);
          return Some(false);
        }
        assert BlockChecks(crypto, blocks, i);
      }
      return Some(true);
    }

    /** The first block of the fork is not checked against anything; the link to the chain
        is supplied by the rollback to its parent. */
    method ValidateBlocks(fetched: seq<Option<Block>>) returns (v: Validation)
      ensures v == Validate(crypto, fetched, |fetched|)
    {
      hide VerifyBlock;
      var previousHash := if blocks == [] then "" else blocks[|blocks| - 1].hash;
      for i := 0 to |fetched|
        invariant Validate(crypto, fetched, i).AllValid?
        invariant i > 0 ==> fetched[i - 1].Some? && previousHash == fetched[i - 1].value.hash
      {
        if fetched[i].None? {
          assert Validate(crypto, fetched, i + 1).NilBlock?;
          FaultDecides(crypto, fetched, i + 1);
          return NilBlock;
        }
        var block := fetched[i].value;
        var valid := CheckBlock(crypto, block);
        if !valid || (i > 0 && block.header.previousHash != previousHash) {
          assert Validate(crypto, fetched, i + 1).Rejected?;
          FaultDecides(crypto, fetched, i + 1);
          return Rejected;
        }
        previousHash := block.hash;
      }
      return AllValid;
    }

    method HasTransaction(txHash: string) returns (r: bool)
      ensures r <==> exists i :: 0 <= i < |blocks| && Carries(blocks[i], txHash)
    {
      for i := 0 to |blocks|
        invariant forall k :: 0 <= k < i ==> !Carries(blocks[k], txHash)
      {
        r := BlockCarries(blocks[i], txHash);
        if r {
          return;
        }
      }
      return false;
    }

    /** One for the last block, two for the one before, and so on; -1 if nowhere. */
    method GetTransactionDepth(txHash: string) returns (depth: int)
      ensures depth == -1 || 1 <= depth <= |blocks|
      ensures depth == -1 <==> forall i :: 0 <= i < |blocks| ==> !Carries(blocks[i], txHash)
      ensures depth > 0 ==> Carries(blocks[|blocks| - depth], txHash)
      ensures depth > 0 ==> forall i :: |blocks| - depth < i < |blocks| ==> !Carries(blocks[i], txHash)
    {
      var i := |blocks| - 1;
      while i >= 0
        invariant -1 <= i < |blocks|
        invariant forall k :: i < k < |blocks| ==> !Carries(blocks[k], txHash)
      {
        var carries := BlockCarries(blocks[i], txHash);
        if carries {
          return |blocks| - i;
        }
        i := i - 1;
      }
      return -1;
    }

    method CreateBlock(txs: seq<Transaction>, now: int64) returns (r: Creation)
      ensures var previousHash := if blocks == [] then "" else blocks[|blocks| - 1].hash;
        r == match DifficultyAt(crypto, blocks, |blocks|)
             case None => DivisionByZero
             case Some(d) =>
               if ContentHash(crypto, txs).None? then ContentInvalid
               else Created(UnminedBlock(crypto, previousHash, |blocks|, d, txs, now))
    {
      hide DifficultyAt;
      var previousHash := if blocks != [] then blocks[|blocks| - 1].hash else "";
      var difficulty := GetDifficulty(crypto, blocks, |blocks|);
      if difficulty == None {
        return DivisionByZero;
      }
      var block := NewBlock(crypto, previousHash, |blocks|, difficulty.value, txs, now);
      return if block == None then ContentInvalid else Created(block.value);
    }

    method AddBlock(block: Block) returns (ok: bool)
      requires Valid()
      modifies this`blocks, utxoSet
      ensures Valid()
      ensures ok == AddBlockEffect(crypto, old(State()), block).ok
      ensures State() == ChainSpec.AddBlock(crypto, old(State()), block)
    {
      hide VerifyBlock, BlockEffect;
      assert After(utxoSet.bag, NO_EFFECT) == utxoSet.bag;
      ok := CheckBlock(crypto, block);
      if !ok {
        return;
      }
      if blocks != [] {
        var previousBlock := blocks[|blocks| - 1];
        if block.header.previousHash != previousBlock.hash || block.header.height != previousBlock.header.height + 1 {
          return false;
        }
      }
      ok := utxoSet.AddBlock(block.transactions);
      if ok {
        blocks := blocks + [block];
      }
    }

    /** Pops blocks until `toHash` is on top; if it never is, every block has been popped. */
    method RollbackToHash(toHash: string) returns (removed: Option<seq<Block>>)
      modifies this`blocks
      ensures removed.Some? ==> blocks + Reversed(removed.value) == old(blocks)
      ensures removed.Some? ==> LastIndexOf(old(blocks), toHash) == Some(|blocks| - 1)
      ensures removed.None? ==> blocks == [] && LastIndexOf(old(blocks), toHash) == None
    {
      var popped: seq<Block> := [];
      while |blocks| > 0
        invariant blocks + Reversed(popped) == old(blocks)
        invariant LastIndexOf(old(blocks), toHash) == LastIndexOf(blocks, toHash)
        decreases |blocks|
      {
        var lastBlock := blocks[|blocks| - 1];
        if lastBlock.hash == toHash {
          break;
        }
        ReversedStep(popped, lastBlock);
        popped := popped + [lastBlock];
        blocks := blocks[..|blocks| - 1];
      }
      if |blocks| == 0 || blocks[|blocks| - 1].hash != toHash {
        return None;
      }
      return Some(popped);
    }

    method GetLast100Hashes() returns (hashes: seq<string>)
      ensures hashes == Last100(blocks)
    {
      hashes := [];
      var start := if |blocks| > 100 then |blocks| - 100 else 0;
      for i := start to |blocks|
        invariant hashes == HashesOf(blocks[start..i])
      {
        assert blocks[start..i + 1] == blocks[start..i] + [blocks[i]];
        hashes := hashes + [blocks[i].hash];
      }
      assert blocks[start..|blocks|] == blocks[start..];
    }

    method FindCommonAncestor(incoming: seq<string>) returns (best: Option<nat>)
      ensures best == AncestorIndex(blocks, incoming)
    {
      hide LastIndexOf, AncestorIndex;
      var heights: map<string, nat> := map[];
      assert Indexes(heights, []);
      for i := 0 to |blocks|
        invariant Indexes(heights, blocks[..i])
      {
        assert blocks[..i + 1] == blocks[..i] + [blocks[i]];
        IndexOne(heights, blocks[..i], blocks[i]);
        heights := heights[blocks[i].hash := i];
      }
      assert blocks[..|blocks|] == blocks;
      best := None;
      var bestHeight := -1;
      for j := 0 to |incoming|
        invariant -1 <= bestHeight < |blocks|
        invariant best == if bestHeight < 0 then None else Some(bestHeight)
        invariant bestHeight >= 0 ==> blocks[bestHeight].hash in incoming
        invariant forall i :: bestHeight < i < |blocks| ==> blocks[i].hash !in incoming[..j]
      {
        var hash := incoming[j];
        assert hash in heights <==> LastIndexOf(blocks, hash).Some?;
        assert incoming[..j + 1] == incoming[..j] + [hash];
        if hash in heights && heights[hash] > bestHeight {
          bestHeight := heights[hash];
          best := Some(bestHeight);
        }
      }
      assert incoming[..|incoming|] == incoming;
      AncestorIs(blocks, incoming, best);
    }

    /** Asks for the listed blocks from the top down to `startHash`, then turns them round. */
    method RequestMissingBlocks(incoming: seq<string>, startHash: string,
          request: Oracle) returns (missing: seq<Option<Block>>)
      ensures missing == Fetched(incoming, MissingFrom(incoming, startHash), request)
    {
      hide Fetched, Reversed;
      var reversed: seq<Option<Block>> := [];
      assert incoming[..|incoming|] == incoming;
      var i := |incoming|;
      while i > 0
        invariant 0 <= i <= |incoming|
        invariant Reversed(reversed) == Fetched(incoming, i, request)
        invariant MissingFrom(incoming, startHash) == MissingFrom(incoming[..i], startHash)
      {
        if incoming[i - 1] == startHash {
          break;
        }
        i := i - 1;
        assert incoming[..i + 1][..i] == incoming[..i];
        FetchedStep(incoming, i, request);
        ReversedStep(reversed, request(i, incoming[i]));
        reversed := reversed + [request(i, incoming[i])];
      }
      missing := [];
      for k := 0 to |reversed|
        invariant missing == Reversed(reversed)[..k]
      {
        missing := missing + [reversed[|reversed| - k - 1]];
      }
    }

    method ReplaceWithFork(missing: seq<Block>) returns (outcome: ForkOutcome)
      modifies this`blocks
      ensures ForkResult(outcome, blocks) == Replace(old(blocks), missing)
    {
      if missing == [] {
        return NothingToReplace;
      }
      var removed := RollbackToHash(missing[0].header.previousHash);
      if removed == None {
        return ParentAbsent;
      }
      assert blocks == old(blocks)[..|blocks|];
      ghost var kept := blocks;
      for i := 0 to |missing|
        invariant blocks == kept + missing[..i]
      {
        blocks := blocks + [missing[i]];
      }
      return Adopted;
    }

    /** The ledger is left alone: it is not among what this modifies. */
    method HandleFork(incoming: seq<string>, request: Oracle) returns (outcome: ForkOutcome)
      requires Valid()
      modifies this`blocks
      ensures Valid() && utxoSet.bag == old(utxoSet.bag)
      ensures ForkResult(outcome, blocks) == Fork.HandleFork(crypto, old(blocks), incoming, request)
    {
      hide VerifyBlock, AncestorIndex, MissingFrom, Fetched, Last100;
      var ancestor := FindCommonAncestor(incoming);
      if ancestor == None {
        return NoAncestor;
      }
      var own := GetLast100Hashes();
      Last100Length(blocks);
      if |incoming| <= |own| {
        return OwnKept;
      }
      var fetched := RequestMissingBlocks(incoming, blocks[ancestor.value].hash, request);
      var v := ValidateBlocks(fetched);
      match v
      case NilBlock => return FetchCrashed;
      case Rejected => return ForkInvalid;
      case AllValid =>
        outcome := ReplaceWithFork(Values(fetched));
    }
  }

  /** Once a fault is found, later blocks do not matter. */
  lemma {:induction false} FaultDecides(c: Crypto, fetched: seq<Option<Block>>, n: nat)
    requires n <= |fetched| && !Validate(c, fetched, n).AllValid?
    ensures Validate(c, fetched, |fetched|) == Validate(c, fetched, n)
    decreases |fetched| - n
  {
    hide VerifyBlock;
    if n < |fetched| {
      FaultDecides(c, fetched, n + 1);
    }
  }
}
