/** A chain of blocks with its ledger: what holds of it, and what adding a block does. */
module ChainSpec {
  import opened Types
  import opened LedgerSpec
  import opened Blocks
  import opened Difficulty

  datatype ChainState = ChainState(blocks: seq<Block>, ledger: multiset<UTXO>)

  predicate Linked(blocks: seq<Block>) {
    forall i :: 1 <= i < |blocks| ==> blocks[i].header.previousHash == blocks[i - 1].hash
  }

  /** Every block above the genesis block verifies. */
  predicate VerifiedAbove(c: Crypto, blocks: seq<Block>) {
    forall i :: 1 <= i < |blocks| ==> VerifyBlock(c, blocks[i])
  }

  predicate HeightsMatch(blocks: seq<Block>) {
    forall i :: 0 <= i < |blocks| ==> blocks[i].header.height == i
  }

  /** A node's chain as long as it deals with honest peers: it starts from a genesis block,
      which never gets a hash, and is linked, numbered and verified from there. */
  predicate Sound(c: Crypto, blocks: seq<Block>) {
    && blocks != [] && blocks[0].hash == ""
    && HeightsMatch(blocks) && Linked(blocks) && VerifiedAbove(c, blocks)
  }

  /** Whether a block verifies and fits on top of the chain. */
  predicate Attaches(c: Crypto, blocks: seq<Block>, b: Block) {
    && VerifyBlock(c, b)
    && (blocks != [] ==>
          && b.header.previousHash == blocks[|blocks| - 1].hash
          && b.header.height == blocks[|blocks| - 1].header.height + 1)
  }

  function AddBlockEffect(c: Crypto, st: ChainState, b: Block): Effect {
    if Attaches(c, st.blocks, b) then BlockEffect(c, st.ledger, b.transactions) else NO_EFFECT
  }

  /** Blockchain.AddBlock: the block joins the chain only if the ledger took it whole, but
      the ledger keeps whatever a failing block did to it. */
  function AddBlock(c: Crypto, st: ChainState, b: Block): ChainState {
    var e := AddBlockEffect(c, st, b);
    ChainState(if e.ok then st.blocks + [b] else st.blocks, After(st.ledger, e))
  }

  /** Offering blocks one after the other, accepted or not. */
  function AddBlocks(c: Crypto, st: ChainState, offered: seq<Block>): ChainState
    decreases |offered|
  {
    if offered == [] then st else AddBlocks(c, AddBlock(c, st, offered[0]), offered[1..])
  }

  /** The first block with this hash. */
  function FirstWith(blocks: seq<Block>, hash: string): (r: Option<Block>)
    ensures r.None? <==> forall i :: 0 <= i < |blocks| ==> blocks[i].hash != hash
    ensures r.Some? ==> exists i ::
      && 0 <= i < |blocks| && r.value == blocks[i] && blocks[i].hash == hash
      && forall k :: 0 <= k < i ==> blocks[k].hash != hash
  {
    if blocks == [] then None
    else if blocks[0].hash == hash then Some(blocks[0])
    else
      assert forall i :: 0 < i < |blocks| ==> blocks[1..][i - 1] == blocks[i];
      FirstWith(blocks[1..], hash)
  }

  /** The transactions of a chain, in order. */
  function ChainTransactions(blocks: seq<Block>): seq<Transaction> {
    if blocks == [] then [] else ChainTransactions(blocks[..|blocks| - 1]) + blocks[|blocks| - 1].transactions
  }

  lemma AddBlockKeepsSound(c: Crypto, st: ChainState, b: Block)
    requires Sound(c, st.blocks)
    ensures Sound(c, AddBlock(c, st, b).blocks)
    ensures st.blocks <= AddBlock(c, st, b).blocks
  {
    hide VerifyBlock, BlockEffect, After;
    var longer := st.blocks + [b];
    forall i | 1 <= i < |longer| && Attaches(c, st.blocks, b)
      ensures longer[i].header.previousHash == longer[i - 1].hash && VerifyBlock(c, longer[i])
    {
    }
  }

  // --- Difficulty along a chain ------------------------------------------------

  /** Each block above genesis carries the difficulty the blocks before it call for. */
  predicate DifficultiesMatch(c: Crypto, blocks: seq<Block>) {
    forall i :: 1 <= i < |blocks| ==> DifficultyAt(c, blocks, i) == Some(blocks[i].header.difficulty)
  }

  /** Appending never changes a difficulty already due: it looks only backwards. */
  lemma DifficultyIsStable(c: Crypto, blocks: seq<Block>, b: Block, i: nat)
    requires i <= |blocks|
    ensures DifficultyAt(c, blocks + [b], i) == DifficultyAt(c, blocks, i)
  {
    if i > DYNAMIC_START {
      assert (blocks + [b])[i - 11..i] == blocks[i - 11..i];
    }
    DifficultyIsLocal(c, blocks + [b], blocks, i);
  }

  /** AddBlock itself never looks at the difficulty, so a chain stays self-consistent
      exactly when the accepted block happened to carry the one that is due. */
  lemma DifficultiesMatchIff(c: Crypto, blocks: seq<Block>, b: Block)
    requires blocks != []
    ensures DifficultiesMatch(c, blocks + [b]) <==>
      DifficultiesMatch(c, blocks) && DifficultyAt(c, blocks, |blocks|) == Some(b.header.difficulty)
  {
    hide DifficultyAt;
    var longer := blocks + [b];
    forall i | 0 <= i <= |blocks| ensures DifficultyAt(c, longer, i) == DifficultyAt(c, blocks, i) {
      DifficultyIsStable(c, blocks, b, i);
    }
    if DifficultiesMatch(c, longer) {
      forall i | 1 <= i < |blocks| ensures DifficultyAt(c, blocks, i) == Some(blocks[i].header.difficulty) {
        assert longer[i] == blocks[i];
      }
      assert longer[|blocks|] == b;
    }
  }

  /** What one step of mining appends: a block built by CreateBlock on this very chain, with
      a nonce that meets its target, and accepted by AddBlock. */
  predicate MinedOn(c: Crypto, st: ChainState, txs: seq<Transaction>, now: int64, nonce: int64) {
    && st.blocks != []
    && ContentHash(c, txs).Some?
    && DifficultyAt(c, st.blocks, |st.blocks|).Some?
    && var b := Candidate(c, st.blocks, txs, now, nonce);
       VerifyHash(c, b.header, b.hash) && AddBlockEffect(c, st, b).ok
  }

  /** CreateBlock followed by filling in a nonce. */
  function Candidate(c: Crypto, blocks: seq<Block>, txs: seq<Transaction>, now: int64, nonce: int64): Block
    requires blocks != [] && ContentHash(c, txs).Some? && DifficultyAt(c, blocks, |blocks|).Some?
  {
    var due := DifficultyAt(c, blocks, |blocks|).value;
    Mined(c, UnminedBlock(c, blocks[|blocks| - 1].hash, |blocks|, due, txs, now), nonce)
  }

  datatype Attempt = Attempt(txs: seq<Transaction>, now: int64, nonce: int64)

  /** A chain grown by mining alone. */
  ghost predicate Grown(c: Crypto, st: ChainState, attempts: seq<Attempt>, end: ChainState)
    decreases |attempts|
  {
    if attempts == [] then st == end else
    var a := attempts[0];
    && MinedOn(c, st, a.txs, a.now, a.nonce)
    && Grown(c, AddBlock(c, st, Candidate(c, st.blocks, a.txs, a.now, a.nonce)), attempts[1..], end)
  }

  /** In every state of every mining run, every block above genesis passes all the checks
      of Blockchain.Verify: height, link, difficulty and the block's own verification. */
  lemma {:induction false} GrownChainsAreConsistent(c: Crypto, st: ChainState, attempts: seq<Attempt>, end: ChainState)
    ensures Sound(c, st.blocks) && DifficultiesMatch(c, st.blocks) && Grown(c, st, attempts, end) ==>
      && Sound(c, end.blocks) && DifficultiesMatch(c, end.blocks)
      && |end.blocks| == |st.blocks| + |attempts| && st.blocks <= end.blocks
    decreases |attempts|
  {
    hide Sound, DifficultiesMatch, DifficultyAt;
    if attempts != [] && Sound(c, st.blocks) && Grown(c, st, attempts, end) {
      var a := attempts[0];
      var b := Candidate(c, st.blocks, a.txs, a.now, a.nonce);
      AddBlockKeepsSound(c, st, b);
      DifficultiesMatchIff(c, st.blocks, b);
      GrownChainsAreConsistent(c, AddBlock(c, st, b), attempts[1..], end);
    }
  }

  // --- Blockchain.Verify -------------------------------------------------------

  /** What Blockchain.Verify asks of block `i`. */
  predicate BlockChecks(c: Crypto, blocks: seq<Block>, i: nat)
    requires i < |blocks|
  {
    && blocks[i].header.height == i
    && blocks[i].header.previousHash == (if i == 0 then "" else blocks[i - 1].hash)
    && DifficultyAt(c, blocks, i) == Some(blocks[i].header.difficulty)
    && VerifyBlock(c, blocks[i])
  }

  /** Passing every check is being numbered, linked from nothing, verified throughout, and
      carrying at each height the difficulty due there. */
  lemma ChecksMean(c: Crypto, blocks: seq<Block>)
    ensures (forall i :: 0 <= i < |blocks| ==> BlockChecks(c, blocks, i)) <==>
      && HeightsMatch(blocks) && Linked(blocks) && (blocks != [] ==> blocks[0].header.previousHash == "")
      && (forall i :: 0 <= i < |blocks| ==> VerifyBlock(c, blocks[i]))
      && (forall i :: 0 <= i < |blocks| ==> DifficultyAt(c, blocks, i) == Some(blocks[i].header.difficulty))
  {
    hide DifficultyAt, VerifyBlock;
    if forall i :: 0 <= i < |blocks| ==> BlockChecks(c, blocks, i) {
      forall i | 0 <= i < |blocks| ensures blocks[i].header.height == i && VerifyBlock(c, blocks[i]) {
        assert BlockChecks(c, blocks, i);
      }
      forall i | 1 <= i < |blocks| ensures blocks[i].header.previousHash == blocks[i - 1].hash {
        assert BlockChecks(c, blocks, i);
      }
      forall i | 0 <= i < |blocks| ensures DifficultyAt(c, blocks, i) == Some(blocks[i].header.difficulty) {
        assert BlockChecks(c, blocks, i);
      }
      assert blocks != [] ==> BlockChecks(c, blocks, 0);
    }
  }

  /** On a sound chain the checks hold of block `i` above genesis exactly when it carries the
      difficulty that is due. */
  lemma ChecksAboveGenesis(c: Crypto, blocks: seq<Block>, i: nat)
    requires Sound(c, blocks) && 1 <= i < |blocks|
    ensures BlockChecks(c, blocks, i) <==> DifficultyAt(c, blocks, i) == Some(blocks[i].header.difficulty)
  {
    hide DifficultyAt, VerifyBlock;
  }

  /** And of the genesis block they never hold, because it has no hash. */
  lemma ChecksFailAtGenesis(c: Crypto, blocks: seq<Block>)
    requires blocks != [] && blocks[0].hash == "" && forall h: BlockHeader :: c.hashHeader(h) != ""
    ensures !BlockChecks(c, blocks, 0)
  {
    hide DifficultyAt;
  }
}
