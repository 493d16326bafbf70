/** Block hashes, proof of work and block verification. */
module Blocks {
  import opened Types
  import opened Transactions
  import opened LedgerSpec
  import opened Hex

  /** The transaction hashes, written one after the other. */
  function JoinHashes(txs: seq<Transaction>): string {
    if txs == [] then "" else JoinHashes(txs[..|txs| - 1]) + txs[|txs| - 1].hash
  }

  /** The content hash commits to the transactions' hashes; it exists only if every
      transaction is hashed and verifies. */
  function ContentHash(c: Crypto, txs: seq<Transaction>): Option<string> {
    if AllVerify(c, txs) && (forall i :: 0 <= i < |txs| ==> txs[i].hash != "")
    then Some(c.hashString(JoinHashes(txs))) else None
  }

  method CalculateContentHash(c: Crypto, txs: seq<Transaction>) returns (r: Option<string>)
    ensures r == ContentHash(c, txs)
  {
    hide ContentOk;
    var joined := "";
    for i := 0 to |txs|
      invariant forall k :: 0 <= k < i ==> txs[k].hash != "" && Verify(c, txs[k])
      invariant joined == JoinHashes(txs[..i])
    {
      if txs[i].hash == "" {
        return None;
      }
      var contentOk := VerifyContent(c, txs[i].content);
      if !contentOk || !c.verifySignature(txs[i].hash, txs[i].signature, txs[i].content.senderPubKey) {
        return None;
      }
      assert txs[..i + 1][..i] == txs[..i];
      joined := joined + txs[i].hash;
    }
    assert txs[..|txs|] == txs;
    return Some(c.hashString(joined));
  }

  /** The hash, read as a number, is below the header's difficulty. */
  predicate VerifyHash(c: Crypto, h: BlockHeader, hash: string) {
    BigOf(c, hash) < BigOf(c, h.difficulty)
  }

  predicate VerifyBlock(c: Crypto, b: Block) {
    && ContentHash(c, b.transactions) == Some(b.header.contentHash)
    && c.hashHeader(b.header) == b.hash
    && VerifyHash(c, b.header, b.hash)
  }

  /** Block.Verify. */
  method CheckBlock(c: Crypto, b: Block) returns (ok: bool)
    ensures ok == VerifyBlock(c, b)
  {
    var contentHash := CalculateContentHash(c, b.transactions);
    if contentHash == None || contentHash.value != b.header.contentHash {
      return false;
    }
    var hash := c.hashHeader(b.header);
    if hash != b.hash {
      return false;
    }
    return VerifyHash(c, b.header, hash);
  }

  /** NewBlock at time `now`; the block has no hash of its own yet. */
  method NewBlock(c: Crypto, previousHash: string, height: int, difficulty: string, txs: seq<Transaction>,
        now: int64) returns (r: Option<Block>)
    ensures r.Some? <==> ContentHash(c, txs).Some?
    ensures r.Some? ==> r.value == UnminedBlock(c, previousHash, height, difficulty, txs, now)
  {
    var contentHash := CalculateContentHash(c, txs);
    match contentHash
    case None => return None;
    case Some(h) => return Some(Block(BlockHeader(now, previousHash, h, height, difficulty, 0), txs, ""));
  }

  function UnminedBlock(c: Crypto, previousHash: string, height: int, difficulty: string, txs: seq<Transaction>,
        now: int64): Block
    requires ContentHash(c, txs).Some?
  {
    Block(BlockHeader(now, previousHash, ContentHash(c, txs).value, height, difficulty, 0), txs, "")
  }

  /** Filling in a nonce and the matching hash. */
  function Mined(c: Crypto, b: Block, nonce: int64): Block {
    var h := b.header.(nonce := nonce);
    b.(header := h, hash := c.hashHeader(h))
  }

  /** With collision-free hashing, two verified blocks with one hash have one header, so
      they agree on parent, height, difficulty and content hash. */
  lemma SameHashSameHeader(c: Crypto, a: Block, b: Block)
    requires HeaderHashesFaithful(c) && VerifyBlock(c, a) && VerifyBlock(c, b)
    ensures a.hash != ""
    ensures a.hash == b.hash <==> a.header == b.header
  {
  }

  /** The hashes of a list of transactions. */
  function TransactionHashes(txs: seq<Transaction>): seq<string> {
    seq(|txs|, i requires 0 <= i < |txs| => txs[i].hash)
  }

  /** The lists have the same number of transactions, and hashes of the same lengths. */
  ghost predicate SameLengths(a: seq<Transaction>, b: seq<Transaction>) {
    |a| == |b| && forall i :: 0 <= i < |a| ==> |a[i].hash| == |b[i].hash|
  }

  /** Exactly when two lists with one concatenation are the same list of hashes. */
  lemma {:induction false} JoinDeterminesIff(a: seq<Transaction>, b: seq<Transaction>)
    requires JoinHashes(a) == JoinHashes(b)
    ensures TransactionHashes(a) == TransactionHashes(b) <==> SameLengths(a, b)
  {
    if SameLengths(a, b) {
      if a != [] {
        var x, y := a[|a| - 1].hash, b[|b| - 1].hash;
        var j := JoinHashes(a);
        assert j[|j| - |x|..] == x && j[|j| - |x|..] == y;
        assert j[..|j| - |x|] == JoinHashes(a[..|a| - 1]) && j[..|j| - |x|] == JoinHashes(b[..|b| - 1]);
        JoinDeterminesIff(a[..|a| - 1], b[..|b| - 1]);
        assert TransactionHashes(a) == TransactionHashes(a[..|a| - 1]) + [x];
        assert TransactionHashes(b) == TransactionHashes(b[..|b| - 1]) + [y];
      }
    } else if TransactionHashes(a) == TransactionHashes(b) {
      assert |a| == |TransactionHashes(a)| == |TransactionHashes(b)| == |b|;
      forall i | 0 <= i < |a| ensures |a[i].hash| == |b[i].hash| {
        assert TransactionHashes(a)[i] == TransactionHashes(b)[i];
      }
    }
  }

  /** What a block hash commits to: with collision-free hashing, two verified blocks with one
      hash carry the same transaction hashes in the same order exactly when they have as many
      transactions with hashes of the same lengths. */
  lemma BlockHashCommits(c: Crypto, a: Block, b: Block)
    requires HeaderHashesFaithful(c) && StringHashesFaithful(c)
    requires VerifyBlock(c, a) && VerifyBlock(c, b) && a.hash == b.hash
    ensures TransactionHashes(a.transactions) == TransactionHashes(b.transactions)
      <==> SameLengths(a.transactions, b.transactions)
  {
    SameHashSameHeader(c, a, b);
    assert c.hashString(JoinHashes(a.transactions)) == c.hashString(JoinHashes(b.transactions));
    JoinDeterminesIff(a.transactions, b.transactions);
  }

  lemma {:induction false} JoinLength(txs: seq<Transaction>, n: nat)
    requires forall i :: 0 <= i < |txs| ==> |txs[i].hash| == n
    ensures |JoinHashes(txs)| == |txs| * n
  {
    if txs != [] {
      var m := |txs| - 1;
      JoinLength(txs[..m], n);
      assert (m + 1) * n == m * n + n;
    }
  }

  /** In particular when all those hashes have one length, as SHA-256 gives them. */
  lemma FixedLengthCommits(c: Crypto, a: Block, b: Block, n: nat)
    requires HeaderHashesFaithful(c) && StringHashesFaithful(c) && n > 0
    requires VerifyBlock(c, a) && VerifyBlock(c, b) && a.hash == b.hash
    requires forall i :: 0 <= i < |a.transactions| ==> |a.transactions[i].hash| == n
    requires forall i :: 0 <= i < |b.transactions| ==> |b.transactions[i].hash| == n
    ensures TransactionHashes(a.transactions) == TransactionHashes(b.transactions)
  {
    BlockHashCommits(c, a, b);
    SameHashSameHeader(c, a, b);
    assert c.hashString(JoinHashes(a.transactions)) == c.hashString(JoinHashes(b.transactions));
    JoinLength(a.transactions, n);
    JoinLength(b.transactions, n);
    SameProduct(|a.transactions|, |b.transactions|, n);
  }

  lemma SameProduct(x: nat, y: nat, n: nat)
    requires n > 0 && x * n == y * n
    ensures x == y
  {
  }

  /** Nothing checks those lengths, and without them the commitment is ambiguous: a verified
      block of two transactions stays verified, under the same hash, when they are replaced by
      one verified transaction whose hash is theirs joined. */
  lemma JoinIsAmbiguous(c: Crypto, b: Block, z: Transaction)
    requires VerifyBlock(c, b) && |b.transactions| == 2
    requires Verify(c, z) && z.hash == b.transactions[0].hash + b.transactions[1].hash
    ensures var other := b.(transactions := [z]);
      && VerifyBlock(c, other) && other.hash == b.hash
      && TransactionHashes(other.transactions) != TransactionHashes(b.transactions)
  {
    hide Verify, VerifyHash;
    JoinTwo(b.transactions);
    JoinTwo([z]);
    assert |TransactionHashes([z])| == 1 && |TransactionHashes(b.transactions)| == 2;
  }

  lemma {:induction false} JoinTwo(txs: seq<Transaction>)
    ensures |txs| == 1 ==> JoinHashes(txs) == txs[0].hash
    ensures |txs| == 2 ==> JoinHashes(txs) == txs[0].hash + txs[1].hash
  {
    if |txs| == 1 {
      assert txs[..0] == [];
      assert JoinHashes(txs[..0]) == "" && "" + txs[0].hash == txs[0].hash;
    } else if |txs| == 2 {
      JoinTwo(txs[..1]);
    }
  }
}
