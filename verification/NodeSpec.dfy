/** What a node does with a submitted block, and which mined blocks it can add. */
module NodeSpec {
  import opened Types
  import opened Transactions
  import opened LedgerSpec
  import opened Blocks
  import opened Difficulty
  import opened ChainSpec
  import opened Fork
  import opened ForkRuns
  import P = Peers

  /** The answer to a submitted block. An accepted or resolved block is passed on to peers;
      a crash is a nil dereference. */
  datatype Reply = Blacklisted | Invalid | NotAdded | Added | Duplicate | ForkFailed | ForkHandled | Crashed

  datatype Judgement = Judgement(reply: Reply, chain: ChainState, peers: P.PeerState)

  function ForkReply(outcome: ForkOutcome): Reply {
    match outcome
    case OwnKept => ForkHandled
    case Adopted => ForkHandled
    case FetchCrashed => Crashed
    case _ => ForkFailed
  }

  /** HandleBlockSubmission. */
  function Judge(c: Crypto, st: ChainState, peers: P.PeerState, b: Block, hashes: seq<string>, from: string,
        request: Oracle): Judgement {
    if P.Black(peers, from) then Judgement(Blacklisted, st, peers)
    else if !VerifyBlock(c, b) then Judgement(Invalid, st, P.Increment(peers, from))
    else if st.blocks == [] then Judgement(Crashed, st, peers)
    else if b.header.previousHash == st.blocks[|st.blocks| - 1].hash then
      Judgement(if AddBlockEffect(c, st, b).ok then Added else NotAdded, AddBlock(c, st, b), peers)
    else if b.hash in HashesOf(st.blocks) then Judgement(Duplicate, st, peers)
    else
      var r := Fork.HandleFork(c, st.blocks, hashes, request);
      Judgement(ForkReply(r.outcome), st.(blocks := r.blocks), peers)
  }

  /** A submission amounts to at most one step of adding a block or following a fork, so
      what holds of all runs of such steps holds of all runs of submissions. */
  lemma JudgementIsStep(c: Crypto, st: ChainState, peers: P.PeerState, b: Block,
        hashes: seq<string>, from: string, request: Oracle)
    ensures var j := Judge(c, st, peers, b, hashes, from, request);
      && (j.chain == st || j.chain == TakeStep(c, st, Offer(b)) || j.chain == TakeStep(c, st, Sync(hashes, request)))
      && (j.reply in {Blacklisted, Invalid, Duplicate} ==> j.chain == st)
      && (j.reply == Blacklisted <==> P.Black(peers, from))
      && (j.reply == Invalid <==> !P.Black(peers, from) && !VerifyBlock(c, b))
      && j.peers == if j.reply == Invalid then P.Increment(peers, from) else peers
  {
    hide VerifyBlock, AddBlockEffect, ChainSpec.AddBlock, Fork.HandleFork, HashesOf, P.Increment, P.Black;
  }

  datatype Submission = Submission(block: Block, hashes: seq<string>, from: string, request: Oracle)

  /** A node's chain and peers after a list of submissions. */
  function JudgeAll(c: Crypto, st: ChainState, peers: P.PeerState, subs: seq<Submission>): (ChainState, P.PeerState) {
    if subs == [] then (st, peers) else
    var (st', peers') := JudgeAll(c, st, peers, subs[..|subs| - 1]);
    var s := subs[|subs| - 1];
    var j := Judge(c, st', peers', s.block, s.hashes, s.from, s.request);
    (j.chain, j.peers)
  }

  /** In every run of submissions whose hash lists are no longer than they should be, a
      chain that has reached a hundred blocks is only ever extended. */
  lemma {:induction false} SubmissionsRespectFinality(c: Crypto, st: ChainState, peers: P.PeerState,
        subs: seq<Submission>, n: nat)
    requires forall i :: 0 <= i < |subs| ==> |subs[i].hashes| <= 100
    requires n <= |subs| && |JudgeAll(c, st, peers, subs[..n]).0.blocks| >= 100
    ensures JudgeAll(c, st, peers, subs[..n]).0.blocks <= JudgeAll(c, st, peers, subs).0.blocks
  {
    hide Judge, TakeStep;
    if n == |subs| {
      assert subs[..n] == subs;
    } else {
      var front, s := subs[..|subs| - 1], subs[|subs| - 1];
      assert front[..n] == subs[..n];
      SubmissionsRespectFinality(c, st, peers, front, n);
      var (st', peers') := JudgeAll(c, st, peers, front);
      JudgementIsStep(c, st', peers', s.block, s.hashes, s.from, s.request);
      ShortListsCannotReplace(c, st', Offer(s.block));
      ShortListsCannotReplace(c, st', Sync(s.hashes, s.request));
    }
  }

  // --- Counting invalid blocks ----------------------------------------------------

  /** No peer has been counted or blacklisted. */
  const FRESH_PEERS := P.PeerState(map[], map[])

  /** How many of the submissions come from `a` and do not verify. */
  function Unverified(c: Crypto, subs: seq<Submission>, a: string): nat {
    if subs == [] then 0 else
    var s := subs[|subs| - 1];
    Unverified(c, subs[..|subs| - 1], a) + if s.from == a && !VerifyBlock(c, s.block) then 1 else 0
  }

  lemma IncrementCounts(peers: P.PeerState, from: string, a: string)
    ensures P.Count(P.Increment(peers, from), a) == P.Count(peers, a) + if a == from then 1 else 0
    ensures P.Black(P.Increment(peers, from), a) <==>
      P.Black(peers, a) || (a == from && P.Count(peers, from) + 1 >= 3)
  {
  }

  /** The counts after any run of submissions, from fresh counters: each address is counted once
      for every unverified block it sent, up to the third, and is blacklisted exactly from the
      third on; what others send does not matter to it. */
  lemma {:induction false} StrikesAreCounted(c: Crypto, st: ChainState, subs: seq<Submission>, a: string)
    ensures var peers, n := JudgeAll(c, st, FRESH_PEERS, subs).1, Unverified(c, subs, a);
      && (if a in peers.invalidCount then peers.invalidCount[a] else 0) == Min(3, n)
      && ((a in peers.blacklisted && peers.blacklisted[a]) <==> n >= 3)
  {
    hide Judge, VerifyBlock, P.Increment;
    if subs != [] {
      var front, s := subs[..|subs| - 1], subs[|subs| - 1];
      StrikesAreCounted(c, st, front, a);
      StrikesAreCounted(c, st, front, s.from);
      var (st', peers') := JudgeAll(c, st, FRESH_PEERS, front);
      JudgementIsStep(c, st', peers', s.block, s.hashes, s.from, s.request);
      IncrementCounts(peers', s.from, a);
    }
  }

  /** So three unverified blocks are enough and needed: a further submission of any kind is
      refused as blacklisted, and changes nothing, exactly when its sender has sent three. */
  lemma {:induction false} ThreeStrikes(c: Crypto, st: ChainState, subs: seq<Submission>, s: Submission)
    ensures var (st', peers') := JudgeAll(c, st, FRESH_PEERS, subs);
      var j := Judge(c, st', peers', s.block, s.hashes, s.from, s.request);
      && (j.reply == Blacklisted <==> Unverified(c, subs, s.from) >= 3)
      && (j.reply == Blacklisted ==> j.chain == st' && j.peers == peers')
      && (j.reply == Invalid <==> Unverified(c, subs, s.from) < 3 && !VerifyBlock(c, s.block))
      && (j.reply == Invalid ==> j.chain == st')
  {
    hide Judge, VerifyBlock, Unverified, TakeStep;
    StrikesAreCounted(c, st, subs, s.from);
    var (st', peers') := JudgeAll(c, st, FRESH_PEERS, subs);
    JudgementIsStep(c, st', peers', s.block, s.hashes, s.from, s.request);
  }

  // --- Repeated and extending blocks -----------------------------------------------

  /** Submitting a block that is on the chain already changes nothing, whatever hash list comes
      with it. */
  lemma ResubmissionIsDuplicate(c: Crypto, st: ChainState, peers: P.PeerState, s: Submission, i: nat)
    requires HeaderHashesFaithful(c) && Sound(c, st.blocks) && i < |st.blocks| && s.block.hash == st.blocks[i].hash
    requires VerifyBlock(c, s.block) && !P.Black(peers, s.from)
    ensures Judge(c, st, peers, s.block, s.hashes, s.from, s.request) == Judgement(Duplicate, st, peers)
  {
    hide VerifyBlock, P.Black, P.Increment, Fork.HandleFork;
    SameHashSameHeader(c, s.block, s.block);
    assert HashesOf(st.blocks)[i] == s.block.hash;
    OnSoundChain(c, st.blocks, i);
    SameHashSameHeader(c, s.block, st.blocks[i]);
    if st.blocks[i - 1].hash == st.blocks[|st.blocks| - 1].hash {
      SharedPrefix(c, st.blocks, st.blocks, i - 1, |st.blocks| - 1);
    }
  }

  lemma OnSoundChain(c: Crypto, blocks: seq<Block>, i: nat)
    requires Sound(c, blocks) && i < |blocks| && blocks[i].hash != ""
    ensures i > 0 && VerifyBlock(c, blocks[i]) && blocks[i].header.previousHash == blocks[i - 1].hash
  {
    hide VerifyBlock;
  }

  /** A verified block for the top of a numbered chain, from a peer in good standing, is added
      exactly when it has the next height, each transaction passes the check on the ledger, and
      each is funded in its turn; otherwise the chain stays. */
  lemma ExtensionIsAddedIff(c: Crypto, st: ChainState, peers: P.PeerState, s: Submission)
    requires st.blocks != [] && VerifyBlock(c, s.block) && !P.Black(peers, s.from)
    requires s.block.header.previousHash == st.blocks[|st.blocks| - 1].hash
    ensures var j := Judge(c, st, peers, s.block, s.hashes, s.from, s.request);
      && j.reply in {Added, NotAdded} && j.peers == peers
      && (j.reply == Added <==>
            && s.block.header.height == st.blocks[|st.blocks| - 1].header.height + 1
            && AllCheck(c, st.ledger, s.block.transactions) && Funded(st.ledger, s.block.transactions))
      && j.chain.blocks == st.blocks + (if j.reply == Added then [s.block] else [])
      && (j.reply == Added ==>
            j.chain.ledger == st.ledger + Outs(s.block.transactions) - Ins(s.block.transactions))
  {
    hide VerifyBlock, P.Black, P.Increment, Fork.HandleFork, BlockEffect, AllCheck, Funded;
    BlockAcceptance(c, st.ledger, s.block.transactions);
  }

  /** The fork is long enough to be fetched, and the first block that fails is a missing one. */
  ghost predicate FetchCrashes(c: Crypto, blocks: seq<Block>, incoming: seq<string>, request: Oracle) {
    && LongEnough(blocks, incoming)
    && var fetched := MissingBlocks(blocks, incoming, request);
       exists i :: 0 <= i < |fetched| && FailsAt(c, fetched, i) && fetched[i].None?
  }

  /** A verified new block that does not fit on top, from a peer in good standing: what becomes
      of the chain and which answer it gets, from the inputs. The chain is replaced from the
      fork's parent on exactly when the fork is ready to replace it, and lost if that parent is
      not on it; the submission counts as handled, and is passed on, exactly when the fork was
      adopted or did not win; a missing block crashes. */
  lemma ForkSubmissionCases(c: Crypto, st: ChainState, peers: P.PeerState, s: Submission)
    requires st.blocks != [] && VerifyBlock(c, s.block) && !P.Black(peers, s.from)
    requires s.block.header.previousHash != st.blocks[|st.blocks| - 1].hash && s.block.hash !in HashesOf(st.blocks)
    ensures var j := Judge(c, st, peers, s.block, s.hashes, s.from, s.request);
      var ready := ReadyToReplace(c, st.blocks, s.hashes, s.request);
      var found := AncestorIndex(st.blocks, s.hashes).Some?;
      && j.chain.ledger == st.ledger && j.peers == peers
      && (j.reply == ForkHandled <==>
            || (ready && ForkParent(c, st.blocks, s.hashes, s.request) in HashesOf(st.blocks))
            || (found && |s.hashes| <= Min(100, |st.blocks|)))
      && (j.reply == Crashed <==> FetchCrashes(c, st.blocks, s.hashes, s.request))
      && j.reply in {ForkHandled, ForkFailed, Crashed}
      && (!ready ==> j.chain == st)
      && (ready && j.reply == ForkHandled ==> exists k ::
            var parent := ForkParent(c, st.blocks, s.hashes, s.request);
            Spliced(st.blocks, parent, MissingBlocks(st.blocks, s.hashes, s.request), j.chain.blocks, k))
      && (ready && j.reply == ForkFailed ==> j.chain.blocks == [])
  {
    hide VerifyBlock, P.Black, P.Increment, Fork.HandleFork, HashesOf, ReadyToReplace, ForkParent, MissingBlocks;
    hide Spliced, AncestorIndex, FailsAt, AddBlockEffect;
    ForkResultCases(c, st.blocks, s.hashes, s.request);
    ForkFailureCases(c, st.blocks, s.hashes, s.request);
    if ReadyToReplace(c, st.blocks, s.hashes, s.request) {
      ReadyIsLong(c, st.blocks, s.hashes, s.request);
    }
  }

  lemma ReadyIsLong(c: Crypto, blocks: seq<Block>, incoming: seq<string>, request: Oracle)
    requires ReadyToReplace(c, blocks, incoming, request)
    ensures LongEnough(blocks, incoming)
    ensures var fetched := MissingBlocks(blocks, incoming, request);
      forall i :: 0 <= i < |fetched| ==> !FailsAt(c, fetched, i)
  {
  }

  /** A node that has lost its chain crashes on every verified block from a peer in good
      standing, and stays as it is, so it never recovers by submissions. */
  lemma {:induction false} LostChainIsForGood(c: Crypto, st: ChainState, peers: P.PeerState, subs: seq<Submission>,
        s: Submission)
    requires st.blocks == []
    ensures var (st', peers') := JudgeAll(c, st, peers, subs);
      && st' == st
      && (VerifyBlock(c, s.block) && !P.Black(peers', s.from) ==>
            Judge(c, st', peers', s.block, s.hashes, s.from, s.request) == Judgement(Crashed, st, peers'))
  {
    hide VerifyBlock, P.Black, P.Increment;
    if subs != [] {
      LostChainIsForGood(c, st, peers, subs[..|subs| - 1], subs[|subs| - 1]);
    }
  }

  // --- Mining ------------------------------------------------------------------

  /** No coin is listed twice. */
  ghost predicate DistinctCoins(coins: seq<UTXO>) {
    forall u :: multiset(coins)[u] <= 1
  }

  lemma CandidateVerifies(c: Crypto, blocks: seq<Block>, txs: seq<Transaction>, now: int64,
        nonce: int64)
    requires blocks != [] && ContentHash(c, txs).Some? && DifficultyAt(c, blocks, |blocks|).Some?
    requires var b := Candidate(c, blocks, txs, now, nonce); VerifyHash(c, b.header, b.hash)
    ensures VerifyBlock(c, Candidate(c, blocks, txs, now, nonce))
    ensures HeightsMatch(blocks) ==> Attaches(c, blocks, Candidate(c, blocks, txs, now, nonce))
    ensures Candidate(c, blocks, txs, now, nonce).transactions == txs
  {
  }

  /** A block of one transaction takes effect exactly as that transaction does. */
  lemma SingleTransaction(c: Crypto, bag: multiset<UTXO>, t: Transaction)
    ensures BlockEffect(c, bag, [t]).ok <==> Verify(c, t) && multiset(t.content.inputs) <= bag
  {
    hide Verify, TransactionEffect, Outputs;
    TransactionAcceptance(c, bag, t);
    var e := TransactionEffect(c, bag, t);
    assert [t][1..] == [] && [t][0] == t;
    assert ApplyAll(c, bag, [t]) == if !e.ok then e else Then(e, ApplyAll(c, After(bag, e), []));
    if multiset(t.content.inputs) <= bag {
      ContainedIsPresent(bag, t);
    }
    assert AllCheck(c, bag, [t]) <==> CheckTransaction(c, bag, t) by {
      assert [t][0] == t;
    }
  }

  /** A block mined on this chain from one transaction that passes the ledger's check, with
      a nonce that meets the target, is accepted by AddBlock exactly when the ledger holds
      the inputs with their multiplicity; so always when no coin is listed twice. */
  lemma MinedBlockAccepted(c: Crypto, st: ChainState, t: Transaction, now: int64, nonce: int64)
    requires st.blocks != [] && HeightsMatch(st.blocks)
    requires CheckTransaction(c, st.ledger, t) && ContentHash(c, [t]).Some?
    requires DifficultyAt(c, st.blocks, |st.blocks|).Some?
    requires var b := Candidate(c, st.blocks, [t], now, nonce); VerifyHash(c, b.header, b.hash)
    ensures var b := Candidate(c, st.blocks, [t], now, nonce);
      && (AddBlockEffect(c, st, b).ok <==> multiset(t.content.inputs) <= st.ledger)
      && (DistinctCoins(t.content.inputs) ==> AddBlockEffect(c, st, b).ok)
  {
    hide Verify, ContentHash, DifficultyAt, Attaches, BlockEffect, Candidate, VerifyHash;
    CandidateVerifies(c, st.blocks, [t], now, nonce);
    SingleTransaction(c, st.ledger, t);
    if DistinctCoins(t.content.inputs) {
      forall u ensures multiset(t.content.inputs)[u] <= st.ledger[u] {
        if u in multiset(t.content.inputs) {
          assert u in t.content.inputs;
        }
      }
    }
  }

  /** What the mining loop works on: a candidate made on the chain of `st` from one transaction
      that passed the ledger's check then, with the hash just computed for it. */
  ghost predicate WorksOn(c: Crypto, st: ChainState, block: Block, hash: string, now: int64, nonce: int64) {
    var txs := block.transactions;
    && |txs| == 1 && CheckTransaction(c, st.ledger, txs[0])
    && st.blocks != [] && ContentHash(c, txs).Some? && DifficultyAt(c, st.blocks, |st.blocks|).Some?
    && block.(hash := hash) == Candidate(c, st.blocks, txs, now, nonce)
  }

  /** The chain has reached the height of the block in work. */
  predicate CaughtUp(blocks: seq<Block>, block: Block) {
    blocks != [] && block.header.height <= blocks[|blocks| - 1].header.height
  }

  /** Against honest peers the miner's comparison of heights is enough to notice that the chain
      has changed under it: the chain has not caught up with the found block exactly when it is
      the one the block was made on, however many blocks and forks came in between. Then it
      fits on top, and is added exactly when the ledger of the moment still holds the inputs. */
  lemma {:induction false} HeightTellsStale(c: Crypto, st: ChainState, steps: seq<Step>, block: Block, hash: string,
        now: int64, nonce: int64)
    requires HeaderHashesFaithful(c) && Sound(c, st.blocks) && forall i :: 0 <= i < |steps| ==> HonestStep(c, steps[i])
    requires WorksOn(c, st, block, hash, now, nonce) && VerifyHash(c, block.header, hash)
    ensures var end, found := TakeSteps(c, st, steps), block.(hash := hash);
      && end.blocks != []
      && (!CaughtUp(end.blocks, found) <==> end.blocks == st.blocks)
      && (end.blocks == st.blocks ==>
            && Attaches(c, end.blocks, found)
            && (AddBlockEffect(c, end, found).ok <==> multiset(block.transactions[0].content.inputs) <= end.ledger))
  {
    hide Verify, ContentHash, DifficultyAt, HonestStep, TakeSteps, BlockEffect, VerifyHash, VerifyBlock;
    var end := TakeSteps(c, st, steps);
    HonestRunsGrow(c, st, steps, 0);
    HonestChangesGrow(c, st, steps);
    var t := block.transactions[0];
    assert block.transactions == [t];
    CandidateVerifies(c, st.blocks, [t], now, nonce);
    SingleTransaction(c, end.ledger, t);
  }

  // --- Passing blocks on -----------------------------------------------------------

  /** A block submission as it is sent to one peer. */
  datatype BlockMessage = BlockMessage(receiver: string, block: Block, hashes: seq<string>)

  /** A valid block on a fork that does not win: it is neither for the top of the chain nor on
      it, and its list mentions one of our blocks and is no longer than ours. */
  predicate LosesFork(c: Crypto, st: ChainState, peers: P.PeerState, s: Submission) {
    && !P.Black(peers, s.from) && VerifyBlock(c, s.block) && st.blocks != []
    && s.block.header.previousHash != st.blocks[|st.blocks| - 1].hash && s.block.hash !in HashesOf(st.blocks)
    && AncestorIndex(st.blocks, s.hashes).Some? && |s.hashes| <= Min(100, |st.blocks|)
  }

  lemma LosingForkOnce(c: Crypto, st: ChainState, peers: P.PeerState, s: Submission)
    requires LosesFork(c, st, peers, s)
    ensures Judge(c, st, peers, s.block, s.hashes, s.from, s.request) == Judgement(ForkHandled, st, peers)
  {
    hide VerifyBlock, AncestorIndex, P.Black, HashesOf, P.Increment;
  }

  /** Such a block is echoed: the submission counts as handled, so it is passed on to every
      peer, and the state stays as it is, so every further receipt of it is passed on again.
      Unlike transactions, blocks carry nothing that ends their gossip. */
  lemma {:induction false} LosingForkIsEchoed(c: Crypto, st: ChainState, peers: P.PeerState, s: Submission, n: nat)
    requires LosesFork(c, st, peers, s)
    ensures var (st', peers') := JudgeAll(c, st, peers, seq(n, i => s));
      && st' == st && peers' == peers
      && Judge(c, st', peers', s.block, s.hashes, s.from, s.request).reply == ForkHandled
  {
    hide LosesFork, Judge;
    var subs: seq<Submission> := seq(n, i => s);
    LosingForkOnce(c, st, peers, s);
    if n > 0 {
      LosingForkIsEchoed(c, st, peers, s, n - 1);
      assert subs[..n - 1] == seq(n - 1, i => s);
    }
  }
}
