/** What verification guarantees of every block a node ever holds above its first, in every
    run and from any peers: its proof of work, its hashes, and its transactions' signatures. */
module Work {
  import opened Types
  import opened Transactions
  import opened LedgerSpec
  import opened Hex
  import opened Blocks
  import opened Difficulty
  import opened ChainSpec
  import opened Fork
  import opened ForkRuns
  import N = NodeSpec
  import Net = Network
  import P = Peers

  /** The block's hash is that of its header and, as a number, below the target in it. */
  predicate Worked(c: Crypto, b: Block) {
    b.hash == c.hashHeader(b.header) && BigOf(c, b.hash) < BigOf(c, b.header.difficulty)
  }

  /** The content hash in the header is that of the joined transaction hashes, and every
      transaction has a hash, a signature that verifies over it, and only inputs of its sender. */
  predicate Committed(c: Crypto, b: Block) {
    && b.header.contentHash == c.hashString(JoinHashes(b.transactions))
    && forall t :: t in b.transactions ==>
         && t.hash != "" && c.verifySignature(t.hash, t.signature, t.content.senderPubKey)
         && forall u :: u in t.content.inputs ==> u.address == c.keyToAddr(t.content.senderPubKey)
  }

  lemma VerifiedIsWorked(c: Crypto, b: Block)
    requires VerifyBlock(c, b)
    ensures Worked(c, b) && Committed(c, b)
  {
    forall t | t in b.transactions ensures t.hash != "" && Verify(c, t) {
      var i :| 0 <= i < |b.transactions| && b.transactions[i] == t;
    }
  }

  /** A block without enough work, or with another hash than its header's, never verifies, so
      it joins no chain by AddBlock. */
  lemma UnworkedIsRefused(c: Crypto, st: ChainState, b: Block)
    requires !Worked(c, b) || !Committed(c, b)
    ensures !VerifyBlock(c, b) && AddBlock(c, st, b) == st
  {
    hide VerifyBlock;
    if VerifyBlock(c, b) { VerifiedIsWorked(c, b); }
    assert After(st.ledger, NO_EFFECT) == st.ledger;
  }

  ghost predicate AllWorked(c: Crypto, blocks: seq<Block>) {
    forall i :: 1 <= i < |blocks| ==> Worked(c, blocks[i]) && Committed(c, blocks[i])
  }

  lemma VerifiedAreWorked(c: Crypto, blocks: seq<Block>)
    requires VerifiedAbove(c, blocks)
    ensures AllWorked(c, blocks)
  {
    hide VerifyBlock;
    forall i | 1 <= i < |blocks| ensures Worked(c, blocks[i]) && Committed(c, blocks[i]) {
      VerifiedIsWorked(c, blocks[i]);
    }
  }

  /** With the difficulty due in each header, each hash is below the difficulty due. */
  lemma DueIsMet(c: Crypto, blocks: seq<Block>, i: nat)
    requires AllWorked(c, blocks) && DifficultiesMatch(c, blocks) && 1 <= i < |blocks|
    ensures DifficultyAt(c, blocks, i).Some?
    ensures BigOf(c, blocks[i].hash) < BigOf(c, DifficultyAt(c, blocks, i).value)
  {
    hide DifficultyAt;
    assert Worked(c, blocks[i]);
  }

  lemma StepKeepsVerified(c: Crypto, st: ChainState, s: Step)
    requires Linked(st.blocks) && VerifiedAbove(c, st.blocks)
    ensures Linked(TakeStep(c, st, s).blocks) && VerifiedAbove(c, TakeStep(c, st, s).blocks)
  {
    hide VerifyBlock, BlockEffect, HandleFork;
    match s {
      case Offer(b) =>
        var longer := TakeStep(c, st, s).blocks;
        forall i | 1 <= i < |longer|
          ensures longer[i].header.previousHash == longer[i - 1].hash && VerifyBlock(c, longer[i])
        {
        }
      case Sync(incoming, request) => ForkKeepsLinks(c, st.blocks, incoming, request);
    }
  }

  lemma {:induction false} StepsKeepVerified(c: Crypto, st: ChainState, steps: seq<Step>)
    requires Linked(st.blocks) && VerifiedAbove(c, st.blocks)
    ensures Linked(TakeSteps(c, st, steps).blocks) && VerifiedAbove(c, TakeSteps(c, st, steps).blocks)
  {
    hide Linked, VerifiedAbove, TakeStep;
    if steps != [] {
      StepsKeepVerified(c, st, steps[..|steps| - 1]);
      StepKeepsVerified(c, TakeSteps(c, st, steps[..|steps| - 1]), steps[|steps| - 1]);
    }
  }

  /** In every state of every run, with any blocks offered, any forks and any peers, every block
      above the first has done its work and is committed to its signed transactions. */
  lemma {:induction false} RunsAreWorked(c: Crypto, st: ChainState, steps: seq<Step>)
    requires Linked(st.blocks) && VerifiedAbove(c, st.blocks)
    ensures AllWorked(c, TakeSteps(c, st, steps).blocks)
  {
    hide Linked, VerifiedAbove, TakeSteps, AllWorked;
    StepsKeepVerified(c, st, steps);
    VerifiedAreWorked(c, TakeSteps(c, st, steps).blocks);
  }

  lemma {:induction false} SubmissionsKeepVerified(c: Crypto, st: ChainState, peers: P.PeerState,
        subs: seq<N.Submission>)
    requires Linked(st.blocks) && VerifiedAbove(c, st.blocks)
    ensures var end := N.JudgeAll(c, st, peers, subs).0.blocks; Linked(end) && VerifiedAbove(c, end)
  {
    hide Linked, VerifiedAbove, TakeStep, N.Judge;
    if subs != [] {
      var front, s := subs[..|subs| - 1], subs[|subs| - 1];
      SubmissionsKeepVerified(c, st, peers, front);
      var (st', peers') := N.JudgeAll(c, st, peers, front);
      N.JudgementIsStep(c, st', peers', s.block, s.hashes, s.from, s.request);
      StepKeepsVerified(c, st', Offer(s.block));
      StepKeepsVerified(c, st', Sync(s.hashes, s.request));
    }
  }

  /** The same for every run of submitted blocks at a node. */
  lemma {:induction false} SubmissionsAreWorked(c: Crypto, st: ChainState, peers: P.PeerState, subs: seq<N.Submission>)
    requires Linked(st.blocks) && VerifiedAbove(c, st.blocks)
    ensures AllWorked(c, N.JudgeAll(c, st, peers, subs).0.blocks)
  {
    hide Linked, VerifiedAbove, N.JudgeAll, AllWorked;
    SubmissionsKeepVerified(c, st, peers, subs);
    VerifiedAreWorked(c, N.JudgeAll(c, st, peers, subs).0.blocks);
  }

  ghost predicate AllVerified(c: Crypto, net: Net.Net) {
    forall k :: 0 <= k < |net.nodes| ==> Linked(net.nodes[k].blocks) && VerifiedAbove(c, net.nodes[k].blocks)
  }

  lemma {:induction false} MovesKeepVerified(c: Crypto, net: Net.Net, moves: seq<Net.Move>)
    requires AllVerified(c, net)
    ensures AllVerified(c, Net.TakeMoves(c, net, moves))
  {
    hide Linked, VerifiedAbove, TakeStep, Net.StepOf;
    if moves != [] {
      var front, m := moves[..|moves| - 1], moves[|moves| - 1];
      MovesKeepVerified(c, net, front);
      var mid := Net.TakeMoves(c, net, front);
      if Net.Possible(mid, m) {
        StepKeepsVerified(c, mid.nodes[m.node], Net.StepOf(mid, m));
      }
    }
  }

  /** And for every node of a network in every run of it. */
  lemma {:induction false} NetworkIsWorked(c: Crypto, net: Net.Net, moves: seq<Net.Move>, k: nat)
    requires AllVerified(c, net) && k < |net.nodes|
    ensures AllWorked(c, Net.TakeMoves(c, net, moves).nodes[k].blocks)
  {
    hide Linked, VerifiedAbove, Net.TakeMoves, AllWorked;
    MovesKeepVerified(c, net, moves);
    VerifiedAreWorked(c, Net.TakeMoves(c, net, moves).nodes[k].blocks);
  }
}
