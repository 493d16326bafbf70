/** Whole runs of a node that adds blocks and follows forks. */
module ForkRuns {
  import opened Types
  import opened Blocks
  import opened ChainSpec
  import opened Fork

  datatype Step = Offer(block: Block) | Sync(incoming: seq<string>, request: Oracle)

  /** One step. Following a fork never touches the ledger. */
  function TakeStep(c: Crypto, st: ChainState, s: Step): ChainState {
    match s
    case Offer(b) => AddBlock(c, st, b)
    case Sync(incoming, request) => st.(blocks := HandleFork(c, st.blocks, incoming, request).blocks)
  }

  function TakeSteps(c: Crypto, st: ChainState, steps: seq<Step>): ChainState {
    if steps == [] then st else TakeStep(c, TakeSteps(c, st, steps[..|steps| - 1]), steps[|steps| - 1])
  }

  /** Synchronising with an honest peer: the list is the last hundred hashes of a sound
      chain, and requests are answered with verified blocks. */
  ghost predicate HonestStep(c: Crypto, s: Step) {
    s.Sync? ==> exists p :: Sound(c, p) && s.incoming == Last100(p) && Serves(c, s.incoming, s.request)
  }

  lemma HonestStepGrows(c: Crypto, st: ChainState, s: Step)
    requires HeaderHashesFaithful(c) && Sound(c, st.blocks) && HonestStep(c, s)
    ensures Sound(c, TakeStep(c, st, s).blocks)
    ensures |TakeStep(c, st, s).blocks| >= |st.blocks|
  {
    hide VerifyBlock, Sound, Last100, Serves;
    match s {
      case Offer(b) => AddBlockKeepsSound(c, st, b);
      case Sync(incoming, request) =>
        var p :| Sound(c, p) && incoming == Last100(p) && Serves(c, incoming, request);
        ForkConverges(c, st.blocks, p, request);
    }
  }

  /** In every run with honest peers the chain stays sound and never gets shorter. */
  lemma {:induction false} HonestRunsGrow(c: Crypto, st: ChainState, steps: seq<Step>, n: nat)
    requires HeaderHashesFaithful(c) && Sound(c, st.blocks)
    requires forall i :: 0 <= i < |steps| ==> HonestStep(c, steps[i])
    requires n <= |steps|
    ensures Sound(c, TakeSteps(c, st, steps).blocks)
    ensures |TakeSteps(c, st, steps[..n]).blocks| <= |TakeSteps(c, st, steps).blocks|
  {
    hide Sound, HonestStep, TakeStep;
    assert steps[..|steps|] == steps;
    if steps != [] {
      var front := steps[..|steps| - 1];
      HonestRunsGrow(c, st, front, if n < |steps| then n else n - 1);
      HonestStepGrows(c, TakeSteps(c, st, front), steps[|steps| - 1]);
      assert n < |steps| ==> front[..n] == steps[..n];
    }
  }

  lemma HonestStepStrict(c: Crypto, st: ChainState, s: Step)
    requires HeaderHashesFaithful(c) && Sound(c, st.blocks) && HonestStep(c, s)
    ensures TakeStep(c, st, s).blocks == st.blocks || |TakeStep(c, st, s).blocks| > |st.blocks|
  {
    hide VerifyBlock, Sound, Last100, Serves, HandleFork, AddBlockEffect;
    if s.Sync? {
      var p :| Sound(c, p) && s.incoming == Last100(p) && Serves(c, s.incoming, s.request);
      ForkConverges(c, st.blocks, p, s.request);
    }
  }

  /** A chain that changed at all in such a run got longer, so its length tells. */
  lemma {:induction false} HonestChangesGrow(c: Crypto, st: ChainState, steps: seq<Step>)
    requires HeaderHashesFaithful(c) && Sound(c, st.blocks)
    requires forall i :: 0 <= i < |steps| ==> HonestStep(c, steps[i])
    ensures TakeSteps(c, st, steps).blocks == st.blocks || |TakeSteps(c, st, steps).blocks| > |st.blocks|
  {
    hide Sound, HonestStep, TakeStep;
    if steps != [] {
      var front := steps[..|steps| - 1];
      HonestChangesGrow(c, st, front);
      HonestRunsGrow(c, st, front, 0);
      HonestStepStrict(c, TakeSteps(c, st, front), steps[|steps| - 1]);
    }
  }

  /** A hash list no longer than a node is meant to send, honest or not. */
  predicate ShortList(s: Step) {
    s.Sync? ==> |s.incoming| <= 100
  }

  lemma HonestListsAreShort(c: Crypto, s: Step)
    requires HonestStep(c, s)
    ensures ShortList(s)
  {
  }

  lemma ShortListsCannotReplace(c: Crypto, st: ChainState, s: Step)
    requires |st.blocks| >= 100 && ShortList(s)
    ensures st.blocks <= TakeStep(c, st, s).blocks
  {
  }

  /** Finality at one hundred: once a chain has a hundred blocks, no run whose hash lists
      have at most a hundred entries ever removes or changes a block, whatever the peers
      answer; every later chain extends every earlier one. */
  lemma {:induction false} FinalAtHundred(c: Crypto, st: ChainState, steps: seq<Step>, n: nat)
    requires forall i :: 0 <= i < |steps| ==> ShortList(steps[i])
    requires n <= |steps| && |TakeSteps(c, st, steps[..n]).blocks| >= 100
    ensures TakeSteps(c, st, steps[..n]).blocks <= TakeSteps(c, st, steps).blocks
  {
    hide TakeStep, ShortList;
    if n == |steps| {
      assert steps[..n] == steps;
    } else {
      var front := steps[..|steps| - 1];
      assert front[..n] == steps[..n];
      FinalAtHundred(c, st, front, n);
      ShortListsCannotReplace(c, TakeSteps(c, st, front), steps[|steps| - 1]);
    }
  }

  /** So runs with honest peers are final from a hundred blocks on. */
  lemma {:induction false} HonestRunsAreFinal(c: Crypto, st: ChainState, steps: seq<Step>, n: nat)
    requires forall i :: 0 <= i < |steps| ==> HonestStep(c, steps[i])
    requires n <= |steps| && |TakeSteps(c, st, steps[..n]).blocks| >= 100
    ensures TakeSteps(c, st, steps[..n]).blocks <= TakeSteps(c, st, steps).blocks
  {
    hide HonestStep, ShortList, TakeSteps;
    forall i | 0 <= i < |steps| ensures ShortList(steps[i]) {
      HonestListsAreShort(c, steps[i]);
    }
    FinalAtHundred(c, st, steps, n);
  }

  /** The top hash, repeated as often as the chain can show hashes, and one more. */
  function EmptyingList(blocks: seq<Block>, hash: string): seq<string>
    requires blocks != []
  {
    seq(Min(100, |blocks|), i => blocks[|blocks| - 1].hash) + [hash]
  }

  /** Without the bound on lists there is no such guarantee: any chain at all, however long,
      is lost to one verified block on an unknown parent, announced by a list that is one
      entry longer than what the chain can show. */
  lemma ForkCanEmptyChain(c: Crypto, blocks: seq<Block>, b: Block)
    requires blocks != [] && VerifyBlock(c, b)
    requires b.hash != blocks[|blocks| - 1].hash && b.header.previousHash !in HashesOf(blocks)
    ensures |EmptyingList(blocks, b.hash)| == Min(100, |blocks|) + 1
    ensures HandleFork(c, blocks, EmptyingList(blocks, b.hash), (i, h) => Some(b)).blocks == []
  {
    hide VerifyBlock, AncestorIndex, MissingFrom, HandleFork;
    var incoming, request: Oracle, top := EmptyingList(blocks, b.hash), (i, h) => Some(b), |blocks| - 1;
    var n := Min(100, |blocks|);
    assert incoming[n - 1] == blocks[top].hash && incoming[n] == b.hash;
    assert AncestorIndex(blocks, incoming) == Some(top);
    assert MissingFrom(incoming, blocks[top].hash) == n;
    var fetched := MissingBlocks(blocks, incoming, request);
    assert fetched == [Some(b)];
    assert FetchedOk(c, fetched, 0);
    assert ReadyToReplace(c, blocks, incoming, request);
    ForkEmptiesChainIff(c, blocks, incoming, request);
  }
}
