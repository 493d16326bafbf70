/** A network of nodes that add blocks and follow one another's forks. Nobody outside it
    sends anything: hash lists are those of chains some node has had, and requested blocks
    come from the chains that nodes have at the time. */
module Network {
  import opened Types
  import opened Blocks
  import opened ChainSpec
  import opened Fork
  import opened ForkRuns

  /** Every node's chain and ledger, and every chain that any node has had so far. */
  datatype Net = Net(nodes: seq<ChainState>, past: set<seq<Block>>)

  /** A node receives a block for the top of its chain, or the hash list of a chain that some
      node has or had. `peers` are the nodes asked for missing blocks, in order. */
  datatype Move = Receive(node: nat, block: Block) | Follow(node: nat, chain: seq<Block>, peers: seq<nat>)

  /** RequestBlockByHash: the first peer that has the block answers. */
  function Answer(nodes: seq<ChainState>, peers: seq<nat>, hash: string): Option<Block> {
    if peers == [] then None else
    var first := if peers[0] < |nodes| then FirstWith(nodes[peers[0]].blocks, hash) else None;
    if first.Some? then first else Answer(nodes, peers[1..], hash)
  }

  function Answers(nodes: seq<ChainState>, peers: seq<nat>): Oracle {
    (i, h) => Answer(nodes, peers, h)
  }

  function StepOf(net: Net, m: Move): Step {
    match m
    case Receive(_, block) => Offer(block)
    case Follow(_, chain, peers) => Sync(Last100(chain), Answers(net.nodes, peers))
  }

  predicate Possible(net: Net, m: Move) {
    m.node < |net.nodes| && (m.Follow? ==> m.chain in net.past)
  }

  /** One move; one that is not possible changes nothing. */
  function TakeMove(c: Crypto, net: Net, m: Move): (r: Net)
    ensures |r.nodes| == |net.nodes| && net.past <= r.past
  {
    if !Possible(net, m) then net else
    var st := TakeStep(c, net.nodes[m.node], StepOf(net, m));
    Net(net.nodes[m.node := st], net.past + {st.blocks})
  }

  function TakeMoves(c: Crypto, net: Net, moves: seq<Move>): (r: Net)
    ensures |r.nodes| == |net.nodes| && net.past <= r.past
  {
    if moves == [] then net else TakeMove(c, TakeMoves(c, net, moves[..|moves| - 1]), moves[|moves| - 1])
  }

  ghost predicate AllSound(c: Crypto, net: Net) {
    && (forall k :: 0 <= k < |net.nodes| ==> Sound(c, net.nodes[k].blocks))
    && (forall p :: p in net.past ==> Sound(c, p))
  }

  /** Every block of `p` missing from `q` can be had from one of the peers. */
  ghost predicate Available(nodes: seq<ChainState>, peers: seq<nat>, q: seq<Block>, p: seq<Block>)
    requires AncestorIndex(q, Last100(p)).Some?
  {
    var fetched := MissingBlocks(q, Last100(p), Answers(nodes, peers));
    forall i :: 0 <= i < |fetched| ==> fetched[i].Some?
  }

  // --- Answers within the network ------------------------------------------------

  lemma SoundBlockVerifies(c: Crypto, p: seq<Block>, b: Block)
    requires Sound(c, p) && b in p && b.hash != ""
    ensures VerifyBlock(c, b)
  {
    hide VerifyBlock;
  }

  lemma {:induction false} AnswerVerifies(c: Crypto, nodes: seq<ChainState>, peers: seq<nat>, hash: string)
    requires forall k :: 0 <= k < |nodes| ==> Sound(c, nodes[k].blocks)
    requires hash != "" && Answer(nodes, peers, hash).Some?
    ensures Answer(nodes, peers, hash).value.hash == hash && VerifyBlock(c, Answer(nodes, peers, hash).value)
  {
    hide VerifyBlock, Sound;
    var first := if peers[0] < |nodes| then FirstWith(nodes[peers[0]].blocks, hash) else None;
    if first.Some? {
      SoundBlockVerifies(c, nodes[peers[0]].blocks, first.value);
    } else {
      AnswerVerifies(c, nodes, peers[1..], hash);
    }
  }

  /** Answers, with the gaps filled from the chain that is being followed. */
  function Completed(nodes: seq<ChainState>, peers: seq<nat>, p: seq<Block>): Oracle {
    (i, h) => if Answer(nodes, peers, h).Some? then Answer(nodes, peers, h) else FirstWith(p, h)
  }

  lemma CompletedServes(c: Crypto, nodes: seq<ChainState>, peers: seq<nat>, p: seq<Block>)
    requires (forall k :: 0 <= k < |nodes| ==> Sound(c, nodes[k].blocks)) && Sound(c, p)
    ensures Serves(c, Last100(p), Completed(nodes, peers, p))
  {
    hide VerifyBlock, Sound, Answer, Last100, FirstWith;
    var incoming := Last100(p);
    Last100Length(p);
    forall i | 0 <= i < |incoming| && incoming[i] != ""
      ensures var r := Completed(nodes, peers, p)(i, incoming[i]);
        r.Some? && r.value.hash == incoming[i] && VerifyBlock(c, r.value)
    {
      var h := incoming[i];
      if Answer(nodes, peers, h).Some? {
        AnswerVerifies(c, nodes, peers, h);
      } else {
        Last100At(p, i);
        assert FirstWith(p, h).Some?;
        SoundBlockVerifies(c, p, FirstWith(p, h).value);
      }
    }
  }

  /** What is fetched is the same whether or not gaps that are not there are filled. */
  lemma {:induction false} SameFetch(c: Crypto, nodes: seq<ChainState>, peers: seq<nat>, q: seq<Block>, p: seq<Block>)
    requires AncestorIndex(q, Last100(p)).Some? && Available(nodes, peers, q, p)
    ensures MissingBlocks(q, Last100(p), Answers(nodes, peers))
      == MissingBlocks(q, Last100(p), Completed(nodes, peers, p))
  {
    hide AncestorIndex, Last100, MissingFrom, FirstWith, Answer;
    var a := MissingBlocks(q, Last100(p), Answers(nodes, peers));
    var b := MissingBlocks(q, Last100(p), Completed(nodes, peers, p));
    forall i | 0 <= i < |a| ensures a[i] == b[i] {
      assert a[i].Some?;
    }
  }

  lemma {:induction false} GapKeeps(c: Crypto, q: seq<Block>, incoming: seq<string>, request: Oracle, i: nat)
    requires q != [] && AncestorIndex(q, incoming).Some?
    requires i < |MissingBlocks(q, incoming, request)| && MissingBlocks(q, incoming, request)[i].None?
    ensures HandleFork(c, q, incoming, request).blocks == q
  {
    hide AncestorIndex, MissingBlocks, HandleFork, VerifyBlock, ForkParent;
    assert !FetchedOk(c, MissingBlocks(q, incoming, request), i);
    ForkResultCases(c, q, incoming, request);
  }

  lemma {:induction false} SameFetchSameFork(c: Crypto, q: seq<Block>, incoming: seq<string>, r1: Oracle, r2: Oracle)
    requires AncestorIndex(q, incoming).Some? ==> MissingBlocks(q, incoming, r1) == MissingBlocks(q, incoming, r2)
    ensures HandleFork(c, q, incoming, r1) == HandleFork(c, q, incoming, r2)
  {
    hide AncestorIndex, MissingBlocks, Validate, Replace, Values;
  }

  /** The exact rule by which a node of the network follows another chain `p`: it must share a
      hash with what `p` can show, be shown more hashes than it can show, and every missing
      block must be had from some peer. Then its hashes become those of `p` and its chain gets
      longer; otherwise its chain stays as it is. */
  lemma {:induction false} FollowIff(c: Crypto, nodes: seq<ChainState>, peers: seq<nat>, q: seq<Block>, p: seq<Block>)
    requires HeaderHashesFaithful(c) && Sound(c, q) && Sound(c, p)
    requires forall k :: 0 <= k < |nodes| ==> Sound(c, nodes[k].blocks)
    ensures var r := HandleFork(c, q, Last100(p), Answers(nodes, peers)).blocks;
      if Meets(q, Last100(p)) && Min(100, |p|) > Min(100, |q|)
         && AncestorIndex(q, Last100(p)).Some? && Available(nodes, peers, q, p)
      then HashesOf(r) == HashesOf(p) && |r| > |q| && Sound(c, r)
      else r == q
  {
    hide Sound, Last100, AncestorIndex, HandleFork, Meets, MissingBlocks, Serves, HashesOf, Answer, Answers, Completed;
    MeetsIs(q, Last100(p));
    SoundNotEmpty(c, q);
    CompletedServes(c, nodes, peers, p);
    ForkConverges(c, q, p, Completed(nodes, peers, p));
    if AncestorIndex(q, Last100(p)).Some? {
      if Available(nodes, peers, q, p) {
        SameFetch(c, nodes, peers, q, p);
        SameFetchSameFork(c, q, Last100(p), Answers(nodes, peers), Completed(nodes, peers, p));
      } else {
        var fetched := MissingBlocks(q, Last100(p), Answers(nodes, peers));
        var i :| 0 <= i < |fetched| && fetched[i].None?;
        GapKeeps(c, q, Last100(p), Answers(nodes, peers), i);
      }
    } else {
      SameFetchSameFork(c, q, Last100(p), Answers(nodes, peers), Completed(nodes, peers, p));
    }
  }

  lemma SoundNotEmpty(c: Crypto, q: seq<Block>)
    requires Sound(c, q)
    ensures q != []
  {
  }

  // --- Invariants of every run ------------------------------------------------------

  lemma MoveKeepsSound(c: Crypto, net: Net, m: Move)
    requires HeaderHashesFaithful(c) && AllSound(c, net)
    ensures AllSound(c, TakeMove(c, net, m))
    ensures forall k :: 0 <= k < |net.nodes| ==>
      |net.nodes[k].blocks| <= |TakeMove(c, net, m).nodes[k].blocks|
  {
    hide Sound, HandleFork, AddBlock, Last100, AncestorIndex, Available, Answers, Meets;
    if Possible(net, m) {
      var st := net.nodes[m.node];
      match m {
        case Receive(k, b) => AddBlockKeepsSound(c, st, b);
        case Follow(k, chain, peers) => FollowIff(c, net.nodes, peers, st.blocks, chain);
      }
    }
  }

  /** In every state of every run, every node's chain is linked, numbered and verified from a
      genesis block, and no node's chain is ever shorter than it was. The honesty of peers is
      no hypothesis here: it is what all nodes running this code amounts to. */
  lemma {:induction false} NetworkStaysSound(c: Crypto, net: Net, moves: seq<Move>, n: nat, k: nat)
    requires HeaderHashesFaithful(c) && AllSound(c, net) && n <= |moves| && k < |net.nodes|
    ensures AllSound(c, TakeMoves(c, net, moves))
    ensures |TakeMoves(c, net, moves[..n]).nodes[k].blocks| <= |TakeMoves(c, net, moves).nodes[k].blocks|
  {
    hide AllSound, TakeMove;
    assert moves[..|moves|] == moves;
    if moves != [] {
      var front := moves[..|moves| - 1];
      NetworkStaysSound(c, net, front, if n < |moves| then n else n - 1, k);
      MoveKeepsSound(c, TakeMoves(c, net, front), moves[|moves| - 1]);
      assert n < |moves| ==> front[..n] == moves[..n];
    }
  }

  lemma MoveIsFinal(c: Crypto, net: Net, m: Move, k: nat)
    requires k < |net.nodes| && |net.nodes[k].blocks| >= 100
    ensures net.nodes[k].blocks <= TakeMove(c, net, m).nodes[k].blocks
  {
    hide TakeStep, Last100;
    if Possible(net, m) && m.node == k {
      if m.Follow? { Last100Length(m.chain); }
      ShortListsCannotReplace(c, net.nodes[k], StepOf(net, m));
    }
  }

  /** From its hundredth block on, a node's chain is only ever extended. */
  lemma {:induction false} NetworkFinality(c: Crypto, net: Net, moves: seq<Move>, n: nat, k: nat)
    requires n <= |moves| && k < |net.nodes|
    requires |TakeMoves(c, net, moves[..n]).nodes[k].blocks| >= 100
    ensures TakeMoves(c, net, moves[..n]).nodes[k].blocks <= TakeMoves(c, net, moves).nodes[k].blocks
  {
    hide TakeMove;
    if n == |moves| {
      assert moves[..n] == moves;
    } else {
      var front := moves[..|moves| - 1];
      assert front[..n] == moves[..n];
      NetworkFinality(c, net, front, n, k);
      MoveIsFinal(c, TakeMoves(c, net, front), moves[|moves| - 1], k);
    }
  }

  /** A split is permanent: two nodes with a hundred blocks each that differ at some height
      differ there in every later state, whatever anybody announces. */
  lemma {:induction false} SplitIsPermanent(c: Crypto, net: Net, moves: seq<Move>, n: nat, j: nat, k: nat, h: nat)
    requires n <= |moves| && j < |net.nodes| && k < |net.nodes|
    requires var at := TakeMoves(c, net, moves[..n]).nodes;
      && 100 <= |at[j].blocks| && 100 <= |at[k].blocks|
      && h < |at[j].blocks| && h < |at[k].blocks| && at[j].blocks[h].hash != at[k].blocks[h].hash
    ensures var end := TakeMoves(c, net, moves).nodes;
      && h < |end[j].blocks| && h < |end[k].blocks| && end[j].blocks[h].hash != end[k].blocks[h].hash
  {
    hide TakeMoves;
    NetworkFinality(c, net, moves, n, j);
    NetworkFinality(c, net, moves, n, k);
  }

  // --- Convergence ------------------------------------------------------------------

  /** Chains of at most a hundred blocks show their genesis block, which has no hash in any
      chain, so any two of them meet. */
  lemma ShortChainsMeet(c: Crypto, q: seq<Block>, p: seq<Block>)
    requires Sound(c, q) && Sound(c, p) && |p| <= 100
    ensures Meets(q, Last100(p))
  {
    hide VerifyBlock;
    assert Last100(p)[0] == p[0].hash == q[0].hash;
    assert q[0].hash in Last100(p);
  }

  /** If some peer has the very chain being followed, nothing is unavailable. */
  lemma {:induction false} SourceMakesAvailable(c: Crypto, nodes: seq<ChainState>, peers: seq<nat>, q: seq<Block>,
        p: seq<Block>, s: nat)
    requires AncestorIndex(q, Last100(p)).Some?
    requires s < |peers| && peers[s] < |nodes| && nodes[peers[s]].blocks == p
    ensures Available(nodes, peers, q, p)
  {
    hide AncestorIndex, Last100, MissingFrom, FirstWith, Answer;
    var fetched := MissingBlocks(q, Last100(p), Answers(nodes, peers));
    Last100Length(p);
    forall i | 0 <= i < |fetched| ensures fetched[i].Some? {
      var at := MissingFrom(Last100(p), q[AncestorIndex(q, Last100(p)).value].hash) + i;
      Last100At(p, at);
      AnswerFound(nodes, peers, Last100(p)[at], s);
    }
  }

  lemma {:induction false} AnswerFound(nodes: seq<ChainState>, peers: seq<nat>, hash: string, s: nat)
    requires s < |peers| && peers[s] < |nodes| && FirstWith(nodes[peers[s]].blocks, hash).Some?
    ensures Answer(nodes, peers, hash).Some?
  {
    hide FirstWith;
    if s > 0 {
      AnswerFound(nodes, peers[1..], hash, s - 1);
    }
  }

  /** Node `k` is in a position to follow node `j`: it can show fewer hashes, and `j` shows one
      of its blocks. */
  ghost predicate CanFollow(net: Net, k: nat, j: nat)
    requires k < |net.nodes| && j < |net.nodes|
  {
    var q, p := net.nodes[k].blocks, net.nodes[j].blocks;
    |q| < Min(100, |p|) && Meets(q, Last100(p))
  }

  ghost predicate Agrees(net: Net, k: nat, j: nat)
    requires k < |net.nodes| && j < |net.nodes|
  {
    HashesOf(net.nodes[k].blocks) == HashesOf(net.nodes[j].blocks)
  }

  /** On chains of at most a hundred blocks being shorter is enough, since they always meet. */
  lemma ShortSourceIff(c: Crypto, net: Net, k: nat, j: nat)
    requires AllSound(c, net) && k < |net.nodes| && j < |net.nodes| && |net.nodes[j].blocks| <= 100
    ensures CanFollow(net, k, j) <==> |net.nodes[k].blocks| < |net.nodes[j].blocks|
  {
    hide Sound, Meets, Last100;
    ShortChainsMeet(c, net.nodes[k].blocks, net.nodes[j].blocks);
  }

  /** Exactly when node `k` has the hashes of node `j`, of whatever length, right after
      following it, if `j` is among the peers asked: when it could follow, or had them before. */
  lemma FollowAgreesIff(c: Crypto, net: Net, k: nat, peers: seq<nat>, s: nat)
    requires HeaderHashesFaithful(c) && AllSound(c, net) && k < |net.nodes|
    requires s < |peers| && peers[s] < |net.nodes| && net.nodes[peers[s]].blocks in net.past
    ensures var j := peers[s]; var p := net.nodes[j].blocks;
      var r := TakeMove(c, net, Follow(k, p, peers)).nodes[k].blocks;
      && (HashesOf(r) == HashesOf(p) <==> CanFollow(net, k, j) || Agrees(net, k, j))
      && (!CanFollow(net, k, j) ==> r == net.nodes[k].blocks)
  {
    hide Sound, Last100, AncestorIndex, HandleFork, Meets, Available, Answers;
    var p, q := net.nodes[peers[s]].blocks, net.nodes[k].blocks;
    MeetsIs(q, Last100(p));
    if AncestorIndex(q, Last100(p)).Some? {
      SourceMakesAvailable(c, net.nodes, peers, q, p, s);
    }
    FollowIff(c, net.nodes, peers, q, p);
  }

  /** One round in which every node follows node `j`, asking it alone. */
  function Round(net: Net, j: nat): (moves: seq<Move>)
    requires j < |net.nodes|
    ensures |moves| == |net.nodes|
    ensures forall k :: 0 <= k < |moves| ==> moves[k] == Follow(k, net.nodes[j].blocks, [j])
  {
    seq(|net.nodes|, k requires 0 <= k < |net.nodes| => Follow(k, net.nodes[j].blocks, [j]))
  }

  /** The first `m` nodes have followed; the others and node `j` itself are as they were. */
  ghost predicate Followed(net: Net, j: nat, m: nat, mid: Net)
    requires j < |net.nodes| && m <= |net.nodes| == |mid.nodes|
  {
    && mid.nodes[j].blocks == net.nodes[j].blocks
    && (forall k :: m <= k < |net.nodes| ==> mid.nodes[k] == net.nodes[k])
    && (forall k :: 0 <= k < m ==>
          (Agrees(mid, k, j) <==> CanFollow(net, k, j) || Agrees(net, k, j)))
  }

  /** One more node has followed. */
  lemma FollowedStep(net: Net, j: nat, m: nat, mid: Net, end: Net)
    requires j < |net.nodes| && m < |net.nodes| == |mid.nodes| == |end.nodes| && Followed(net, j, m, mid)
    requires forall k :: 0 <= k < |net.nodes| && k != m ==> end.nodes[k] == mid.nodes[k]
    requires HashesOf(end.nodes[m].blocks) == HashesOf(mid.nodes[j].blocks)
      <==> CanFollow(mid, m, j) || Agrees(mid, m, j)
    requires !CanFollow(mid, m, j) ==> end.nodes[m].blocks == mid.nodes[m].blocks
    ensures Followed(net, j, m + 1, end)
  {
    hide HashesOf, Meets, Last100;
    assert CanFollow(mid, m, j) == CanFollow(net, m, j) && Agrees(mid, m, j) == Agrees(net, m, j);
    assert !CanFollow(net, j, j);
    forall k | 0 <= k < m ensures Agrees(end, k, j) == Agrees(mid, k, j) {
    }
  }

  lemma {:induction false} RoundSoFar(c: Crypto, net: Net, j: nat, m: nat)
    requires HeaderHashesFaithful(c) && AllSound(c, net) && j < |net.nodes| && m <= |net.nodes|
    requires net.nodes[j].blocks in net.past
    ensures var mid := TakeMoves(c, net, Round(net, j)[..m]);
      AllSound(c, mid) && Followed(net, j, m, mid)
  {
    hide AllSound, TakeMove, HashesOf, CanFollow, Agrees;
    var moves := Round(net, j);
    if m > 0 {
      RoundSoFar(c, net, j, m - 1);
      var front := moves[..m][..m - 1];
      assert front == moves[..m - 1] && moves[..m][m - 1] == moves[m - 1];
      var mid := TakeMoves(c, net, front);
      FollowAgreesIff(c, mid, m - 1, [j], 0);
      MoveKeepsSound(c, mid, moves[m - 1]);
      OthersKeep(c, mid, moves[m - 1]);
      FollowedStep(net, j, m - 1, mid, TakeMove(c, mid, moves[m - 1]));
    }
  }

  lemma OthersKeep(c: Crypto, net: Net, m: Move)
    ensures forall k :: 0 <= k < |net.nodes| && k != m.node ==> TakeMove(c, net, m).nodes[k] == net.nodes[k]
  {
    hide TakeStep, StepOf;
  }

  /** Convergence of the whole network in one round: after every node has followed node `j`,
      whatever the length of its chain, all agree with it exactly when each could follow or
      agreed already. */
  lemma {:induction false} RoundConvergesIff(c: Crypto, net: Net, j: nat)
    requires HeaderHashesFaithful(c) && AllSound(c, net) && j < |net.nodes|
    requires net.nodes[j].blocks in net.past
    ensures var end := TakeMoves(c, net, Round(net, j));
      && end.nodes[j].blocks == net.nodes[j].blocks
      && ((forall k :: 0 <= k < |end.nodes| ==> Agrees(end, k, j)) <==>
            forall k :: 0 <= k < |net.nodes| ==> CanFollow(net, k, j) || Agrees(net, k, j))
  {
    hide AllSound, TakeMoves, CanFollow, Agrees;
    var moves := Round(net, j);
    RoundSoFar(c, net, j, |moves|);
    assert moves[..|moves|] == moves;
  }
}
