/** What submitting a transaction does to all nodes at once. */
module Gossip {
  import opened Types
  import opened Transactions
  import opened Flooding

  type Pools = map<string, map<string, Transaction>>

  /** The network as a value: who lists whom, which nodes have the transaction in question
      in their chain, and every node's pool. */
  datatype View = View(crypto: Crypto, peers: Graph, onChain: set<string>, pools: Pools)

  ghost predicate Consistent(v: View) {
    v.pools.Keys == v.peers.Keys
  }

  /** All pools after the nodes in `who` took `tx` in. */
  function Deliver(pools: Pools, who: set<string>, tx: Transaction): Pools {
    map a | a in pools :: if a in who then pools[a][tx.hash := tx] else pools[a]
  }

  /** The nodes that have `hash` in their pool or in their chain. */
  function Holders(v: View, hash: string): set<string> {
    set a | a in v.pools && (hash in v.pools[a] || a in v.onChain)
  }

  /** The nodes that came to hold it between `v` and `w`. */
  function Gained(v: View, w: View, hash: string): set<string> {
    Holders(w, hash) - Holders(v, hash)
  }

  /** What a submission of `tx` to `me` achieves: nothing if it does not verify; otherwise a
      flood from `me`, after which exactly the reached nodes have it in their pools in
      addition, and each of them has called each of its peers once. */
  ghost predicate Submitted(v: View, me: string, tx: Transaction, ok: bool, w: View, log: Log) {
    if !Verify(v.crypto, tx) then !ok && w == v && log == multiset{} else
    && (ok <==> me !in Holders(v, tx.hash))
    && Flooded(v.peers, Holders(v, tx.hash), me, Holders(w, tx.hash))
    && w == v.(pools := Deliver(v.pools, Gained(v, w, tx.hash), tx))
    && Logged(v.peers, log, Gained(v, w, tx.hash), me, 0)
  }

  /** What `me`, already holding `tx`, achieves by calling its first `n` peers. */
  ghost predicate Broadcasted(v: View, me: string, n: nat, tx: Transaction, w: View, log: Log) {
    && Spread(v.peers, Holders(v, tx.hash), me, n, Holders(w, tx.hash))
    && w == v.(pools := Deliver(v.pools, Gained(v, w, tx.hash), tx))
    && Logged(v.peers, log, Gained(v, w, tx.hash), me, n)
  }

  lemma DeliverHolders(v: View, who: set<string>, tx: Transaction)
    requires who <= v.pools.Keys
    ensures Holders(v.(pools := Deliver(v.pools, who, tx)), tx.hash) == Holders(v, tx.hash) + who
    ensures Deliver(v.pools, who, tx).Keys == v.pools.Keys
  {
  }

  lemma DeliverTwice(pools: Pools, a: set<string>, b: set<string>, tx: Transaction)
    ensures Deliver(Deliver(pools, a, tx), b, tx) == Deliver(pools, a + b, tx)
  {
    var left, right := Deliver(Deliver(pools, a, tx), b, tx), Deliver(pools, a + b, tx);
    assert left.Keys == right.Keys;
    forall x | x in pools ensures left[x] == right[x] {
      assert x in a && x in b ==> pools[x][tx.hash := tx][tx.hash := tx] == pools[x][tx.hash := tx];
    }
  }

  lemma NoLog(g: Graph, me: string)
    requires me in g
    ensures Logged(g, multiset{}, {}, me, 0)
  {
  }

  /** A node that already holds the transaction does nothing. */
  lemma AlreadyHeld(v: View, me: string, tx: Transaction)
    requires Consistent(v) && Verify(v.crypto, tx) && me in Holders(v, tx.hash)
    ensures Submitted(v, me, tx, false, v, multiset{})
  {
  }

  /** Before the first call. */
  lemma BroadcastStart(v: View, me: string, tx: Transaction)
    requires Consistent(v) && me in Holders(v, tx.hash)
    ensures Broadcasted(v, me, 0, tx, v, multiset{})
  {
  }

  lemma SpreadGrows(g: Graph, start: set<string>, me: string, n: nat, now: set<string>)
    requires Spread(g, start, me, n, now)
    ensures start <= now <= g.Keys && me in g && n <= |g[me]|
  {
  }

  lemma FloodGrows(g: Graph, start: set<string>, me: string, end: set<string>)
    requires Flooded(g, start, me, end)
    ensures start <= end <= g.Keys && me in g && me in end
  {
  }

  /** After one more call. */
  lemma BroadcastStep(v: View, me: string, n: nat, tx: Transaction, w: View, log: Log, ok: bool,
        w': View, more: Log)
    requires Verify(v.crypto, tx) && me in v.peers && n < |v.peers[me]| && v.peers[me][n] in v.peers
    requires Broadcasted(v, me, n, tx, w, log) && Submitted(w, v.peers[me][n], tx, ok, w', more)
    ensures Broadcasted(v, me, n + 1, tx, w', log + multiset{(me, v.peers[me][n])} + more)
  {
    hide Verify, Logged, Spread, Flooded, Deliver, Holders;
    var g, p, h := v.peers, v.peers[me][n], tx.hash;
    SpreadStep(g, Holders(v, h), me, n, Holders(w, h), Holders(w', h));
    SpreadGrows(g, Holders(v, h), me, n, Holders(w, h));
    FloodGrows(g, Holders(w, h), p, Holders(w', h));
    assert Gained(v, w, h) + Gained(w, w', h) == Gained(v, w', h);
    DeliverTwice(v.pools, Gained(v, w, h), Gained(w, w', h), tx);
    LoggedFrom(g, more, Gained(w, w', h), p, me);
    LoggedStep(g, log, Gained(v, w, h), me, n, more, Gained(w, w', h), p);
  }

  /** After a call to an address where nobody answers: the call is still made. */
  lemma BroadcastSkip(v: View, me: string, n: nat, tx: Transaction, w: View, log: Log)
    requires me in v.peers && n < |v.peers[me]| && v.peers[me][n] !in v.peers
    requires Broadcasted(v, me, n, tx, w, log)
    ensures Broadcasted(v, me, n + 1, tx, w, log + multiset{(me, v.peers[me][n])})
  {
    hide Logged, Spread, Deliver, Holders;
    SpreadSkip(v.peers, Holders(v, tx.hash), me, n, Holders(w, tx.hash));
    NoLog(v.peers, me);
    LoggedStep(v.peers, log, Gained(v, w, tx.hash), me, n, multiset{}, {}, v.peers[me][n]);
    assert Gained(v, w, tx.hash) + {} == Gained(v, w, tx.hash);
    assert log + multiset{(me, v.peers[me][n])} + multiset{} == log + multiset{(me, v.peers[me][n])};
  }

  /** Taking the transaction in and then calling every peer. */
  lemma TakenAndBroadcasted(v: View, me: string, tx: Transaction, w: View, log: Log)
    requires Consistent(v) && Verify(v.crypto, tx) && me in v.peers && me !in Holders(v, tx.hash)
    requires Broadcasted(v.(pools := Deliver(v.pools, {me}, tx)), me, |v.peers[me]|, tx, w, log)
    ensures Submitted(v, me, tx, true, w, log)
  {
    hide Verify, Logged, Spread, Flooded, Deliver, Holders;
    var mid, h := v.(pools := Deliver(v.pools, {me}, tx)), tx.hash;
    DeliverHolders(v, {me}, tx);
    SpreadIsFlood(v.peers, Holders(v, h), me, Holders(w, h));
    FloodGrows(v.peers, Holders(v, h), me, Holders(w, h));
    DeliverTwice(v.pools, {me}, Gained(mid, w, h), tx);
    LoggedAll(v.peers, log, Gained(mid, w, h), me, me);
    assert {me} + Gained(mid, w, h) == Gained(v, w, h) && Gained(mid, w, h) + {me} == Gained(v, w, h);
  }

  /** Exactly when a node takes a submitted transaction: when its content and signature are
      good and it is neither in the node's pool nor on its chain. Otherwise nothing happens and
      nobody is told. */
  lemma SubmissionAcceptedIff(v: View, me: string, tx: Transaction, ok: bool, w: View, log: Log)
    requires Consistent(v) && me in v.pools && Submitted(v, me, tx, ok, w, log)
    ensures ok <==>
      && ContentOk(v.crypto, tx.content)
      && v.crypto.verifySignature(tx.hash, tx.signature, tx.content.senderPubKey)
      && tx.hash !in v.pools[me] && me !in v.onChain
    ensures ok ==> me in w.pools && tx.hash in w.pools[me] && w.pools[me][tx.hash] == tx
    ensures !ok ==> w == v && forall x, y :: log[(x, y)] == 0
  {
    hide ContentOk, Reaches, Closed, Logged;
    if Verify(v.crypto, tx) && !ok {
      NothingGained(v, w, tx);
      EmptyLog(v.peers, log, me);
    }
  }

  lemma NothingGained(v: View, w: View, tx: Transaction)
    requires w == v.(pools := Deliver(v.pools, Gained(v, w, tx.hash), tx)) && Holders(w, tx.hash) == Holders(v, tx.hash)
    ensures w == v && Gained(v, w, tx.hash) == {}
  {
    assert Deliver(v.pools, {}, tx) == v.pools;
  }

  lemma EmptyLog(g: Graph, log: Log, me: string)
    requires Logged(g, log, {}, me, 0)
    ensures forall x, y :: log[(x, y)] == 0
  {
    forall x, y ensures log[(x, y)] == 0 {
      assert g[me][..0] == [];
      assert log[(x, y)] == Calls(g, {}, me, 0, x, y);
    }
  }

  /** Everything a submission does, in one place: who ends up holding the transaction, what
      the pools then are, and who has sent what to whom. */
  lemma SubmissionReachesEveryone(v: View, me: string, tx: Transaction, ok: bool, w: View, log: Log)
    requires Consistent(v) && Verify(v.crypto, tx) && me !in Holders(v, tx.hash)
    requires Submitted(v, me, tx, ok, w, log)
    ensures var reached := set b | b in v.peers && Reaches(v.peers, v.peers.Keys - Holders(v, tx.hash), me, b);
      && ok && me in reached
      && w.pools == Deliver(v.pools, reached, tx)
      && (forall x, y :: x in reached ==> log[(x, y)] == multiset(v.peers[x])[y])
      && (forall x, y :: x !in reached ==> log[(x, y)] == 0)
  {
    hide Verify, Deliver, Holders, Reaches;
    var start, end := Holders(v, tx.hash), Holders(w, tx.hash);
    FloodIsReachability(v.peers, start, me, end);
    FloodGrows(v.peers, start, me, end);
    var reached := set b | b in v.peers && Reaches(v.peers, v.peers.Keys - start, me, b);
    ReachedLacked(v.peers, start, me);
    assert Gained(v, w, tx.hash) == reached;
    forall x, y ensures log[(x, y)] == if x in reached then multiset(v.peers[x])[y] else 0 {
      assert v.peers[me][..0] == [];
      assert log[(x, y)] == Calls(v.peers, reached, me, 0, x, y);
    }
  }

  /** Every reached node lacked the transaction. */
  lemma ReachedLacked(g: Graph, start: set<string>, me: string)
    ensures forall b :: b in g && Reaches(g, g.Keys - start, me, b) ==> b !in start
  {
  }

  /** The final pools do not depend on the order in which nodes call their peers. */
  lemma SubmissionOrderIndependence(v1: View, v2: View, me: string, tx: Transaction, ok1: bool,
        w1: View, log1: Log, ok2: bool, w2: View, log2: Log)
    requires Consistent(v1) && Consistent(v2) && SamePeers(v1.peers, v2.peers)
    requires v2 == v1.(peers := v2.peers)
    requires Submitted(v1, me, tx, ok1, w1, log1) && Submitted(v2, me, tx, ok2, w2, log2)
    ensures ok1 == ok2 && w1.pools == w2.pools
  {
    hide Verify, Deliver, Flooded, Logged;
    if Verify(v1.crypto, tx) {
      assert Holders(v1, tx.hash) == Holders(v2, tx.hash);
      FloodOrderIndependence(v1.peers, v2.peers, Holders(v1, tx.hash), me, Holders(w1, tx.hash), Holders(w2, tx.hash));
    }
  }
}
