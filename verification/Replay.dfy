/** The ledger as a fast form of replaying the chain, and the money supply over runs. */
module Replay {
  import opened Types
  import opened Bags
  import opened Transactions
  import opened LedgerSpec
  import opened Conservation
  import opened ChainSpec

  /** The simple definition of the unspent coins: fold every transaction of the chain over
      the initial coins. */
  function ReplayOf(initial: multiset<UTXO>, txs: seq<Transaction>): multiset<UTXO> {
    if txs == [] then initial else
    var t := txs[|txs| - 1];
    ReplayOf(initial, txs[..|txs| - 1]) - multiset(t.content.inputs) + multiset(Outputs(t))
  }

  lemma {:induction false} ReplaySplit(initial: multiset<UTXO>, a: seq<Transaction>, b: seq<Transaction>)
    ensures ReplayOf(initial, a + b) == ReplayOf(ReplayOf(initial, a), b)
  {
    if b == [] {
      assert a + b == a;
    } else {
      assert (a + b)[..|a + b| - 1] == a + b[..|b| - 1];
      ReplaySplit(initial, a, b[..|b| - 1]);
    }
  }

  lemma {:induction false} ReplayNothing(initial: multiset<UTXO>)
    ensures ReplayOf(initial, []) == initial
  {
  }

  lemma {:induction false} ReplayFirst(initial: multiset<UTXO>, txs: seq<Transaction>)
    requires txs != []
    ensures ReplayOf(initial, txs)
      == ReplayOf(initial - multiset(txs[0].content.inputs) + multiset(Outputs(txs[0])), txs[1..])
  {
    hide Outputs;
    assert [txs[0]][..0] == [] && [txs[0]] + txs[1..] == txs;
    ReplaySplit(initial, [txs[0]], txs[1..]);
    assert ReplayOf(initial, []) == initial;
  }

  /** Applying transactions successfully is replaying them. */
  lemma {:induction false} ApplyAllReplays(c: Crypto, bag: multiset<UTXO>, txs: seq<Transaction>)
    requires ApplyAll(c, bag, txs).ok
    ensures After(bag, ApplyAll(c, bag, txs)) == ReplayOf(bag, txs)
    decreases |txs|
  {
    hide TransactionEffect, ReplayOf;
    if txs == [] {
      ReplayNothing(bag);
      assert bag + multiset{} - multiset{} == bag;
    } else {
      var t, rest := txs[0], txs[1..];
      var e := TransactionEffect(c, bag, t);
      TransactionAcceptance(c, bag, t);
      TransactionPossible(c, bag, t);
      ApplyAllPossible(c, After(bag, e), rest);
      ThenComposes(bag, e, ApplyAll(c, After(bag, e), rest));
      ApplyAllReplays(c, After(bag, e), rest);
      ReplayFirst(bag, txs);
      AcceptedLedger(bag, e.consumed, e.created);
    }
  }

  /** The ledger agrees with the chain. */
  ghost predicate InStep(initial: multiset<UTXO>, st: ChainState) {
    st.ledger == ReplayOf(initial, ChainTransactions(st.blocks))
  }

  /** An accepted block keeps them in step, whatever it contains. */
  lemma AcceptedKeepsInStep(c: Crypto, initial: multiset<UTXO>, st: ChainState, b: Block)
    requires InStep(initial, st) && AddBlockEffect(c, st, b).ok
    ensures InStep(initial, AddBlock(c, st, b))
  {
    hide Attaches, AllCheck, ApplyAll;
    ApplyAllReplays(c, st.ledger, b.transactions);
    ReplaySplit(initial, ChainTransactions(st.blocks), b.transactions);
    assert (st.blocks + [b])[..|st.blocks|] == st.blocks;
  }

  /** Exactly when one AddBlock leaves the ledger out of step with the chain: when the block
      fits and each of its inputs is stored, but some transaction is not funded in its turn.
      (All of that can be read off the block and the ledger beforehand.) */
  lemma StaysInStepIff(c: Crypto, initial: multiset<UTXO>, st: ChainState, b: Block)
    requires InStep(initial, st)
    ensures InStep(initial, AddBlock(c, st, b)) <==>
      !(Attaches(c, st.blocks, b) && AllCheck(c, st.ledger, b.transactions) && !Funded(st.ledger, b.transactions))
  {
    hide Attaches, AllCheck, Funded, BlockEffect;
    BlockAcceptance(c, st.ledger, b.transactions);
    assert After(st.ledger, NO_EFFECT) == st.ledger;
    if AddBlockEffect(c, st, b).ok {
      AcceptedKeepsInStep(c, initial, st, b);
    } else if Attaches(c, st.blocks, b) {
      BlockAtomicity(c, st.ledger, b.transactions);
    }
  }

  /** On fresh hashes that is: together its inputs ask for more than is stored. */
  lemma FreshStaysInStepIff(c: Crypto, initial: multiset<UTXO>, st: ChainState, b: Block)
    requires InStep(initial, st) && FreshHashes(st.ledger, b.transactions)
    ensures InStep(initial, AddBlock(c, st, b)) <==>
      !(Attaches(c, st.blocks, b) && AllCheck(c, st.ledger, b.transactions) && !(Ins(b.transactions) <= st.ledger))
  {
    hide InStep, AddBlock, Attaches, AllCheck, Funded;
    StaysInStepIff(c, initial, st, b);
    FreshFunding(c, st.ledger, b.transactions);
    if AllCheck(c, st.ledger, b.transactions) {
      AllCheckIns(c, st.ledger, b.transactions);
    }
  }

  /** The shortest block that does it: one transaction listing one stored coin twice. It is
      rejected, the chain does not change, and the coin is gone. */
  lemma RepeatedInputBurnsCoin(c: Crypto, bag: multiset<UTXO>, u: UTXO, t: Transaction)
    requires Verify(c, t) && t.content.inputs == [u, u] && bag[u] == 1
    ensures var e := BlockEffect(c, bag, [t]);
      !e.ok && After(bag, e) == bag - multiset{u}
  {
    hide Verify;
    var ins := t.content.inputs;
    assert ins[..1] == [u] && ins[..2] == ins;
    assert multiset(ins[..1]) <= bag && multiset(ins)[u] == 2;
    RemovableIs(bag, ins, 1);
    assert CheckTransaction(c, bag, t);
    assert TransactionEffect(c, bag, t) == Effect(false, multiset{u}, multiset{});
    assert AllCheck(c, bag, [t]);
    assert ApplyAll(c, bag, [t]) == TransactionEffect(c, bag, t);
    assert bag + multiset{} - multiset{u} == bag - multiset{u};
  }

  lemma DistinctKeepsInStep(c: Crypto, initial: multiset<UTXO>, st: ChainState, b: Block)
    requires InStep(initial, st) && DistinctInputs(b.transactions)
    ensures InStep(initial, AddBlock(c, st, b))
  {
    hide Attaches, AllCheck, ApplyAll;
    DistinctInputsAtomic(c, st.ledger, b.transactions);
    if AddBlockEffect(c, st, b).ok {
      AcceptedKeepsInStep(c, initial, st, b);
    }
  }

  /** The ledger refines replay: over every run in which each offered block lists its inputs
      once, accepted or rejected, the ledger is the fold of the chain over the initial
      coins. */
  lemma {:induction false} LedgerIsReplay(c: Crypto, initial: multiset<UTXO>, st: ChainState, offered: seq<Block>)
    requires InStep(initial, st)
    requires forall i :: 0 <= i < |offered| ==> DistinctInputs(offered[i].transactions)
    ensures InStep(initial, AddBlocks(c, st, offered))
    decreases |offered|
  {
    hide InStep, AddBlock, DistinctInputs;
    if offered != [] {
      DistinctKeepsInStep(c, initial, st, offered[0]);
      LedgerIsReplay(c, initial, AddBlock(c, st, offered[0]), offered[1..]);
    }
  }

  // --- Money supply over runs --------------------------------------------------

  lemma AddBlockSupply(c: Crypto, st: ChainState, b: Block)
    requires AllPositive(st.ledger) && Value(st.ledger, None) < TWO_63
    ensures var after := AddBlock(c, st, b).ledger;
      && AllPositive(after)
      && Value(after, None) <= Value(st.ledger, None)
      && (AddBlockEffect(c, st, b).ok || DistinctInputs(b.transactions) ==>
            Value(after, None) == Value(st.ledger, None))
  {
    hide Attaches, BlockEffect;
    BlockSupply(c, st.ledger, b.transactions);
    assert After(st.ledger, NO_EFFECT) == st.ledger;
    if DistinctInputs(b.transactions) {
      DistinctInputsAtomic(c, st.ledger, b.transactions);
    }
  }

  /** In every state of every run from a supply below 2^63: coins are positive, the supply
      has not grown, no balance wraps, and if each offered block lists its inputs once the
      supply is exactly what it was. */
  lemma {:induction false} SupplyOverRuns(c: Crypto, st: ChainState, offered: seq<Block>, who: string)
    requires AllPositive(st.ledger) && Value(st.ledger, None) < TWO_63
    ensures var end := AddBlocks(c, st, offered).ledger;
      && AllPositive(end)
      && Value(end, None) <= Value(st.ledger, None)
      && 0 <= Value(end, Some(who)) <= Value(end, None)
      && Wrap64(Value(end, Some(who))) == Value(end, Some(who))
      && ((forall i :: 0 <= i < |offered| ==> DistinctInputs(offered[i].transactions))
            ==> Value(end, None) == Value(st.ledger, None))
    decreases |offered|
  {
    hide AddBlock, DistinctInputs, AllPositive;
    if offered == [] {
      BalancesFit(st.ledger, who);
    } else {
      AddBlockSupply(c, st, offered[0]);
      SupplyOverRuns(c, AddBlock(c, st, offered[0]), offered[1..], who);
    }
  }
}
