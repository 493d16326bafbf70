/** No double spending over whole runs of AddBlock, rejected and half-applied blocks
    included. */
module DoubleSpend {
  import opened Types
  import opened Bags
  import opened Transactions
  import opened LedgerSpec
  import opened ChainSpec

  /** No two coins share an outpoint, and none is there twice. */
  ghost predicate UniqueOutpoints(b: multiset<UTXO>) {
    forall u, v :: u in b && v in b && u.txID == v.txID && u.index == v.index ==> u == v && b[u] == 1
  }

  /** Equal hashes mean equal content. */
  ghost predicate Faithful(all: set<Transaction>) {
    forall t1, t2 :: t1 in all && t2 in all && t1.hash == t2.hash ==> t1.content == t2.content
  }

  /** No transaction is hashed to the name of an initial coin. */
  ghost predicate FreshFrom(initial: multiset<UTXO>, all: set<Transaction>) {
    forall u, t :: u in initial && t in all ==> u.txID != t.hash
  }

  /** Transactions that were signed as Sign does, with collision-free hashing, are faithful. */
  lemma SignedAreFaithful(c: Crypto, all: set<Transaction>)
    requires TransactionHashesFaithful(c) && forall t :: t in all ==> HashedBySign(c, t)
    ensures Faithful(all)
  {
  }

  ghost predicate Spent(consumed: multiset<UTXO>, t: Transaction) {
    forall i :: 0 <= i < |t.content.inputs| ==> t.content.inputs[i] in consumed
  }

  /** All coins ever created and all ever consumed: each outpoint was created once, nothing
      was consumed more often than it was created, and whatever transaction a coin is
      named after has its inputs spent. */
  ghost predicate History(all: set<Transaction>, created: multiset<UTXO>, consumed: multiset<UTXO>) {
    && UniqueOutpoints(created)
    && consumed <= created
    && (forall u, t :: u in created && t in all && u.txID == t.hash ==> Spent(consumed, t))
  }

  /** `txs` are the transactions of the chain: all spent, and none with inputs twice. */
  ghost predicate Recorded(all: set<Transaction>, txs: seq<Transaction>, consumed: multiset<UTXO>) {
    && (forall i :: 0 <= i < |txs| ==> txs[i] in all && Spent(consumed, txs[i]))
    && NoRepeats(txs)
  }

  /** No transaction that spends anything appears twice. */
  ghost predicate NoRepeats(txs: seq<Transaction>) {
    forall i, j :: 0 <= i < j < |txs| && txs[i].hash == txs[j].hash ==>
      txs[i].content.inputs == [] && txs[j].content.inputs == []
  }

  /** A coin that is stored has not been consumed. */
  lemma StoredIsUnspent(all: set<Transaction>, created: multiset<UTXO>, consumed: multiset<UTXO>,
        u: UTXO)
    requires History(all, created, consumed) && u in created - consumed
    ensures u !in consumed
  {
  }

  /** A transaction that is accepted now and spends anything was never accepted before,
      under this or any other signature. */
  lemma AcceptedIsNew(c: Crypto, all: set<Transaction>, created: multiset<UTXO>,
        consumed: multiset<UTXO>, t: Transaction, t': Transaction)
    requires History(all, created, consumed) && Faithful(all) && t in all && t' in all && t.hash == t'.hash
    ensures TransactionEffect(c, created - consumed, t).ok && t.content.inputs != [] ==> !Spent(consumed, t')
  {
    hide TransactionEffect, UniqueOutpoints;
    if TransactionEffect(c, created - consumed, t).ok && t.content.inputs != [] {
      TransactionAcceptance(c, created - consumed, t);
      ContainedIsPresent(created - consumed, t);
      StoredIsUnspent(all, created, consumed, t.content.inputs[0]);
    }
  }

  /** Outputs of one transaction are at different outpoints. */
  lemma OutputsUnique(c: Crypto, t: Transaction)
    requires Verify(c, t)
    ensures UniqueOutpoints(multiset(Outputs(t)))
  {
    var outs := Outputs(t);
    forall u: UTXO, v: UTXO | u in multiset(outs) && v in multiset(outs) && u.index == v.index
      ensures u == v && multiset(outs)[u] == 1
    {
      var i :| 0 <= i < |outs| && outs[i] == u;
      var j :| 0 <= j < |outs| && outs[j] == v;
      assert GetUTXO(t, i) == Some(u) && GetUTXO(t, j) == Some(v);
      assert OutputOk(t.content.outputs[i], i) && OutputOk(t.content.outputs[j], j);
      forall k | 0 <= k < |outs| && outs[k] == u ensures k == i {
        assert GetUTXO(t, k) == Some(u);
      }
      OccursOnce(outs, i);
    }
  }

  lemma OccursOnce(s: seq<UTXO>, i: nat)
    requires i < |s| && forall k :: 0 <= k < |s| && s[k] == s[i] ==> k == i
    ensures multiset(s)[s[i]] == 1
  {
    var a, b := s[..i], s[i + 1..];
    assert s == a + [s[i]] + b;
    assert s[i] !in a && s[i] !in b;
  }

  /** Where an output of a verified transaction is to be found. */
  lemma OutputPlace(c: Crypto, t: Transaction, u: UTXO)
    requires Verify(c, t) && u in multiset(Outputs(t))
    ensures u.txID == t.hash && 0 <= u.index < |t.content.outputs| && Outputs(t)[u.index] == u
  {
    var i :| 0 <= i < |Outputs(t)| && Outputs(t)[i] == u;
    assert GetUTXO(t, i) == Some(u) && OutputOk(t.content.outputs[i], i);
  }

  ghost predicate SameOutpoint(u: UTXO, v: UTXO) {
    u.txID == v.txID && u.index == v.index
  }

  lemma UniqueUnionIff(a: multiset<UTXO>, b: multiset<UTXO>)
    requires UniqueOutpoints(a) && UniqueOutpoints(b)
    ensures UniqueOutpoints(a + b) <==> forall u, v :: u in a && v in b ==> !SameOutpoint(u, v)
  {
    if UniqueOutpoints(a + b) {
      forall u, v | u in a && v in b ensures !SameOutpoint(u, v) {
        assert u in a + b && v in a + b && (a + b)[u] == a[u] + b[u];
      }
    }
  }

  /** A stored or spent coin already sits at an outpoint that `t` is about to create. */
  ghost predicate Reuses(created: multiset<UTXO>, t: Transaction) {
    exists u :: u in created && u.txID == t.hash && 0 <= u.index < |t.content.outputs|
  }

  /** The exact condition under which one more transaction keeps every outpoint created only
      once: none of the outpoints it is about to create is taken. Nothing in the code checks
      this, since verification never recomputes the hash. */
  lemma StaysUniqueIff(c: Crypto, created: multiset<UTXO>, t: Transaction)
    requires UniqueOutpoints(created) && Verify(c, t)
    ensures UniqueOutpoints(created + multiset(Outputs(t))) <==> !Reuses(created, t)
  {
    hide UniqueOutpoints, Verify, Outputs;
    var outs := multiset(Outputs(t));
    OutputsUnique(c, t);
    UniqueUnionIff(created, outs);
    if u :| u in created && u.txID == t.hash && 0 <= u.index < |t.content.outputs| {
      var v := Outputs(t)[u.index];
      StampedIndex(c, t, u.index);
      assert v in outs && SameOutpoint(u, v);
    }
    forall u, v | u in created && v in outs && SameOutpoint(u, v) ensures Reuses(created, t) {
      OutputPlace(c, t, v);
    }
  }

  lemma StampedIndex(c: Crypto, t: Transaction, i: nat)
    requires Verify(c, t) && i < |t.content.outputs|
    ensures Outputs(t)[i].txID == t.hash && Outputs(t)[i].index == i
  {
    assert GetUTXO(t, i) == Some(Outputs(t)[i]) && OutputOk(t.content.outputs[i], i);
  }

  lemma RejectedStep(all: set<Transaction>, created: multiset<UTXO>, consumed: multiset<UTXO>,
        taken: multiset<UTXO>)
    requires History(all, created, consumed) && taken <= created - consumed
    ensures History(all, created, consumed + taken)
  {
  }

  /** An accepted transaction's outputs are new outpoints. */
  lemma AcceptedStep(c: Crypto, all: set<Transaction>, created: multiset<UTXO>,
        consumed: multiset<UTXO>, t: Transaction)
    requires History(all, created, consumed) && Faithful(all) && t in all
    requires TransactionEffect(c, created - consumed, t).ok
    ensures History(all, created + multiset(Outputs(t)), consumed + multiset(t.content.inputs))
    ensures Spent(consumed + multiset(t.content.inputs), t)
  {
    hide TransactionEffect, Verify;
    var ins, outs := multiset(t.content.inputs), multiset(Outputs(t));
    TransactionAcceptance(c, created - consumed, t);
    RejectedStep(all, created, consumed, ins);
    assert Spent(consumed + ins, t) by {
      forall i | 0 <= i < |t.content.inputs| ensures t.content.inputs[i] in consumed + ins {
        assert t.content.inputs[i] in ins;
      }
    }
    if t.content.inputs == [] {
      NoInputsNoOutputs(c, t);
      assert created + outs == created;
    } else {
      forall u | u in created ensures u.txID != t.hash {
        if u.txID == t.hash { AcceptedIsNew(c, all, created, consumed, t, t); }
      }
      OutputsUnique(c, t);
      NewNames(all, created, consumed + ins, t);
    }
  }

  /** Outputs under a name not used before keep the history in order. */
  lemma NewNames(all: set<Transaction>, created: multiset<UTXO>, consumed: multiset<UTXO>,
        t: Transaction)
    requires History(all, created, consumed) && Faithful(all) && t in all && Spent(consumed, t)
    requires forall u :: u in created ==> u.txID != t.hash
    requires UniqueOutpoints(multiset(Outputs(t)))
    ensures History(all, created + multiset(Outputs(t)), consumed)
  {
    hide UniqueOutpoints, Outputs;
    var outs := multiset(Outputs(t));
    forall u | u in outs ensures u.txID == t.hash {
      OutputsHash(t, u);
    }
    forall u, v | u in created && v in outs ensures !SameOutpoint(u, v) {
    }
    UniqueUnionIff(created, outs);
    forall u, t' | u in created + outs && t' in all && u.txID == t'.hash ensures Spent(consumed, t') {
      if u !in created {
        assert t'.content == t.content;
      }
    }
  }

  lemma NoInputsNoOutputs(c: Crypto, t: Transaction)
    requires Verify(c, t) && t.content.inputs == []
    ensures Outputs(t) == []
  {
    ContentValue(c, t.content);
  }

  lemma RecordOne(c: Crypto, all: set<Transaction>, created: multiset<UTXO>,
        consumed: multiset<UTXO>, txs: seq<Transaction>, t: Transaction)
    requires History(all, created, consumed) && Faithful(all) && t in all
    requires Recorded(all, txs, consumed)
    requires TransactionEffect(c, created - consumed, t).ok
    ensures Recorded(all, txs + [t], consumed + multiset(t.content.inputs))
  {
    hide TransactionEffect, History;
    AcceptedStep(c, all, created, consumed, t);
    forall i | 0 <= i < |txs| && txs[i].hash == t.hash ensures txs[i].content.inputs == [] && t.content.inputs == [] {
      if t.content.inputs != [] {
        AcceptedIsNew(c, all, created, consumed, t, txs[i]);
      }
    }
  }

  lemma RecordedGrows(all: set<Transaction>, txs: seq<Transaction>, consumed: multiset<UTXO>,
        more: multiset<UTXO>)
    requires Recorded(all, txs, consumed)
    ensures Recorded(all, txs, consumed + more)
  {
  }

  lemma RecordedPrefix(all: set<Transaction>, txs: seq<Transaction>, t: Transaction,
        consumed: multiset<UTXO>)
    requires Recorded(all, txs + [t], consumed)
    ensures Recorded(all, txs, consumed)
  {
    var longer := txs + [t];
    forall i | 0 <= i < |txs| ensures txs[i] in all && Spent(consumed, txs[i]) {
      assert longer[i] == txs[i];
    }
    forall i, j | 0 <= i < j < |txs| && txs[i].hash == txs[j].hash
      ensures txs[i].content.inputs == [] && txs[j].content.inputs == []
    {
      assert longer[i] == txs[i] && longer[j] == txs[j];
    }
  }

  /** Applying transactions, as far as they go, continues the history. */
  lemma {:induction false} ApplyAllHistory(c: Crypto, all: set<Transaction>, created: multiset<UTXO>,
        consumed: multiset<UTXO>, chain: seq<Transaction>, txs: seq<Transaction>)
    requires History(all, created, consumed) && Faithful(all) && Recorded(all, chain, consumed)
    requires forall i :: 0 <= i < |txs| && Verify(c, txs[i]) ==> txs[i] in all
    ensures var e := ApplyAll(c, created - consumed, txs);
      && History(all, created + e.created, consumed + e.consumed)
      && Recorded(all, if e.ok then chain + txs else chain, consumed + e.consumed)
    decreases |txs|
  {
    hide TransactionEffect, History, Recorded, Faithful, Verify;
    var bag := created - consumed;
    if txs == [] {
      assert chain + txs == chain;
      assert created + multiset{} == created && consumed + multiset{} == consumed;
    } else {
      var t, rest := txs[0], txs[1..];
      var e := TransactionEffect(c, bag, t);
      TransactionPossible(c, bag, t);
      if e.ok {
        TransactionAcceptance(c, bag, t);
        AcceptedStep(c, all, created, consumed, t);
        RecordOne(c, all, created, consumed, chain, t);
        HistoryLedger(all, created, consumed, e);
        ApplyAllHistory(c, all, created + e.created, consumed + e.consumed, chain + [t], rest);
        var f := ApplyAll(c, After(bag, e), rest);
        assert created + e.created + f.created == created + (e.created + f.created);
        assert consumed + e.consumed + f.consumed == consumed + (e.consumed + f.consumed);
        assert chain + [t] + rest == chain + txs;
        if !f.ok {
          RecordedPrefix(all, chain, t, consumed + e.consumed + f.consumed);
        }
      } else {
        FailureCreatesNothing(c, bag, t);
        RejectedStep(all, created, consumed, e.consumed);
        assert created + e.created == created;
        RecordedGrows(all, chain, consumed, e.consumed);
      }
    }
  }

  lemma FailureCreatesNothing(c: Crypto, bag: multiset<UTXO>, t: Transaction)
    requires !TransactionEffect(c, bag, t).ok
    ensures TransactionEffect(c, bag, t).created == multiset{}
  {
  }

  /** The ledger is what was created and not consumed, before and after. */
  lemma HistoryLedger(all: set<Transaction>, created: multiset<UTXO>, consumed: multiset<UTXO>,
        e: Effect)
    requires History(all, created, consumed)
    ensures After(created - consumed, e) == created + e.created - (consumed + e.consumed)
  {
  }

  /** Everything a run took out of and put into the ledger. */
  function RunEffect(c: Crypto, st: ChainState, offered: seq<Block>): Effect
    decreases |offered|
  {
    if offered == [] then Effect(true, multiset{}, multiset{}) else
    Then(AddBlockEffect(c, st, offered[0]), RunEffect(c, AddBlock(c, st, offered[0]), offered[1..]))
  }

  /** Those of the block's transactions that verify at all are among `all`. */
  ghost predicate VerifiedWithin(c: Crypto, b: Block, all: set<Transaction>) {
    forall i :: 0 <= i < |b.transactions| && Verify(c, b.transactions[i]) ==> b.transactions[i] in all
  }

  lemma {:induction false} AddBlockHistory(c: Crypto, all: set<Transaction>, created: multiset<UTXO>,
        consumed: multiset<UTXO>, blocks: seq<Block>, b: Block)
    requires History(all, created, consumed) && Faithful(all) && Recorded(all, ChainTransactions(blocks), consumed)
    requires forall i :: 0 <= i < |b.transactions| && Verify(c, b.transactions[i]) ==> b.transactions[i] in all
    ensures var st := ChainState(blocks, created - consumed); var e := AddBlockEffect(c, st, b);
      && History(all, created + e.created, consumed + e.consumed)
      && Recorded(all, ChainTransactions(AddBlock(c, st, b).blocks), consumed + e.consumed)
  {
    hide History, Recorded, Faithful, Attaches, AllCheck, Verify;
    var st := ChainState(blocks, created - consumed);
    var e := AddBlockEffect(c, st, b);
    ApplyAllHistory(c, all, created, consumed, ChainTransactions(blocks), b.transactions);
    assert created + multiset{} == created && consumed + multiset{} == consumed;
    assert (blocks + [b])[..|blocks|] == blocks;
  }

  lemma {:induction false} RunHistory(c: Crypto, all: set<Transaction>, created: multiset<UTXO>,
        consumed: multiset<UTXO>, blocks: seq<Block>, offered: seq<Block>)
    requires History(all, created, consumed) && Faithful(all) && Recorded(all, ChainTransactions(blocks), consumed)
    requires forall i :: 0 <= i < |offered| ==> VerifiedWithin(c, offered[i], all)
    ensures var st := ChainState(blocks, created - consumed);
      var e := RunEffect(c, st, offered); var end := AddBlocks(c, st, offered);
      && History(all, created + e.created, consumed + e.consumed)
      && end.ledger == created + e.created - (consumed + e.consumed)
      && Recorded(all, ChainTransactions(end.blocks), consumed + e.consumed)
    decreases |offered|
  {
    hide History, Recorded, Faithful, AddBlockEffect, Verify;
    var st := ChainState(blocks, created - consumed);
    if offered == [] {
      assert created + multiset{} == created && consumed + multiset{} == consumed;
    } else {
      var b, rest := offered[0], offered[1..];
      var e, next := AddBlockEffect(c, st, b), AddBlock(c, st, b);
      AddBlockHistory(c, all, created, consumed, blocks, b);
      HistoryLedger(all, created, consumed, e);
      RunHistory(c, all, created + e.created, consumed + e.consumed, next.blocks, rest);
      var f := RunEffect(c, next, rest);
      assert created + e.created + f.created == created + (e.created + f.created);
      assert consumed + e.consumed + f.consumed == consumed + (e.consumed + f.consumed);
    }
  }

  /** No double spend. From a chain without transactions and initial coins at distinct
      outpoints, offer any blocks at all, valid or not, as long as the transactions among
      them that verify are faithfully and freshly hashed: over the whole run every outpoint
      is created at most once and consumed at most once, the ledger is exactly what was
      created and not consumed, and no transaction that spends anything is in the chain
      twice. */
  lemma {:induction false} NoDoubleSpend(c: Crypto, st: ChainState, offered: seq<Block>, all: set<Transaction>)
    requires UniqueOutpoints(st.ledger) && ChainTransactions(st.blocks) == []
    requires forall i :: 0 <= i < |offered| ==> VerifiedWithin(c, offered[i], all)
    requires Faithful(all) && FreshFrom(st.ledger, all)
    ensures var e := RunEffect(c, st, offered); var end := AddBlocks(c, st, offered);
      && UniqueOutpoints(st.ledger + e.created)
      && e.consumed <= st.ledger + e.created
      && (forall u :: e.consumed[u] <= 1)
      && end.ledger == st.ledger + e.created - e.consumed
      && NoRepeats(ChainTransactions(end.blocks))
  {
    hide RunEffect, AddBlocks, UniqueOutpoints, NoRepeats, ChainTransactions, VerifiedWithin;
    assert st.ledger - multiset{} == st.ledger;
    StartOfHistory(all, st.ledger);
    RunHistory(c, all, st.ledger, multiset{}, st.blocks, offered);
    var e := RunEffect(c, st, offered);
    assert multiset{} + e.consumed == e.consumed;
    ConsumedOnce(st.ledger + e.created, e.consumed);
  }

  lemma StartOfHistory(all: set<Transaction>, initial: multiset<UTXO>)
    requires UniqueOutpoints(initial) && FreshFrom(initial, all)
    ensures History(all, initial, multiset{}) && Recorded(all, [], multiset{})
  {
  }

  lemma ConsumedOnce(created: multiset<UTXO>, consumed: multiset<UTXO>)
    requires UniqueOutpoints(created) && consumed <= created
    ensures forall u :: consumed[u] <= 1
  {
  }

  /** A transaction that moves one coin of `name` to its own sender and is itself called
      `name`. */
  function Forged(c: Crypto, name: string, key: string, signature: string, amount: int64): Transaction {
    var address := c.keyToAddr(key);
    var content := TransactionContent([UTXO(name, 1, amount, address)], [UTXO("", 0, amount, address)], key, 0);
    Transaction(content, signature, name)
  }

  lemma ForgedVerifies(c: Crypto, name: string, key: string, signature: string, amount: int64)
    requires amount > 0 && name != "" && c.verifySignature(name, signature, key)
    ensures Verify(c, Forged(c, name, key, signature, amount))
  {
    hide ValueOf;
    var t := Forged(c, name, key, signature, amount);
    ValueOfShort(t.content.inputs, None);
    ValueOfShort(t.content.outputs, None);
  }

  /** So faithfulness is a genuine assumption: a transaction named after a stored coin is
      accepted, whatever that name is, and creates that coin's outpoint a second time. */
  lemma ForgedHashReusesOutpoint(c: Crypto, name: string, key: string, signature: string,
        amount: int64)
    requires amount > 0 && name != "" && c.verifySignature(name, signature, key)
    ensures var address := c.keyToAddr(key); var t := Forged(c, name, key, signature, amount);
      var u, v := UTXO(name, 0, amount, address), UTXO(name, 1, amount, address);
      && UniqueOutpoints(multiset{u, v})
      && TransactionEffect(c, multiset{u, v}, t).ok
      && After(multiset{u, v}, TransactionEffect(c, multiset{u, v}, t)) == multiset{u, u}
  {
    hide TransactionEffect, Verify;
    var address := c.keyToAddr(key);
    var u, v := UTXO(name, 0, amount, address), UTXO(name, 1, amount, address);
    var t := Forged(c, name, key, signature, amount);
    ForgedVerifies(c, name, key, signature, amount);
    assert t.content.inputs == [v] && Outputs(t) == [u];
    assert multiset(t.content.inputs) == multiset{v} && multiset(Outputs(t)) == multiset{u};
    TransactionAcceptance(c, multiset{u, v}, t);
  }
}
