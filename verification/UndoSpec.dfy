/** Undoing a block: what RemoveBlock does, and what it would do had it removed the
    outputs under the name they were stored by. */
module UndoSpec {
  import opened Types
  import opened Bags
  import opened Transactions
  import opened LedgerSpec

  /** The coins an undo tries to remove: the stamped outputs that AddBlock stored, or
      the outputs as written in the transaction, whose TxID is empty. */
  function UndoneOutputs(tx: Transaction, stamped: bool): seq<UTXO> {
    if stamped then Outputs(tx) else tx.content.outputs
  }

  function UndoTransaction(bag: multiset<UTXO>, tx: Transaction, stamped: bool): Effect {
    var outs := UndoneOutputs(tx, stamped);
    var k := Removable(bag, outs);
    var done := k == |outs|;
    Effect(done, multiset(outs[..k]), if done then multiset(tx.content.inputs) else multiset{})
  }

  /** Undoing transactions from the last to the first, stopping at the first failure. */
  function Undo(bag: multiset<UTXO>, txs: seq<Transaction>, stamped: bool): Effect
    decreases |txs|
  {
    if txs == [] then Effect(true, multiset{}, multiset{}) else
    var later := Undo(bag, txs[1..], stamped);
    if !later.ok then later else
    Then(later, UndoTransaction(After(bag, later), txs[0], stamped))
  }

  lemma UndoTransactionPossible(bag: multiset<UTXO>, tx: Transaction, stamped: bool)
    ensures UndoTransaction(bag, tx, stamped).consumed <= bag
  {
    RemovableIsLongest(bag, UndoneOutputs(tx, stamped));
  }

  lemma {:induction false} UndoPossible(bag: multiset<UTXO>, txs: seq<Transaction>, stamped: bool)
    ensures Possible(bag, Undo(bag, txs, stamped))
    decreases |txs|
  {
    if txs != [] {
      UndoPossible(bag, txs[1..], stamped);
      var later := Undo(bag, txs[1..], stamped);
      if later.ok {
        UndoTransactionPossible(After(bag, later), txs[0], stamped);
        ThenComposes(bag, later, UndoTransaction(After(bag, later), txs[0], stamped));
      }
    }
  }

  lemma UndoTransactionInverts(bag: multiset<UTXO>, tx: Transaction)
    requires multiset(tx.content.inputs) <= bag
    ensures var e := UndoTransaction(bag + multiset(Outputs(tx)) - multiset(tx.content.inputs), tx, true);
      e.ok && After(bag + multiset(Outputs(tx)) - multiset(tx.content.inputs), e) == bag
  {
    var ins, outs := multiset(tx.content.inputs), multiset(Outputs(tx));
    var b := bag + outs - ins;
    assert outs <= b by {
      forall u ensures outs[u] <= b[u] {
        assert ins[u] <= bag[u];
      }
    }
    assert Outputs(tx)[..|Outputs(tx)|] == Outputs(tx);
    RemovableIs(b, Outputs(tx), |Outputs(tx)|);
    assert b + ins - outs == bag by {
      forall u ensures (b + ins - outs)[u] == bag[u] {
        assert ins[u] <= bag[u];
      }
    }
  }

  /** Undoing with stamped outputs is the exact inverse of a successful AddBlock: no
      freshness or distinctness is needed. */
  lemma {:induction false} StampedUndoInverts(c: Crypto, bag: multiset<UTXO>, txs: seq<Transaction>)
    requires ApplyAll(c, bag, txs).ok
    ensures var after := After(bag, ApplyAll(c, bag, txs));
      Undo(after, txs, true).ok && After(after, Undo(after, txs, true)) == bag
    decreases |txs|
  {
    if txs != [] {
      var t, rest := txs[0], txs[1..];
      var e := TransactionEffect(c, bag, t);
      TransactionAcceptance(c, bag, t);
      var mid := After(bag, e);
      ApplyAllPossible(c, mid, rest);
      ThenComposes(bag, e, ApplyAll(c, mid, rest));
      StampedUndoInverts(c, mid, rest);
      var after := After(bag, ApplyAll(c, bag, txs));
      assert after == After(mid, ApplyAll(c, mid, rest));
      UndoPossible(after, rest, true);
      UndoTransactionInverts(bag, t);
      UndoTransactionPossible(mid, t, true);
      ThenComposes(after, Undo(after, rest, true), UndoTransaction(mid, t, true));
    }
  }

  /** Applying whole blocks in order, all successfully. */
  ghost predicate BlocksApply(c: Crypto, bag: multiset<UTXO>, blocks: seq<seq<Transaction>>)
    decreases |blocks|
  {
    blocks != [] ==>
      && BlockEffect(c, bag, blocks[0]).ok
      && BlocksApply(c, After(bag, BlockEffect(c, bag, blocks[0])), blocks[1..])
  }

  function AfterBlocks(c: Crypto, bag: multiset<UTXO>, blocks: seq<seq<Transaction>>): multiset<UTXO>
    decreases |blocks|
  {
    if blocks == [] then bag
    else AfterBlocks(c, After(bag, BlockEffect(c, bag, blocks[0])), blocks[1..])
  }

  /** The ledger after undoing blocks from the last to the first. */
  function AfterUndos(bag: multiset<UTXO>, blocks: seq<seq<Transaction>>): multiset<UTXO>
    decreases |blocks|
  {
    if blocks == [] then bag
    else var later := AfterUndos(bag, blocks[1..]);
      After(later, Undo(later, blocks[0], true))
  }

  /** Undoing any number of blocks in reverse restores the ledger from before them. */
  lemma {:induction false} StampedUndoManyInverts(c: Crypto, bag: multiset<UTXO>, blocks: seq<seq<Transaction>>)
    requires BlocksApply(c, bag, blocks)
    ensures AfterUndos(AfterBlocks(c, bag, blocks), blocks) == bag
    decreases |blocks|
  {
    if blocks != [] {
      StampedUndoManyInverts(c, After(bag, BlockEffect(c, bag, blocks[0])), blocks[1..]);
      StampedUndoInverts(c, bag, blocks[0]);
    }
  }

  ghost predicate NoEmptyIDs(bag: multiset<UTXO>) {
    forall u :: u in bag ==> u.txID != ""
  }

  ghost predicate NoOutputs(txs: seq<Transaction>) {
    forall i :: 0 <= i < |txs| ==> txs[i].content.outputs == []
  }

  lemma UnstampedUndoOne(c: Crypto, bag: multiset<UTXO>, tx: Transaction)
    requires NoEmptyIDs(bag) && Verify(c, tx)
    ensures UndoTransaction(bag, tx, false) ==
      if tx.content.outputs == [] then Effect(true, multiset{}, multiset(tx.content.inputs)) else NO_EFFECT
  {
    var outs := tx.content.outputs;
    if outs != [] {
      assert outs[..1] == [outs[0]] && outs[0] in multiset(outs[..1]);
      RemovableIs(bag, outs, 0);
    }
  }

  lemma NoOutputsStep(txs: seq<Transaction>)
    requires txs != []
    ensures NoOutputs(txs) <==> txs[0].content.outputs == [] && NoOutputs(txs[1..])
  {
  }

  lemma {:induction false} AddingKeepsIDs(c: Crypto, bag: multiset<UTXO>, txs: seq<Transaction>)
    requires NoEmptyIDs(bag) && AllVerify(c, txs)
    ensures NoEmptyIDs(bag + Ins(txs))
  {
    forall u | u in bag + Ins(txs) ensures u.txID != "" {
      if u in Ins(txs) {
        var i, j := InsComeFrom(txs, u);
        assert Verify(c, txs[i]);
      }
    }
  }

  /** What RemoveBlock really does to a verified block on a ledger without empty TxIDs:
      it fails as soon as it meets an output, and the only coins it has put back by then
      are the inputs of the output-less transactions after the last one with an output. */
  lemma {:induction false} UnstampedUndoFails(c: Crypto, bag: multiset<UTXO>, txs: seq<Transaction>) returns (k: nat)
    requires NoEmptyIDs(bag) && AllVerify(c, txs)
    ensures k <= |txs| && NoOutputs(txs[k..])
    ensures k == 0 <==> NoOutputs(txs)
    ensures k > 0 ==> txs[k - 1].content.outputs != []
    ensures Undo(bag, txs, false) == Effect(NoOutputs(txs), multiset{}, Ins(txs[k..]))
    decreases |txs|
  {
    hide Verify, UndoTransaction, NoEmptyIDs;
    if txs == [] {
      k := 0;
    } else {
      var rest := txs[1..];
      k := UnstampedUndoFails(c, bag, rest);
      NoOutputsStep(txs);
      assert Verify(c, txs[0]);
      assert rest[k..] == txs[k + 1..];
      if NoOutputs(rest) {
        assert rest[0..] == rest && txs[0..] == txs;
        AddingKeepsIDs(c, bag, rest);
        assert After(bag, Undo(bag, rest, false)) == bag + Ins(rest);
        UnstampedUndoOne(c, bag + Ins(rest), txs[0]);
        k := if txs[0].content.outputs == [] then 0 else 1;
      } else {
        k := k + 1;
      }
    }
  }

  /** For every verified block with an output, on any ledger without empty TxIDs,
      RemoveBlock errs; and if no transaction's inputs reach 2^64 it changes nothing. */
  lemma {:induction false} UnstampedUndoIsInert(c: Crypto, bag: multiset<UTXO>, txs: seq<Transaction>)
    requires NoEmptyIDs(bag) && AllVerify(c, txs) && !NoOutputs(txs)
    ensures !Undo(bag, txs, false).ok
    ensures (forall i :: 0 <= i < |txs| ==> Total(txs[i].content.inputs) < TWO_64)
      ==> Undo(bag, txs, false) == NO_EFFECT
  {
    var k := UnstampedUndoFails(c, bag, txs);
    if forall i :: 0 <= i < |txs| ==> Total(txs[i].content.inputs) < TWO_64 {
      forall u ensures u !in Ins(txs[k..]) {
        if u in Ins(txs[k..]) {
          var i, j := InsComeFrom(txs[k..], u);
          OutputlessSpendsNothing(c, txs[k + i]);
        }
      }
    }
  }

  lemma OutputlessSpendsNothing(c: Crypto, tx: Transaction)
    requires Verify(c, tx) && tx.content.outputs == [] && Total(tx.content.inputs) < TWO_64
    ensures tx.content.inputs == []
  {
    var ins := tx.content.inputs;
    ContentValue(c, tx.content);
    TotalPrefix(ins, 0, |ins|);
    assert ins[..|ins|] == ins && ins[..0] == [];
  }
}
