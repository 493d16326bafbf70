/** Money supply under 64-bit arithmetic. */
module Conservation {
  import opened Types
  import opened Bags
  import opened Transactions
  import opened LedgerSpec

  lemma TotalIsValue(s: seq<UTXO>)
    ensures Value(multiset(s), None) == Total(s)
  {
    ValueOfSeq(s, None);
  }

  /** A verified transaction's stamped outputs are positive and worth its inputs modulo 2^64. */
  lemma OutputsWorth(c: Crypto, tx: Transaction)
    requires Verify(c, tx)
    ensures AllPositive(multiset(Outputs(tx)))
    ensures Value(multiset(Outputs(tx)), None) == Total(tx.content.inputs) % TWO_64
  {
    var outs := Outputs(tx);
    forall u: UTXO | u in multiset(outs) ensures u.amount > 0 {
      var i :| 0 <= i < |outs| && outs[i] == u;
      assert GetUTXO(tx, i) == Some(u);
    }
    TotalIsValue(outs);
    OutputsValue(tx, |outs|, None);
    assert outs[..|outs|] == outs && tx.content.outputs[..|outs|] == tx.content.outputs;
    ContentValue(c, tx.content);
  }

  /** What an effect does to the value of the ledger, to everyone or to one address. */
  lemma {:induction false} EffectValue(bag: multiset<UTXO>, e: Effect, who: Option<string>)
    requires Possible(bag, e)
    ensures Value(After(bag, e), who) == Value(bag, who) + Value(e.created, who) - Value(e.consumed, who)
  {
    ValueUnion(bag, e.created, who);
    ValueDifference(bag + e.created, e.consumed, who);
  }

  lemma EffectPositive(bag: multiset<UTXO>, e: Effect)
    requires AllPositive(bag) && AllPositive(e.created)
    ensures AllPositive(After(bag, e))
  {
  }

  lemma {:induction false} SuccessSupply(c: Crypto, bag: multiset<UTXO>, tx: Transaction, e: Effect)
    requires AllPositive(bag) && Verify(c, tx) && multiset(tx.content.inputs) <= bag
    requires e == Effect(true, multiset(tx.content.inputs), multiset(Outputs(tx)))
    ensures AllPositive(After(bag, e))
    ensures Total(tx.content.inputs) <= Value(bag, None)
    ensures Value(After(bag, e), None)
      == Value(bag, None) - Total(tx.content.inputs) + Total(tx.content.inputs) % TWO_64
  {
    OutputsWorth(c, tx);
    EffectValue(bag, e, None);
    EffectPositive(bag, e);
    TotalIsValue(tx.content.inputs);
    ValueMonotone(e.consumed, bag, None);
  }

  lemma {:induction false} FailureSupply(bag: multiset<UTXO>, e: Effect)
    requires AllPositive(bag) && e.created == multiset{} && e.consumed <= bag
    ensures AllPositive(After(bag, e)) && Value(After(bag, e), None) <= Value(bag, None)
  {
    EffectValue(bag, e, None);
    EffectPositive(bag, e);
    ValueMonotone(e.consumed, bag, None);
  }

  /** One AddTransaction: coins stay positive, the supply never grows, and a success
      keeps it exactly when the inputs are worth less than 2^64. */
  lemma {:induction false} TransactionSupply(c: Crypto, bag: multiset<UTXO>, tx: Transaction)
    requires AllPositive(bag)
    ensures var e := TransactionEffect(c, bag, tx); var after := After(bag, e);
      && AllPositive(after)
      && Value(after, None) <= Value(bag, None)
      && (e.ok ==> (Value(after, None) == Value(bag, None) <==> Total(tx.content.inputs) < TWO_64))
      && (e.ok ==> 0 <= Total(tx.content.inputs) <= Value(bag, None))
  {
    var e := TransactionEffect(c, bag, tx);
    TransactionPossible(c, bag, tx);
    if e.ok {
      TransactionAcceptance(c, bag, tx);
      SuccessSupply(c, bag, tx, e);
      ContentValue(c, tx.content);
    } else {
      FailureSupply(bag, e);
    }
  }

  lemma {:induction false} ApplyAllSupply(c: Crypto, bag: multiset<UTXO>, txs: seq<Transaction>)
    requires AllPositive(bag)
    ensures var e := ApplyAll(c, bag, txs); var after := After(bag, e);
      && AllPositive(after)
      && Value(after, None) <= Value(bag, None)
      && (e.ok && Value(bag, None) < TWO_64 ==> Value(after, None) == Value(bag, None))
    decreases |txs|
  {
    if txs == [] {
      assert After(bag, ApplyAll(c, bag, txs)) == bag;
    } else {
      var e := TransactionEffect(c, bag, txs[0]);
      TransactionSupply(c, bag, txs[0]);
      if e.ok {
        var rest := txs[1..];
        ApplyAllSupply(c, After(bag, e), rest);
        TransactionPossible(c, bag, txs[0]);
        ApplyAllPossible(c, After(bag, e), rest);
        ThenComposes(bag, e, ApplyAll(c, After(bag, e), rest));
      }
    }
  }

  /** AddBlock never creates money, and while the supply is below 2^64 a successful one
      keeps it exactly; a failing one can only destroy some. */
  lemma {:induction false} BlockSupply(c: Crypto, bag: multiset<UTXO>, txs: seq<Transaction>)
    requires AllPositive(bag)
    ensures var e := BlockEffect(c, bag, txs); var after := After(bag, e);
      && AllPositive(after)
      && Value(after, None) <= Value(bag, None)
      && (e.ok && Value(bag, None) < TWO_64 ==> Value(after, None) == Value(bag, None))
  {
    ApplyAllSupply(c, bag, txs);
    assert After(bag, NO_EFFECT) == bag;
  }

  /** Below 2^63 no balance wraps: what Balance computes is the address's true share. */
  lemma {:induction false} BalancesFit(bag: multiset<UTXO>, who: string)
    requires AllPositive(bag) && Value(bag, None) < TWO_63
    ensures Wrap64(Value(bag, Some(who))) == Value(bag, Some(who))
    ensures 0 <= Value(bag, Some(who)) <= Value(bag, None)
  {
    ValueNonNegative(bag, Some(who));
  }
}
