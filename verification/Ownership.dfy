/** Who may spend: only the holder of the key a coin's address is derived from, over whole
    runs and whatever peers do; and what an accepted transaction does to every balance. */
module Ownership {
  import opened Types
  import opened Bags
  import opened Transactions
  import opened LedgerSpec
  import opened Blocks
  import opened ChainSpec
  import opened Fork
  import opened ForkRuns
  import Conservation
  import opened Payment
  import opened Runs

  /** `t` carries a signature that verifies under a key whose address is `owner`, and lists
      coin `u` among its inputs. */
  ghost predicate Authorises(c: Crypto, t: Transaction, u: UTXO, owner: string) {
    && u in t.content.inputs
    && c.keyToAddr(t.content.senderPubKey) == owner
    && c.verifySignature(t.hash, t.signature, t.content.senderPubKey)
  }

  /** One transaction, accepted or failing halfway, takes only coins of the address derived from
      the key its signature verifies under. */
  lemma OnlyOwnerSpends(c: Crypto, bag: multiset<UTXO>, tx: Transaction, u: UTXO)
    requires u in TransactionEffect(c, bag, tx).consumed
    ensures u in bag && Authorises(c, tx, u, u.address)
  {
    TransactionPossible(c, bag, tx);
    assert u in tx.content.inputs;
  }

  lemma {:induction false} ApplyAllAuthorised(c: Crypto, bag: multiset<UTXO>, txs: seq<Transaction>, u: UTXO)
      returns (i: nat)
    requires u in ApplyAll(c, bag, txs).consumed
    ensures i < |txs| && Authorises(c, txs[i], u, u.address)
    decreases |txs|
  {
    hide TransactionEffect, Authorises;
    var e := TransactionEffect(c, bag, txs[0]);
    if u in e.consumed {
      i := 0;
      OnlyOwnerSpends(c, bag, txs[0], u);
    } else {
      i := ApplyAllAuthorised(c, After(bag, e), txs[1..], u);
      i := i + 1;
    }
  }

  /** In every run, with any peers: whatever coin was ever taken, some offered block that
      verifies carries a transaction that authorises it. */
  lemma {:induction false} RunAuthorised(c: Crypto, st: ChainState, steps: seq<Step>, u: UTXO) returns (i: nat, j: nat)
    requires u in StepsEffect(c, st, steps).consumed
    ensures i < |steps| && steps[i].Offer? && VerifyBlock(c, steps[i].block)
    ensures j < |steps[i].block.transactions| && Authorises(c, steps[i].block.transactions[j], u, u.address)
  {
    hide Authorises, VerifyBlock, ApplyAll, TakeSteps, AllCheck;
    var front, s := steps[..|steps| - 1], steps[|steps| - 1];
    if u in StepsEffect(c, st, front).consumed {
      i, j := RunAuthorised(c, st, front, u);
    } else {
      var mid := TakeSteps(c, st, front);
      i := |steps| - 1;
      j := ApplyAllAuthorised(c, mid.ledger, s.block.transactions, u);
    }
  }

  /** `a` has authorised something in the run: an offered block that verifies carries a
      transaction with a signature that verifies under a key of `a`. */
  ghost predicate HasSigned(c: Crypto, steps: seq<Step>, a: string) {
    exists i, j ::
      && 0 <= i < |steps| && steps[i].Offer? && VerifyBlock(c, steps[i].block)
      && 0 <= j < |steps[i].block.transactions|
      && SignedBy(c, steps[i].block.transactions[j], a)
  }

  ghost predicate SignedBy(c: Crypto, t: Transaction, a: string) {
    && c.keyToAddr(t.content.senderPubKey) == a
    && c.verifySignature(t.hash, t.signature, t.content.senderPubKey)
  }

  /** Nobody loses a coin without having signed for it: in every run, with any blocks, forks and
      peers, an address whose key has signed nothing in an offered block keeps every coin it had,
      so its balance does not fall. */
  lemma {:induction false} UnsignedKeepCoins(c: Crypto, st: ChainState, steps: seq<Step>, a: string)
    requires !HasSigned(c, steps, a)
    ensures forall u: UTXO :: u.address == a ==> TakeSteps(c, st, steps).ledger[u] >= st.ledger[u]
    ensures AllPositive(st.ledger) ==> Value(TakeSteps(c, st, steps).ledger, Some(a)) >= Value(st.ledger, Some(a))
  {
    hide StepsEffect, TakeSteps, VerifyBlock, Value;
    var e := StepsEffect(c, st, steps);
    RunBalances(c, st, steps);
    forall u: UTXO | u.address == a ensures u !in e.consumed {
      if u in e.consumed {
        var i, j := RunAuthorised(c, st, steps, u);
      }
    }
    var end := TakeSteps(c, st, steps).ledger;
    forall u: UTXO | u.address == a ensures end[u] >= st.ledger[u] {
      assert e.consumed[u] == 0;
    }
    if AllPositive(st.ledger) {
      RunPositive(c, st, steps);
      KeptCoinsKeepValue(st.ledger, end, a);
    }
  }

  lemma {:induction false} RunPositive(c: Crypto, st: ChainState, steps: seq<Step>)
    requires AllPositive(st.ledger)
    ensures AllPositive(TakeSteps(c, st, steps).ledger)
  {
    hide AllPositive, BlockEffect, Attaches, HandleFork;
    if steps != [] {
      var front, s := steps[..|steps| - 1], steps[|steps| - 1];
      RunPositive(c, st, front);
      var mid := TakeSteps(c, st, front);
      assert After(mid.ledger, NO_EFFECT) == mid.ledger;
      if s.Offer? {
        Conservation.BlockSupply(c, mid.ledger, s.block.transactions);
      }
    }
  }

  /** Holding at least the same coins of `a` is being worth at least as much to `a`. */
  lemma {:induction false} KeptCoinsKeepValue(before: multiset<UTXO>, after: multiset<UTXO>, a: string)
    requires AllPositive(after) && forall u: UTXO :: u.address == a ==> after[u] >= before[u]
    ensures Value(after, Some(a)) >= Value(before, Some(a))
  {
    hide Value;
    var common := before * after;
    var lost := before - common;
    assert before == common + lost && common <= after;
    forall u | u in lost ensures u.address != a {
      assert common[u] < before[u];
    }
    ValueElsewhere(lost, a);
    ValueUnion(common, lost, Some(a));
    ValueMonotone(common, after, Some(a));
  }

  // --- What an accepted transaction does to every balance ---------------------------

  lemma AcceptedShape(c: Crypto, tx: Transaction)
    requires Verify(c, tx)
    ensures |tx.content.outputs| <= 2
    ensures forall i :: 0 <= i < |tx.content.inputs| ==>
      tx.content.inputs[i].address == c.keyToAddr(tx.content.senderPubKey) && tx.content.inputs[i].amount > 0
    ensures forall i :: 0 <= i < |tx.content.outputs| ==> tx.content.outputs[i].amount > 0
    ensures |tx.content.outputs| == 2 ==> tx.content.outputs[1].address == c.keyToAddr(tx.content.senderPubKey)
  {
  }

  /** Any accepted transaction, whoever built it: it moves the amount of its first output, from
      the sender to the address of that output, and touches no other balance; what the sender's
      inputs are worth beyond 2^64 is lost. */
  lemma {:induction false} AcceptedMoves(c: Crypto, bag: multiset<UTXO>, tx: Transaction, a: string)
    requires TransactionEffect(c, bag, tx).ok
    ensures var after := After(bag, TransactionEffect(c, bag, tx)); var t := tx.content;
      var paid := if t.outputs == [] then 0 else t.outputs[0].amount as int;
      var burnt := Total(t.inputs) - Total(t.outputs);
      Value(after, Some(a)) - Value(bag, Some(a)) ==
        (if t.outputs != [] && a == t.outputs[0].address then paid else 0)
        - (if a == c.keyToAddr(t.senderPubKey) then paid + burnt else 0)
    ensures tx.content.outputs == [] ==> Total(tx.content.inputs) % TWO_64 == 0
    ensures Total(tx.content.inputs) < TWO_64 ==> Total(tx.content.outputs) == Total(tx.content.inputs)
  {
    hide TransactionEffect, Verify, ValueOf, Value;
    var t := tx.content;
    TransactionAcceptance(c, bag, tx);
    AcceptedShape(c, tx);
    SettledBalance(c, bag, tx, a);
    ValueOfOthers(t.inputs, c.keyToAddr(t.senderPubKey), a);
    ValueOfShort(t.outputs, Some(a));
    ValueOfShort(t.outputs, None);
    AcceptedWorth(c, tx);
  }

  lemma AcceptedWorth(c: Crypto, tx: Transaction)
    requires Verify(c, tx)
    ensures Total(tx.content.outputs) == Total(tx.content.inputs) % TWO_64
    ensures Total(tx.content.inputs) < TWO_64 ==> Total(tx.content.outputs) == Total(tx.content.inputs)
  {
    hide ValueOf;
    ContentValue(c, tx.content);
  }
}
