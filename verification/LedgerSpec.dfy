/** What the ledger's operations do to the multiset of unspent coins, and when. */
module LedgerSpec {
  import opened Types
  import opened Transactions

  /** The outcome of an operation: whether it reported success, and the coins it
      really took out of and put into the ledger, also when it failed halfway. */
  datatype Effect = Effect(ok: bool, consumed: multiset<UTXO>, created: multiset<UTXO>)

  const NO_EFFECT := Effect(false, multiset{}, multiset{})

  function After(bag: multiset<UTXO>, e: Effect): multiset<UTXO> {
    bag + e.created - e.consumed
  }

  /** `e` followed by `f`, with the verdict of `f`. */
  function Then(e: Effect, f: Effect): Effect {
    Effect(f.ok, e.consumed + f.consumed, e.created + f.created)
  }

  predicate InputsPresent(bag: multiset<UTXO>, tx: Transaction) {
    forall i :: 0 <= i < |tx.content.inputs| ==> tx.content.inputs[i] in bag
  }

  predicate CheckTransaction(c: Crypto, bag: multiset<UTXO>, tx: Transaction) {
    Verify(c, tx) && InputsPresent(bag, tx)
  }

  /** How many of `coins` can be removed one after the other: the longest prefix the
      bag contains. */
  function Removable(bag: multiset<UTXO>, coins: seq<UTXO>): (k: nat)
    ensures k <= |coins|
  {
    if coins == [] then 0 else
    var p := coins[..|coins| - 1];
    var k := Removable(bag, p);
    if k == |p| && multiset(coins) <= bag then |coins| else k
  }

  lemma RemovableStep(bag: multiset<UTXO>, coins: seq<UTXO>)
    requires coins != []
    ensures var p := coins[..|coins| - 1]; var k := Removable(bag, p);
      Removable(bag, coins) == if k == |p| && multiset(coins) <= bag then |coins| else k
  {
  }

  lemma {:induction false} RemovableIsLongest(bag: multiset<UTXO>, coins: seq<UTXO>)
    ensures var k := Removable(bag, coins);
      && multiset(coins[..k]) <= bag
      && (k < |coins| ==> !(multiset(coins[..k + 1]) <= bag))
  {
    hide Removable;
    if coins == [] {
      assert coins[..Removable(bag, coins)] == [];
    } else {
      var p := coins[..|coins| - 1];
      RemovableStep(bag, coins);
      RemovableIsLongest(bag, p);
      var k := Removable(bag, p);
      assert p[..k] == coins[..k];
      assert coins[..|coins|] == coins && p[..|p|] == p;
      if k < |p| {
        assert p[..k + 1] == coins[..k + 1];
      }
    }
  }

  lemma PrefixContained(coins: seq<UTXO>, i: nat, j: nat)
    requires i <= j <= |coins|
    ensures multiset(coins[..i]) <= multiset(coins[..j])
  {
    assert coins[..j] == coins[..i] + coins[i..j];
  }

  lemma {:induction false} RemovableIs(bag: multiset<UTXO>, coins: seq<UTXO>, k: nat)
    requires k <= |coins| && multiset(coins[..k]) <= bag
    requires k < |coins| ==> !(multiset(coins[..k + 1]) <= bag)
    ensures Removable(bag, coins) == k
  {
    var r := Removable(bag, coins);
    RemovableIsLongest(bag, coins);
    if r < k {
      PrefixContained(coins, r + 1, k);
    } else if k < r {
      PrefixContained(coins, k + 1, r);
    }
  }

  /** AddTransaction: a failed check does nothing, a failed removal keeps the removals
      made so far, and outputs are added only when every input was removed. */
  function TransactionEffect(c: Crypto, bag: multiset<UTXO>, tx: Transaction): Effect {
    if !CheckTransaction(c, bag, tx) then NO_EFFECT else
    var k := Removable(bag, tx.content.inputs);
    var done := k == |tx.content.inputs|;
    Effect(done, multiset(tx.content.inputs[..k]), if done then multiset(Outputs(tx)) else multiset{})
  }

  /** Applying transactions in order, stopping at the first that fails. */
  function ApplyAll(c: Crypto, bag: multiset<UTXO>, txs: seq<Transaction>): Effect
    decreases |txs|
  {
    if txs == [] then Effect(true, multiset{}, multiset{}) else
    var e := TransactionEffect(c, bag, txs[0]);
    if !e.ok then e else Then(e, ApplyAll(c, After(bag, e), txs[1..]))
  }

  predicate AllCheck(c: Crypto, bag: multiset<UTXO>, txs: seq<Transaction>) {
    forall i :: 0 <= i < |txs| ==> CheckTransaction(c, bag, txs[i])
  }

  /** AddBlock: every transaction is checked against the ledger before the block, then
      they are applied in order. */
  function BlockEffect(c: Crypto, bag: multiset<UTXO>, txs: seq<Transaction>): Effect {
    if AllCheck(c, bag, txs) then ApplyAll(c, bag, txs) else NO_EFFECT
  }

  /** All inputs of a list of transactions, with multiplicity. */
  function Ins(txs: seq<Transaction>): multiset<UTXO> {
    if txs == [] then multiset{} else multiset(txs[0].content.inputs) + Ins(txs[1..])
  }

  /** All outputs of a list of transactions, stamped. */
  function Outs(txs: seq<Transaction>): multiset<UTXO> {
    if txs == [] then multiset{} else multiset(Outputs(txs[0])) + Outs(txs[1..])
  }

  predicate AllVerify(c: Crypto, txs: seq<Transaction>) {
    forall i :: 0 <= i < |txs| ==> Verify(c, txs[i])
  }

  function Hashes(txs: seq<Transaction>): set<string> {
    set i | 0 <= i < |txs| :: txs[i].hash
  }

  /** No stored coin carries the hash of one of the transactions. */
  ghost predicate FreshHashes(bag: multiset<UTXO>, txs: seq<Transaction>) {
    forall u :: u in bag ==> u.txID !in Hashes(txs)
  }

  // --- Effects compose ---------------------------------------------------------

  /** An effect takes only what is there. */
  ghost predicate Possible(bag: multiset<UTXO>, e: Effect) {
    e.consumed <= bag + e.created
  }

  lemma ThenComposes(bag: multiset<UTXO>, e: Effect, f: Effect)
    requires Possible(bag, e) && Possible(After(bag, e), f)
    ensures Possible(bag, Then(e, f))
    ensures After(bag, Then(e, f)) == After(After(bag, e), f)
  {
  }

  lemma TransactionPossible(c: Crypto, bag: multiset<UTXO>, tx: Transaction)
    ensures TransactionEffect(c, bag, tx).consumed <= bag
  {
    RemovableIsLongest(bag, tx.content.inputs);
  }

  lemma {:induction false} ApplyAllPossible(c: Crypto, bag: multiset<UTXO>, txs: seq<Transaction>)
    ensures Possible(bag, ApplyAll(c, bag, txs))
    decreases |txs|
  {
    if txs != [] {
      var e := TransactionEffect(c, bag, txs[0]);
      TransactionPossible(c, bag, txs[0]);
      if e.ok {
        ApplyAllPossible(c, After(bag, e), txs[1..]);
        ThenComposes(bag, e, ApplyAll(c, After(bag, e), txs[1..]));
      }
    }
  }

  // --- One transaction ---------------------------------------------------------

  lemma ContainedIsPresent(bag: multiset<UTXO>, tx: Transaction)
    requires multiset(tx.content.inputs) <= bag
    ensures InputsPresent(bag, tx)
  {
  }

  /** AddTransaction succeeds exactly when the transaction verifies and its inputs,
      counted with multiplicity, are all stored. */
  lemma TransactionAcceptance(c: Crypto, bag: multiset<UTXO>, tx: Transaction)
    ensures var e := TransactionEffect(c, bag, tx);
      && (e.ok <==> Verify(c, tx) && multiset(tx.content.inputs) <= bag)
      && (e.ok ==> e.consumed == multiset(tx.content.inputs) && e.created == multiset(Outputs(tx)))
  {
    var ins := tx.content.inputs;
    RemovableIsLongest(bag, ins);
    assert ins[..|ins|] == ins;
    if multiset(ins) <= bag {
      ContainedIsPresent(bag, tx);
      RemovableIs(bag, ins, |ins|);
    }
  }

  /** A failed AddTransaction leaves the ledger as it was exactly when it was the check
      that failed; otherwise the first input at least is gone. */
  lemma TransactionAtomicity(c: Crypto, bag: multiset<UTXO>, tx: Transaction)
    requires !TransactionEffect(c, bag, tx).ok
    ensures After(bag, TransactionEffect(c, bag, tx)) == bag <==> !CheckTransaction(c, bag, tx)
    ensures After(bag, TransactionEffect(c, bag, tx)) <= bag
    ensures CheckTransaction(c, bag, tx) ==>
      TransactionEffect(c, bag, tx).consumed != multiset{} && TransactionEffect(c, bag, tx).created == multiset{}
  {
    hide Verify, Outputs, Removable;
    var ins, e := tx.content.inputs, TransactionEffect(c, bag, tx);
    RemovableIsLongest(bag, ins);
    TakenAway(bag, e.consumed);
    if CheckTransaction(c, bag, tx) {
      var k := Removable(bag, ins);
      assert multiset(ins[..1]) <= bag by {
        assert ins[..1] == [ins[0]];
      }
      assert ins[0] == ins[..k][0] && ins[0] in e.consumed;
    }
  }

  lemma TakenAway(bag: multiset<UTXO>, taken: multiset<UTXO>)
    requires taken <= bag
    ensures bag + multiset{} - taken <= bag
    ensures bag + multiset{} - taken == bag <==> taken == multiset{}
  {
    if u :| u in taken {
      assert (bag - taken)[u] < bag[u];
    }
  }

  // --- A whole block -----------------------------------------------------------

  /** The inputs of every transaction, together with those before it, are covered by what was
      stored and what the transactions before it create. */
  ghost predicate Funded(bag: multiset<UTXO>, txs: seq<Transaction>) {
    forall i :: 0 <= i < |txs| ==> Ins(txs[..i + 1]) <= bag + Outs(txs[..i])
  }

  lemma PrefixSums(txs: seq<Transaction>, i: nat)
    requires i < |txs|
    ensures Ins(txs[..i + 1]) == multiset(txs[0].content.inputs) + Ins(txs[1..][..i])
    ensures Outs(txs[..i + 1]) == multiset(Outputs(txs[0])) + Outs(txs[1..][..i])
  {
    assert txs[..i + 1][1..] == txs[1..][..i];
  }

  lemma Shifted(bag: multiset<UTXO>, a: multiset<UTXO>, outs: multiset<UTXO>, x: multiset<UTXO>,
        y: multiset<UTXO>)
    requires a <= bag
    ensures x <= bag + outs - a + y <==> a + x <= bag + (outs + y)
  {
    if x <= bag + outs - a + y {
      forall u ensures (a + x)[u] <= (bag + (outs + y))[u] {
        assert a[u] <= bag[u] && x[u] <= (bag + outs - a + y)[u];
      }
    }
    if a + x <= bag + (outs + y) {
      forall u ensures x[u] <= (bag + outs - a + y)[u] {
        assert a[u] <= bag[u] && (a + x)[u] <= (bag + (outs + y))[u];
      }
    }
  }

  lemma FundedStep(bag: multiset<UTXO>, txs: seq<Transaction>)
    requires txs != []
    ensures var ins, outs := multiset(txs[0].content.inputs), multiset(Outputs(txs[0]));
      Funded(bag, txs) <==> ins <= bag && Funded(bag + outs - ins, txs[1..])
  {
    hide Ins, Outs, Outputs;
    var ins, outs, rest := multiset(txs[0].content.inputs), multiset(Outputs(txs[0])), txs[1..];
    NoSums(txs);
    NoSums(rest);
    PrefixSums(txs, 0);
    assert Ins(txs[..1]) == ins && bag + Outs(txs[..0]) == bag;
    if ins <= bag {
      forall i | 0 <= i < |rest|
        ensures Ins(rest[..i + 1]) <= bag + outs - ins + Outs(rest[..i])
          <==> Ins(txs[..i + 2]) <= bag + Outs(txs[..i + 1])
      {
        PrefixSums(txs, i + 1);
        PrefixSums(txs, i);
        Shifted(bag, ins, outs, Ins(rest[..i + 1]), Outs(rest[..i]));
      }
      if Funded(bag, txs) {
        forall i | 0 <= i < |rest| ensures Ins(rest[..i + 1]) <= bag + outs - ins + Outs(rest[..i]) {
          assert Ins(txs[..(i + 1) + 1]) <= bag + Outs(txs[..i + 1]);
        }
      }
      if Funded(bag + outs - ins, rest) {
        forall i | 0 <= i < |txs| ensures Ins(txs[..i + 1]) <= bag + Outs(txs[..i]) {
          if i > 0 {
            assert Ins(rest[..(i - 1) + 1]) <= bag + outs - ins + Outs(rest[..i - 1]);
            assert txs[..(i - 1) + 2] == txs[..i + 1] && txs[..(i - 1) + 1] == txs[..i];
          }
        }
      }
    }
  }

  lemma NoSums(txs: seq<Transaction>)
    ensures Ins(txs[..0]) == multiset{} && Outs(txs[..0]) == multiset{}
  {
  }

  /** Applying transactions in order succeeds exactly when all verify and each is funded in
      its turn; nothing is assumed about hashes. */
  lemma {:induction false} ApplyAllAcceptance(c: Crypto, bag: multiset<UTXO>, txs: seq<Transaction>)
    ensures var e := ApplyAll(c, bag, txs);
      && (e.ok <==> AllVerify(c, txs) && Funded(bag, txs))
      && (e.ok ==> e == Effect(true, Ins(txs), Outs(txs)))
    decreases |txs|
  {
    hide TransactionEffect, Verify, Outputs, Funded;
    if txs == [] {
      FundedNone(bag);
    } else {
      var t, rest := txs[0], txs[1..];
      TransactionAcceptance(c, bag, t);
      FundedStep(bag, txs);
      VerifyStep(c, txs);
      var e := TransactionEffect(c, bag, t);
      if e.ok {
        ApplyAllAcceptance(c, After(bag, e), rest);
      }
    }
  }

  lemma FundedNone(bag: multiset<UTXO>)
    ensures Funded(bag, [])
  {
  }

  lemma VerifyStep(c: Crypto, txs: seq<Transaction>)
    requires txs != []
    ensures AllVerify(c, txs) <==> Verify(c, txs[0]) && AllVerify(c, txs[1..])
  {
    hide Verify;
    forall i | 0 < i < |txs| ensures txs[1..][i - 1] == txs[i] {
    }
  }

  /** Every coin a transaction creates carries its hash. */
  lemma OutputsHash(t: Transaction, u: UTXO)
    requires u in multiset(Outputs(t))
    ensures u.txID == t.hash
  {
  }

  lemma {:induction false} InsHave(txs: seq<Transaction>, i: nat, j: nat)
    requires i < |txs| && j < |txs[i].content.inputs|
    ensures txs[i].content.inputs[j] in Ins(txs)
  {
    if i > 0 {
      InsHave(txs[1..], i - 1, j);
    }
  }

  lemma {:induction false} InsComeFrom(txs: seq<Transaction>, u: UTXO) returns (i: nat, j: nat)
    requires u in Ins(txs)
    ensures i < |txs| && j < |txs[i].content.inputs| && u == txs[i].content.inputs[j]
  {
    if u in multiset(txs[0].content.inputs) {
      i := 0;
      j :| 0 <= j < |txs[0].content.inputs| && txs[0].content.inputs[j] == u;
    } else {
      i, j := InsComeFrom(txs[1..], u);
      i := i + 1;
    }
  }

  /** Containment of the combined inputs gives phase one. */
  lemma {:induction false} AllCheckFromIns(c: Crypto, bag: multiset<UTXO>, txs: seq<Transaction>)
    requires AllVerify(c, txs) && Ins(txs) <= bag
    ensures AllCheck(c, bag, txs)
  {
    forall i, j | 0 <= i < |txs| && 0 <= j < |txs[i].content.inputs|
      ensures txs[i].content.inputs[j] in bag
    {
      InsHave(txs, i, j);
    }
  }

  /** Phase one says exactly that every transaction verifies and every input is stored. */
  lemma AllCheckIns(c: Crypto, bag: multiset<UTXO>, txs: seq<Transaction>)
    requires AllCheck(c, bag, txs)
    ensures AllVerify(c, txs)
    ensures forall u :: u in Ins(txs) ==> u in bag
  {
    forall u | u in Ins(txs) ensures u in bag {
      var i, j := InsComeFrom(txs, u);
      assert CheckTransaction(c, bag, txs[i]);
    }
  }

  lemma AcceptedLedger(bag: multiset<UTXO>, ins: multiset<UTXO>, outs: multiset<UTXO>)
    requires ins <= bag
    ensures After(bag, Effect(true, ins, outs)) == bag - ins + outs
  {
  }

  /** The exact rule by which a block is accepted, and what an accepted block does. */
  lemma {:induction false} BlockAcceptance(c: Crypto, bag: multiset<UTXO>, txs: seq<Transaction>)
    ensures var e := BlockEffect(c, bag, txs);
      && (e.ok <==> AllCheck(c, bag, txs) && Funded(bag, txs))
      && (e.ok ==> e == Effect(true, Ins(txs), Outs(txs)))
  {
    hide Funded, ApplyAll;
    ApplyAllAcceptance(c, bag, txs);
    if AllCheck(c, bag, txs) {
      AllCheckIns(c, bag, txs);
    }
  }

  lemma {:induction false} InsGrow(txs: seq<Transaction>, i: nat)
    requires i <= |txs|
    ensures Ins(txs[..i]) <= Ins(txs)
  {
    assert txs == txs[..i] + txs[i..];
    InsSplit(txs[..i], txs[i..]);
  }

  lemma {:induction false} ContainedIsFunded(bag: multiset<UTXO>, txs: seq<Transaction>)
    requires Ins(txs) <= bag
    ensures Funded(bag, txs)
  {
    hide Ins, Outs;
    forall i | 0 <= i < |txs| ensures Ins(txs[..i + 1]) <= bag + Outs(txs[..i]) {
      InsGrow(txs, i + 1);
    }
  }

  lemma {:induction false} OutsComeFrom(txs: seq<Transaction>, u: UTXO)
    requires u in Outs(txs)
    ensures u.txID in Hashes(txs)
  {
    hide Outputs;
    if u in multiset(Outputs(txs[0])) {
      OutputsHash(txs[0], u);
    } else {
      OutsComeFrom(txs[1..], u);
      var i :| 0 <= i < |txs[1..]| && txs[1..][i].hash == u.txID;
      assert txs[i + 1].hash == u.txID;
    }
  }

  /** On fresh hashes no output is spent within the block, so funding is containment in the
      ledger before the block. */
  lemma {:induction false} FreshFunding(c: Crypto, bag: multiset<UTXO>, txs: seq<Transaction>)
    requires FreshHashes(bag, txs)
    ensures AllCheck(c, bag, txs) && Funded(bag, txs) <==> AllVerify(c, txs) && Ins(txs) <= bag
  {
    hide Verify, Ins, Outs;
    if AllVerify(c, txs) && Ins(txs) <= bag {
      AllCheckFromIns(c, bag, txs);
      ContainedIsFunded(bag, txs);
    }
    if AllCheck(c, bag, txs) && Funded(bag, txs) {
      AllCheckIns(c, bag, txs);
      NoSums(txs);
      assert txs[..|txs|] == txs;
      if txs != [] {
        var front := txs[..|txs| - 1];
        assert Ins(txs[..(|txs| - 1) + 1]) <= bag + Outs(front);
        forall u ensures Ins(txs)[u] <= bag[u] {
          if u in Ins(txs) && u in Outs(front) {
            OutsComeFrom(front, u);
          }
          assert Ins(txs)[u] <= (bag + Outs(front))[u];
        }
      }
    }
  }

  /** The rule on fresh hashes. */
  lemma {:induction false} FreshBlockAcceptance(c: Crypto, bag: multiset<UTXO>, txs: seq<Transaction>)
    requires FreshHashes(bag, txs)
    ensures var e := BlockEffect(c, bag, txs);
      && (e.ok <==> AllVerify(c, txs) && Ins(txs) <= bag)
      && (e.ok ==> e == Effect(true, Ins(txs), Outs(txs)) && After(bag, e) == bag - Ins(txs) + Outs(txs))
  {
    hide Funded, BlockEffect, AllCheck, AllVerify;
    BlockAcceptance(c, bag, txs);
    FreshFunding(c, bag, txs);
    if Ins(txs) <= bag {
      AcceptedLedger(bag, Ins(txs), Outs(txs));
    }
  }

  // --- Order does not matter ---------------------------------------------------

  lemma {:induction false} InsSplit(a: seq<Transaction>, b: seq<Transaction>)
    ensures Ins(a + b) == Ins(a) + Ins(b)
    ensures Outs(a + b) == Outs(a) + Outs(b)
  {
    if a == [] {
      assert a + b == b;
    } else {
      assert (a + b)[1..] == a[1..] + b;
      InsSplit(a[1..], b);
    }
  }

  lemma {:induction false} InsMoved(pre: seq<Transaction>, t: Transaction, post: seq<Transaction>)
    ensures Ins(pre + ([t] + post)) == multiset(t.content.inputs) + Ins(pre + post)
    ensures Outs(pre + ([t] + post)) == multiset(Outputs(t)) + Outs(pre + post)
  {
    InsSplit(pre, post);
    InsSplit(pre, [t] + post);
    assert ([t] + post)[1..] == post;
  }

  lemma {:induction false} InsOfPermutation(a: seq<Transaction>, b: seq<Transaction>)
    requires multiset(a) == multiset(b)
    ensures Ins(a) == Ins(b) && Outs(a) == Outs(b)
    decreases |a|
  {
    if a == [] {
      assert |multiset(b)| == 0;
    } else {
      var t := a[0];
      assert t in multiset(b);
      var k :| 0 <= k < |b| && b[k] == t;
      var rest := b[..k] + b[k + 1..];
      assert b == b[..k] + ([t] + b[k + 1..]);
      assert multiset(rest) == multiset(b) - multiset{t};
      assert a == [t] + a[1..];
      assert multiset(a[1..]) == multiset(a) - multiset{t};
      InsOfPermutation(a[1..], rest);
      InsMoved(b[..k], t, b[k + 1..]);
    }
  }

  lemma PermutedAll(c: Crypto, bag: multiset<UTXO>, a: seq<Transaction>, b: seq<Transaction>)
    requires multiset(a) == multiset(b)
    ensures AllVerify(c, a) ==> AllVerify(c, b)
    ensures FreshHashes(bag, a) ==> FreshHashes(bag, b)
  {
    forall i | 0 <= i < |b| ensures b[i] in a {
      assert b[i] in multiset(a);
    }
    if FreshHashes(bag, a) {
      forall h | h in Hashes(b) ensures h in Hashes(a) {
        var i :| 0 <= i < |b| && b[i].hash == h;
        var j :| 0 <= j < |a| && a[j] == b[i];
        assert a[j].hash in Hashes(a);
      }
    }
  }

  /** Reordering a block changes neither the verdict nor the ledger that results. */
  lemma BlockOrderIndependence(c: Crypto, bag: multiset<UTXO>, a: seq<Transaction>,
        b: seq<Transaction>)
    requires FreshHashes(bag, a) && multiset(a) == multiset(b)
    ensures BlockEffect(c, bag, a).ok == BlockEffect(c, bag, b).ok
    ensures BlockEffect(c, bag, a).ok ==> After(bag, BlockEffect(c, bag, a)) == After(bag, BlockEffect(c, bag, b))
  {
    PermutedAll(c, bag, a, b);
    PermutedAll(c, bag, b, a);
    InsOfPermutation(a, b);
    FreshBlockAcceptance(c, bag, a);
    FreshBlockAcceptance(c, bag, b);
  }

  // --- Atomicity ---------------------------------------------------------------

  /** No input is listed twice in the block. */
  ghost predicate DistinctInputs(txs: seq<Transaction>) {
    forall u :: Ins(txs)[u] <= 1
  }

  /** With pairwise distinct inputs a block is applied whole or not at all, whatever the
      hashes: phase two cannot fail once phase one has passed. */
  lemma {:induction false} DistinctInputsAtomic(c: Crypto, bag: multiset<UTXO>, txs: seq<Transaction>)
    requires DistinctInputs(txs)
    ensures BlockEffect(c, bag, txs) ==
      if AllCheck(c, bag, txs) then Effect(true, Ins(txs), Outs(txs)) else NO_EFFECT
  {
    if AllCheck(c, bag, txs) {
      AllCheckIns(c, bag, txs);
      forall u ensures Ins(txs)[u] <= bag[u] {
        if u in Ins(txs) { assert u in bag; }
      }
      ContainedIsFunded(bag, txs);
      ApplyAllAcceptance(c, bag, txs);
    }
  }

  /** A verified transaction that fails leaves one of its inputs out of the ledger. */
  lemma TransactionShort(c: Crypto, bag: multiset<UTXO>, t: Transaction) returns (u: UTXO)
    requires Verify(c, t) && !TransactionEffect(c, bag, t).ok
    ensures u in t.content.inputs && u !in After(bag, TransactionEffect(c, bag, t))
  {
    hide Verify, Outputs, Removable;
    var ins, e := t.content.inputs, TransactionEffect(c, bag, t);
    if CheckTransaction(c, bag, t) {
      var k := Removable(bag, ins);
      RemovableIsLongest(bag, ins);
      assert e == Effect(false, multiset(ins[..k]), multiset{});
      u := ins[k];
      NextIsMissing(bag, ins, k);
    } else {
      assert e == NO_EFFECT && bag + multiset{} - multiset{} == bag;
      var i :| 0 <= i < |ins| && ins[i] !in bag;
      u := ins[i];
    }
  }

  lemma NextIsMissing(bag: multiset<UTXO>, coins: seq<UTXO>, k: nat)
    requires k < |coins| && multiset(coins[..k]) <= bag && !(multiset(coins[..k + 1]) <= bag)
    ensures coins[k] !in bag + multiset{} - multiset(coins[..k])
  {
    assert coins[..k + 1] == coins[..k] + [coins[k]];
    assert multiset(coins[..k + 1]) == multiset(coins[..k]) + multiset{coins[k]};
  }

  /** Verified transactions that fail as a list leave an input of one of them out. */
  lemma {:induction false} ApplyAllShort(c: Crypto, bag: multiset<UTXO>, txs: seq<Transaction>)
      returns (i: nat, u: UTXO)
    requires AllVerify(c, txs) && !ApplyAll(c, bag, txs).ok
    ensures i < |txs| && u in txs[i].content.inputs && u !in After(bag, ApplyAll(c, bag, txs))
    decreases |txs|
  {
    hide Verify, TransactionEffect;
    var t, rest := txs[0], txs[1..];
    var e := TransactionEffect(c, bag, t);
    if e.ok {
      i, u := ApplyAllShort(c, After(bag, e), rest);
      i := i + 1;
      TransactionPossible(c, bag, t);
      ApplyAllPossible(c, After(bag, e), rest);
      ThenComposes(bag, e, ApplyAll(c, After(bag, e), rest));
    } else {
      i := 0;
      u := TransactionShort(c, bag, t);
    }
  }

  /** Exactly when a failing AddBlock is atomic: if and only if phase one already rejected the
      block. Otherwise a coin that was stored is gone altogether. */
  lemma BlockAtomicity(c: Crypto, bag: multiset<UTXO>, txs: seq<Transaction>)
    requires !BlockEffect(c, bag, txs).ok
    ensures After(bag, BlockEffect(c, bag, txs)) == bag <==> !AllCheck(c, bag, txs)
    ensures AllCheck(c, bag, txs) ==> exists u :: u in bag && u !in After(bag, BlockEffect(c, bag, txs))
  {
    hide ApplyAll, Verify;
    if AllCheck(c, bag, txs) {
      AllCheckIns(c, bag, txs);
      var i, u := ApplyAllShort(c, bag, txs);
      assert CheckTransaction(c, bag, txs[i]) && u in bag;
    } else {
      assert bag + multiset{} - multiset{} == bag;
    }
  }
}
