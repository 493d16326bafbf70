/** Building, signing and verifying one transaction. */
module Transactions {
  import opened Types
  import opened Bags

  predicate InputOk(u: UTXO) {
    u.amount > 0 && u.txID != ""
  }

  predicate OutputOk(u: UTXO, i: int) {
    u.amount > 0 && u.txID == "" && u.index == i
  }

  /** What a well-formed transaction is, apart from its signature. The value test
      compares the 64-bit sums. */
  predicate ContentOk(c: Crypto, t: TransactionContent) {
    && |t.outputs| <= 2
    && (forall i :: 0 <= i < |t.inputs| ==> InputOk(t.inputs[i]))
    && (forall i :: 0 <= i < |t.outputs| ==> OutputOk(t.outputs[i], i))
    && Wrap64(Total(t.inputs)) == Wrap64(Total(t.outputs))
    && (forall i :: 0 <= i < |t.inputs| ==> t.inputs[i].address == c.keyToAddr(t.senderPubKey))
    && (|t.outputs| > 1 ==> t.outputs[1].address == c.keyToAddr(t.senderPubKey))
  }

  predicate Verify(c: Crypto, tx: Transaction) {
    ContentOk(c, tx.content) && c.verifySignature(tx.hash, tx.signature, tx.content.senderPubKey)
  }

  /** The check as it runs: sums wrap at every addition, and it stops at the first fault. */
  method VerifyContent(c: Crypto, t: TransactionContent) returns (ok: bool)
    ensures ok == ContentOk(c, t)
  {
    var totalInput: int64, totalOutput: int64 := 0, 0;
    if |t.outputs| > 2 {
      return false;
    }
    for i := 0 to |t.inputs|
      invariant forall k :: 0 <= k < i ==> InputOk(t.inputs[k])
      invariant totalInput == Wrap64(Total(t.inputs[..i]))
    {
      if t.inputs[i].amount <= 0 || t.inputs[i].txID == "" {
        return false;
      }
      RunningTotal(t.inputs, i);
      totalInput := Wrap64(totalInput + t.inputs[i].amount);
    }
    for i := 0 to |t.outputs|
      invariant forall k :: 0 <= k < i ==> OutputOk(t.outputs[k], k)
      invariant totalOutput == Wrap64(Total(t.outputs[..i]))
    {
      if t.outputs[i].amount <= 0 || t.outputs[i].txID != "" || t.outputs[i].index != i {
        return false;
      }
      RunningTotal(t.outputs, i);
      totalOutput := Wrap64(totalOutput + t.outputs[i].amount);
    }
    assert t.inputs[..|t.inputs|] == t.inputs && t.outputs[..|t.outputs|] == t.outputs;
    if totalInput != totalOutput {
      return false;
    }
    var senderAddress := c.keyToAddr(t.senderPubKey);
    for i := 0 to |t.inputs|
      invariant forall k :: 0 <= k < i ==> t.inputs[k].address == senderAddress
    {
      if t.inputs[i].address != senderAddress {
        return false;
      }
    }
    return !(|t.outputs| > 1 && t.outputs[1].address != senderAddress);
  }

  /** What the wrapping comparison really guarantees: the outputs are worth the inputs
      modulo 2^64. Two positive 64-bit outputs cannot reach 2^64, so value is never
      created, and it is conserved exactly when the inputs stay below 2^64. */
  lemma ContentValue(c: Crypto, t: TransactionContent)
    requires ContentOk(c, t)
    ensures Total(t.outputs) == Total(t.inputs) % TWO_64
    ensures 0 <= Total(t.outputs) <= Total(t.inputs)
    ensures Total(t.outputs) == Total(t.inputs) <==> Total(t.inputs) < TWO_64
    ensures t.inputs == [] ==> t.outputs == []
  {
    hide ValueOf;
    TotalPrefix(t.inputs, 0, |t.inputs|);
    assert t.inputs[..|t.inputs|] == t.inputs;
    TotalPrefix(t.outputs, 0, |t.outputs|);
    assert t.outputs[..|t.outputs|] == t.outputs;
    ValueOfShort(t.outputs, None);
  }

  lemma FourEqual(a: UTXO, b: UTXO, c: UTXO, d: UTXO)
    requires a.amount == b.amount == c.amount == d.amount
    ensures Total([a, b, c, d]) == 4 * a.amount
  {
    hide ValueOf;
    ValueOfShort([a, b], None);
    ValueOfAppend([a, b], c, None);
    ValueOfAppend([a, b, c], d, None);
    assert [a, b] + [c] == [a, b, c] && [a, b, c] + [d] == [a, b, c, d];
  }

  /** Value is destroyed, not conserved, by a transaction whose inputs reach 2^64: here four
      different coins of 2^62, and no outputs. */
  lemma ContentCanDestroyValue(c: Crypto)
    ensures exists t: TransactionContent ::
      && ContentOk(c, t) && t.outputs == [] && Total(t.inputs) == TWO_64
      && forall i, j :: 0 <= i < j < |t.inputs| ==> t.inputs[i] != t.inputs[j]
  {
    hide ValueOf;
    var quarter: int64 := 0x4000_0000_0000_0000;
    var coins := seq(4, i => UTXO("x", i, quarter, c.keyToAddr("k")));
    var t := TransactionContent(coins, [], "k", 0);
    FourEqual(coins[0], coins[1], coins[2], coins[3]);
    assert coins == [coins[0], coins[1], coins[2], coins[3]];
    ValueOfShort(t.outputs, None);
    assert ContentOk(c, t);
  }

  /** Output `i` as it enters the ledger: stamped with the transaction's hash. */
  function GetUTXO(tx: Transaction, i: int): (r: Option<UTXO>)
    ensures r.Some? <==> 0 <= i < |tx.content.outputs|
    ensures r.Some? ==> r.value.txID == tx.hash && r.value.(txID := tx.content.outputs[i].txID) == tx.content.outputs[i]
  {
    if i < 0 || i >= |tx.content.outputs| then None
    else Some(tx.content.outputs[i].(txID := tx.hash))
  }

  /** All outputs as they enter the ledger. */
  function Outputs(tx: Transaction): (s: seq<UTXO>)
    ensures |s| == |tx.content.outputs|
    ensures forall i :: 0 <= i < |s| ==> GetUTXO(tx, i) == Some(s[i])
  {
    seq(|tx.content.outputs|, i requires 0 <= i < |tx.content.outputs| => tx.content.outputs[i].(txID := tx.hash))
  }

  /** Stamping does not change what the outputs are worth, to anyone. */
  lemma {:induction false} OutputsValue(tx: Transaction, n: nat, who: Option<string>)
    requires n <= |tx.content.outputs|
    ensures ValueOf(Outputs(tx)[..n], who) == ValueOf(tx.content.outputs[..n], who)
  {
    if n > 0 {
      OutputsValue(tx, n - 1, who);
      assert Outputs(tx)[..n][..n - 1] == Outputs(tx)[..n - 1];
      assert tx.content.outputs[..n][..n - 1] == tx.content.outputs[..n - 1];
      assert GetUTXO(tx, n - 1) == Some(Outputs(tx)[n - 1]);
    }
  }

  /** The two outputs of a payment: the amount, and the change if there is any. */
  function PaymentContent(c: Crypto, inputs: seq<UTXO>, sender: string, receiver: string, amount: int64,
        now: int64): TransactionContent {
    var change := Wrap64(Wrap64(Total(inputs)) - amount);
    var outputs := [UTXO("", 0, amount, c.keyToAddr(receiver))]
                 + if change > 0 then [UTXO("", 1, change, c.keyToAddr(sender))] else [];
    TransactionContent(inputs, outputs, sender, now)
  }

  method NewTransaction(c: Crypto, inputs: seq<UTXO>, sender: string, receiver: string, amount: int64,
        now: int64) returns (r: Option<Transaction>)
    ensures r == (var t := PaymentContent(c, inputs, sender, receiver, amount, now);
                  if ContentOk(c, t) then Some(Transaction(t, "", "")) else None)
  {
    var totalInput: int64 := 0;
    for i := 0 to |inputs|
      invariant totalInput == Wrap64(Total(inputs[..i]))
    {
      RunningTotal(inputs, i);
      totalInput := Wrap64(totalInput + inputs[i].amount);
    }
    assert inputs[..|inputs|] == inputs;
    ghost var t := PaymentContent(c, inputs, sender, receiver, amount, now);
    var outputs := [UTXO("", 0, amount, c.keyToAddr(receiver))];
    var leftover := Wrap64(totalInput - amount);
    if leftover > 0 {
      outputs := outputs + [UTXO("", 1, leftover, c.keyToAddr(sender))];
    }
    assert outputs == t.outputs;
    var content := TransactionContent(inputs, outputs, sender, now);
    var ok := VerifyContent(c, content);
    r := if ok then Some(Transaction(content, "", "")) else None;
  }

  /** The change of a payment, and the worth of its outputs, with nothing wrapping. */
  lemma PaymentShape(c: Crypto, inputs: seq<UTXO>, sender: string, receiver: string, amount: int64,
        now: int64)
    requires 0 <= Total(inputs) < TWO_63 && amount > 0
    ensures var outs := PaymentContent(c, inputs, sender, receiver, amount, now).outputs;
      && 1 <= |outs| <= 2 && outs[0] == UTXO("", 0, amount, c.keyToAddr(receiver))
      && (|outs| == 2 <==> Total(inputs) > amount)
      && (|outs| == 2 ==> outs[1] == UTXO("", 1, Total(inputs) - amount, c.keyToAddr(sender)))
      && forall who :: ValueOf(outs, who) == Worth(outs[0], who) + if |outs| == 2 then Worth(outs[1], who) else 0
  {
    hide ValueOf, Worth;
    var outs := PaymentContent(c, inputs, sender, receiver, amount, now).outputs;
    assert Wrap64(Total(inputs)) == Total(inputs);
    assert Wrap64(Total(inputs) - amount) == Total(inputs) - amount;
    forall who ensures ValueOf(outs, who) == Worth(outs[0], who) + if |outs| == 2 then Worth(outs[1], who) else 0 {
      ValueOfShort(outs, who);
    }
  }

  /** A payment from the sender's own coins is well formed exactly when the amount is
      positive and covered; the change is then the exact difference. */
  lemma PaymentOk(c: Crypto, inputs: seq<UTXO>, sender: string, receiver: string, amount: int64,
        now: int64)
    requires forall i :: 0 <= i < |inputs| ==>
      inputs[i].amount > 0 && inputs[i].txID != "" && inputs[i].address == c.keyToAddr(sender)
    requires Total(inputs) < TWO_63
    ensures var t := PaymentContent(c, inputs, sender, receiver, amount, now);
      && (ContentOk(c, t) <==> 0 < amount <= Total(inputs))
      && (ContentOk(c, t) ==> forall a: string ::
            ValueOf(t.outputs, Some(a)) ==
              (if a == c.keyToAddr(receiver) then amount as int else 0)
              + (if a == c.keyToAddr(sender) then Total(inputs) - amount else 0))
  {
    hide ValueOf, PaymentContent;
    var t := PaymentContent(c, inputs, sender, receiver, amount, now);
    PaymentInputs(c, inputs, sender, receiver, amount, now);
    TotalPrefix(inputs, 0, |inputs|);
    assert inputs[..|inputs|] == inputs;
    if amount > 0 {
      PaymentShape(c, inputs, sender, receiver, amount, now);
      assert Total(t.outputs) == if Total(inputs) > amount then Total(inputs) else amount as int;
    }
  }

  lemma PaymentInputs(c: Crypto, inputs: seq<UTXO>, sender: string, receiver: string,
        amount: int64, now: int64)
    ensures var t := PaymentContent(c, inputs, sender, receiver, amount, now);
      && t.inputs == inputs && t.senderPubKey == sender && t.timestamp == now
      && t.outputs != [] && t.outputs[0].amount == amount && t.outputs[0].address == c.keyToAddr(receiver)
  {
  }

  /** A transaction whose hash is the one signing a fresh transaction gives it. */
  predicate HashedBySign(c: Crypto, tx: Transaction) {
    tx.hash == c.hashTransaction(Transaction(tx.content, "", ""))
  }

  /** Signing hashes the transaction with its current signature and hash fields. On
      failure the signature is cleared and the hash kept. */
  method Sign(c: Crypto, tx: Transaction, privateKey: string) returns (signed: Transaction, ok: bool)
    ensures var h := c.hashTransaction(tx);
      && ok == c.sign(h, privateKey).Some?
      && signed == if ok then tx.(signature := c.sign(h, privateKey).value, hash := h) else tx.(signature := "")
    ensures ok && tx.signature == "" && tx.hash == "" ==> HashedBySign(c, signed)
  {
    var txHash := c.hashTransaction(tx);
    match c.sign(txHash, privateKey)
    case Some(s) => signed, ok := tx.(signature := s, hash := txHash), true;
    case None => signed, ok := tx.(signature := ""), false;
  }
}
