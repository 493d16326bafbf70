/** A payment from end to end: selecting coins, building, signing, and settling it. */
module Payment {
  import opened Types
  import opened Bags
  import opened Transactions
  import opened LedgerSpec
  import opened UndoSpec
  import opened Ledger
  import opened Conservation

  /** A ledger of positive, named coins whose sums stay within 64 bits. */
  ghost predicate WellFormed(bag: multiset<UTXO>) {
    AllPositive(bag) && NoEmptyIDs(bag) && Value(bag, None) < TWO_63
  }

  lemma {:induction false} ValueOfOthers(s: seq<UTXO>, owner: string, a: string)
    requires forall i :: 0 <= i < |s| ==> s[i].address == owner
    ensures ValueOf(s, Some(a)) == if a == owner then Total(s) else 0
  {
    if s != [] {
      ValueOfOthers(s[..|s| - 1], owner, a);
    }
  }

  lemma {:induction false} StampedValue(tx: Transaction, who: Option<string>)
    ensures Value(multiset(Outputs(tx)), who) == ValueOf(tx.content.outputs, who)
  {
    var outs := Outputs(tx);
    ValueOfSeq(outs, who);
    OutputsValue(tx, |outs|, who);
    assert outs[..|outs|] == outs && tx.content.outputs[..|outs|] == tx.content.outputs;
  }

  /** What any successful transaction does to each balance: out with the inputs, in with
      the outputs as written. */
  lemma {:induction false} SettledBalance(c: Crypto, bag: multiset<UTXO>, tx: Transaction, a: string)
    requires TransactionEffect(c, bag, tx).ok
    ensures Value(After(bag, TransactionEffect(c, bag, tx)), Some(a))
      == Value(bag, Some(a)) - ValueOf(tx.content.inputs, Some(a)) + ValueOf(tx.content.outputs, Some(a))
  {
    var e := TransactionEffect(c, bag, tx);
    TransactionAcceptance(c, bag, tx);
    TransactionPossible(c, bag, tx);
    EffectValue(bag, e, Some(a));
    ValueOfSeq(tx.content.inputs, Some(a));
    StampedValue(tx, Some(a));
  }

  /** The sender's coins are fit to be inputs. */
  lemma CoinsFit(bag: multiset<UTXO>, coins: seq<UTXO>)
    requires WellFormed(bag) && multiset(coins) <= bag
    ensures forall i :: 0 <= i < |coins| ==> coins[i].amount > 0 && coins[i].txID != ""
    ensures 0 <= Total(coins) < TWO_63
  {
    forall i | 0 <= i < |coins| ensures coins[i] in bag {
      assert coins[i] in multiset(coins);
    }
    TotalIsValue(coins);
    ValueMonotone(multiset(coins), bag, None);
  }

  /** How a payment of `amount` should change what `a` owns. */
  function Moved(c: Crypto, sender: string, receiver: string, amount: int, a: string): int {
    (if a == c.keyToAddr(receiver) then amount else 0) - (if a == c.keyToAddr(sender) then amount else 0)
  }

  /** A payment built from any part of the sender's coins is accepted exactly when the amount
      is positive and covered by them and its signature verifies. */
  lemma PaymentAccepted(c: Crypto, bag: multiset<UTXO>, coins: seq<UTXO>, sender: string,
        receiver: string, amount: int64, now: int64, tx: Transaction)
    requires WellFormed(bag) && multiset(coins) <= bag
    requires forall i :: 0 <= i < |coins| ==> coins[i].address == c.keyToAddr(sender)
    requires tx.content == PaymentContent(c, coins, sender, receiver, amount, now)
    ensures TransactionEffect(c, bag, tx).ok <==>
      0 < amount <= Total(coins) && c.verifySignature(tx.hash, tx.signature, sender)
    ensures 0 < amount <= Total(coins) && !TransactionEffect(c, bag, tx).ok ==>
      After(bag, TransactionEffect(c, bag, tx)) == bag
  {
    hide PaymentContent, ValueOf;
    CoinsFit(bag, coins);
    PaymentInputs(c, coins, sender, receiver, amount, now);
    PaymentOk(c, coins, sender, receiver, amount, now);
    TransactionAcceptance(c, bag, tx);
    if !TransactionEffect(c, bag, tx).ok {
      TransactionAtomicity(c, bag, tx);
    }
  }

  /** A settled payment moves exactly the amount, from the sender to the receiver, and
      touches no other balance. */
  lemma {:induction false} PaymentSettles(c: Crypto, bag: multiset<UTXO>, coins: seq<UTXO>, sender: string,
        receiver: string, amount: int64, now: int64, tx: Transaction, a: string)
    requires WellFormed(bag) && multiset(coins) <= bag
    requires forall i :: 0 <= i < |coins| ==> coins[i].address == c.keyToAddr(sender)
    requires tx.content == PaymentContent(c, coins, sender, receiver, amount, now)
    requires TransactionEffect(c, bag, tx).ok
    ensures Value(After(bag, TransactionEffect(c, bag, tx)), Some(a))
      == Value(bag, Some(a)) + Moved(c, sender, receiver, amount, a)
  {
    SettledBalance(c, bag, tx, a);
    CoinsFit(bag, coins);
    TransactionAcceptance(c, bag, tx);
    PaymentOk(c, coins, sender, receiver, amount, now);
    ValueOfOthers(coins, c.keyToAddr(sender), a);
  }

  /** The unsigned payment the client builds from an address's list of coins. */
  function Unsigned(c: Crypto, list: seq<UTXO>, sender: string, receiver: string, amount: int64,
        now: int64): Transaction {
    Transaction(PaymentContent(c, Selection(list, amount), sender, receiver, amount, now), "", "")
  }

  /** That payment, signed over its own hash, if the key can sign it. */
  function Signed(c: Crypto, t: Transaction, privateKey: string): Option<Transaction> {
    var h := c.hashTransaction(t);
    match c.sign(h, privateKey)
    case Some(signature) => Some(Transaction(t.content, signature, h))
    case None => None
  }

  lemma PrefixShare(bag: multiset<UTXO>, all: seq<UTXO>, coins: seq<UTXO>)
    requires multiset(all) <= bag && coins <= all
    ensures multiset(coins) <= bag
    ensures forall i :: 0 <= i < |coins| ==> coins[i] == all[i]
  {
    assert all == coins + all[|coins|..];
  }

  /** What GetUTXOs selects from the sender's list, if that covers the amount, makes a
      well-formed payment exactly when the amount is positive. */
  lemma SelectedPayment(c: Crypto, bag: multiset<UTXO>, all: seq<UTXO>, sender: string,
        receiver: string, amount: int64, now: int64)
    requires WellFormed(bag) && multiset(all) <= bag
    requires forall i :: 0 <= i < |all| ==> all[i].address == c.keyToAddr(sender)
    requires amount <= Total(all)
    ensures var coins := Selection(all, amount);
      && multiset(coins) <= bag && amount <= Total(coins)
      && (forall i :: 0 <= i < |coins| ==> coins[i].address == c.keyToAddr(sender))
      && (ContentOk(c, Unsigned(c, all, sender, receiver, amount, now).content) <==> 0 < amount)
  {
    hide ContentOk, PaymentContent, Selection, ValueOf;
    var coins := Selection(all, amount);
    CoinsFit(bag, all);
    SelectionIsMinimal(all, amount);
    PrefixShare(bag, all, coins);
    CoinsFit(bag, coins);
    PaymentOk(c, coins, sender, receiver, amount, now);
  }

  /** The client's way of making a payment: select coins, build, sign. On a well-formed
      ledger it works exactly when the sender can cover a positive amount and the key can
      sign the hash of the payment. */
  method CreateTransaction(ledger: UTXOSet, sender: string, privateKey: string, receiver: string, amount: int64,
        now: int64) returns (r: Option<Transaction>)
    requires ledger.Valid()
    ensures var c, address := ledger.crypto, ledger.crypto.keyToAddr(sender);
      var t := Unsigned(c, ledger.Get(address), sender, receiver, amount, now);
      && r == (if amount <= Wrap64(Value(ledger.bag, Some(address))) && ContentOk(c, t.content)
               then Signed(c, t, privateKey) else None)
      && (r.Some? ==> HashedBySign(c, r.value))
      && (WellFormed(ledger.bag) ==>
            (r.Some? <==> 0 < amount <= Value(ledger.bag, Some(address)) && Signed(c, t, privateKey).Some?))
  {
    hide ContentOk, PaymentContent, Selection, ValueOf;
    var c := ledger.crypto;
    var address := c.keyToAddr(sender);
    ghost var all := ledger.Get(address);
    ledger.BalanceIsShare(address);
    ledger.GetIsShare(address);
    if WellFormed(ledger.bag) {
      BalancesFit(ledger.bag, address);
      if amount <= Total(all) {
        SelectedPayment(c, ledger.bag, all, sender, receiver, amount, now);
      }
    }
    var selected := ledger.GetUTXOs(address, amount);
    if selected.None? {
      return None;
    }
    var unsigned := NewTransaction(c, selected.value, sender, receiver, amount, now);
    if unsigned.None? {
      return None;
    }
    var signed, ok := Sign(c, unsigned.value, privateKey);
    return if ok then Some(signed) else None;
  }

  /** The whole payment; `send` is what comes of sending it to a miner, and only what was
      sent is applied to the client's own ledger. On a well-formed ledger it goes through
      exactly when the sender can cover a positive amount, the key can sign it, it is sent,
      and the signature verifies; then every balance is the old one plus what was meant to
      move, and otherwise nothing changes. */
  method Pay(ledger: UTXOSet, sender: string, privateKey: string, receiver: string, amount: int64,
        now: int64, send: Transaction -> bool) returns (ok: bool)
    requires ledger.Valid()
    modifies ledger
    ensures ledger.Valid()
    ensures var c, bag, address := ledger.crypto, old(ledger.bag), ledger.crypto.keyToAddr(sender);
      var signed := Signed(c, Unsigned(c, old(ledger.Get(address)), sender, receiver, amount, now), privateKey);
      WellFormed(bag) ==>
      && (ok <==>
            && 0 < amount <= Value(bag, Some(address))
            && signed.Some? && send(signed.value)
            && c.verifySignature(signed.value.hash, signed.value.signature, sender))
      && (!ok ==> ledger.bag == bag)
      && (ok ==> forall a: string ::
            Value(ledger.bag, Some(a)) == Value(bag, Some(a)) + Moved(c, sender, receiver, amount, a))
  {
    hide ContentOk, PaymentContent, Selection, Moved, TransactionEffect;
    var tx := CreateTransaction(ledger, sender, privateKey, receiver, amount, now);
    if tx.None? || !send(tx.value) {
      return false;
    }
    ghost var c, bag, address := ledger.crypto, ledger.bag, ledger.crypto.keyToAddr(sender);
    ledger.GetIsShare(address);
    ledger.BalanceIsShare(address);
    if WellFormed(bag) {
      SettlesOrNothing(c, bag, ledger.Get(address), sender, receiver, amount, now, tx.value);
    }
    ok := ledger.AddTransaction(tx.value);
  }

  /** A payment built from the selected coins either settles or leaves the ledger alone. */
  lemma {:induction false} SettlesOrNothing(c: Crypto, bag: multiset<UTXO>, all: seq<UTXO>, sender: string,
        receiver: string, amount: int64, now: int64, tx: Transaction)
    requires WellFormed(bag) && multiset(all) <= bag
    requires forall i :: 0 <= i < |all| ==> all[i].address == c.keyToAddr(sender)
    requires 0 < amount <= Total(all)
    requires tx.content == Unsigned(c, all, sender, receiver, amount, now).content
    ensures var e := TransactionEffect(c, bag, tx);
      && (e.ok <==> c.verifySignature(tx.hash, tx.signature, sender))
      && (!e.ok ==> After(bag, e) == bag)
      && (e.ok ==> forall a: string ::
            Value(After(bag, e), Some(a)) == Value(bag, Some(a)) + Moved(c, sender, receiver, amount, a))
  {
    hide ContentOk, PaymentContent, Selection, Moved, TransactionEffect, ValueOf;
    var coins := Selection(all, amount);
    SelectedPayment(c, bag, all, sender, receiver, amount, now);
    PaymentAccepted(c, bag, coins, sender, receiver, amount, now, tx);
    if TransactionEffect(c, bag, tx).ok {
      forall a: string
        ensures Value(After(bag, TransactionEffect(c, bag, tx)), Some(a))
          == Value(bag, Some(a)) + Moved(c, sender, receiver, amount, a)
      {
        PaymentSettles(c, bag, coins, sender, receiver, amount, now, tx, a);
      }
    }
  }
}
