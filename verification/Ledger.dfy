/** The ledger as the node keeps it: a map from each address to its list of unspent
    coins, edited in place. Its meaning is the multiset `bag` of all of them. */
module Ledger {
  import opened Types
  import opened Bags
  import opened Transactions
  import opened LedgerSpec
  import opened UndoSpec

  /** `s` without the first occurrence of `u`. */
  function WithoutFirst(s: seq<UTXO>, u: UTXO): seq<UTXO> {
    if s == [] then [] else if s[0] == u then s[1..] else [s[0]] + WithoutFirst(s[1..], u)
  }

  lemma {:induction false} WithoutFirstAt(s: seq<UTXO>, u: UTXO, i: nat)
    requires i < |s| && s[i] == u && u !in s[..i]
    ensures WithoutFirst(s, u) == s[..i] + s[i + 1..]
  {
    if i > 0 {
      assert s[0] == s[..i][0];
      assert s[1..][..i - 1] == s[..i][1..];
      WithoutFirstAt(s[1..], u, i - 1);
      assert s[..i] == [s[0]] + s[1..][..i - 1];
    }
  }

  lemma {:induction false} WithoutFirstBag(s: seq<UTXO>, u: UTXO)
    ensures multiset(WithoutFirst(s, u)) == multiset(s) - multiset{u}
  {
    if s != [] {
      assert s == [s[0]] + s[1..];
      if s[0] != u {
        WithoutFirstBag(s[1..], u);
      }
    }
  }

  /** The list stored for an address, empty if there is none. */
  function Lookup(m: map<string, seq<UTXO>>, address: string): seq<UTXO> {
    if address in m then m[address] else []
  }

  /** Appending a coin to its owner's list. */
  function Put(m: map<string, seq<UTXO>>, u: UTXO): map<string, seq<UTXO>> {
    m[u.address := Lookup(m, u.address) + [u]]
  }

  /** Splicing the first occurrence of a coin out of its owner's list. */
  function Drop(m: map<string, seq<UTXO>>, u: UTXO): map<string, seq<UTXO>> {
    m[u.address := WithoutFirst(Lookup(m, u.address), u)]
  }

  function PutAll(m: map<string, seq<UTXO>>, coins: seq<UTXO>): map<string, seq<UTXO>> {
    if coins == [] then m else Put(PutAll(m, coins[..|coins| - 1]), coins[|coins| - 1])
  }

  function DropAll(m: map<string, seq<UTXO>>, coins: seq<UTXO>): map<string, seq<UTXO>> {
    if coins == [] then m else Drop(DropAll(m, coins[..|coins| - 1]), coins[|coins| - 1])
  }

  lemma {:induction false} EditNone(m: map<string, seq<UTXO>>, coins: seq<UTXO>)
    ensures PutAll(m, coins[..0]) == m && DropAll(m, coins[..0]) == m
  {
  }

  lemma {:induction false} EditOneMore(m: map<string, seq<UTXO>>, coins: seq<UTXO>, i: nat)
    requires i < |coins|
    ensures PutAll(m, coins[..i + 1]) == Put(PutAll(m, coins[..i]), coins[i])
    ensures DropAll(m, coins[..i + 1]) == Drop(DropAll(m, coins[..i]), coins[i])
  {
    assert coins[..i + 1][..i] == coins[..i];
  }

  /** The coins of `a` among `coins`, in order. */
  function Of(coins: seq<UTXO>, a: string): seq<UTXO> {
    if coins == [] then [] else
    var u := coins[|coins| - 1];
    Of(coins[..|coins| - 1], a) + if u.address == a then [u] else []
  }

  /** `s` without the first occurrence of each of `coins`, one after the other. */
  function WithoutEach(s: seq<UTXO>, coins: seq<UTXO>): seq<UTXO> {
    if coins == [] then s else WithoutFirst(WithoutEach(s, coins[..|coins| - 1]), coins[|coins| - 1])
  }

  /** What adding and removing coins does to each address's list: its own coins are appended
      in order, or spliced out at their first occurrence, and other lists stay as they are. */
  lemma {:induction false} EditsByAddress(m: map<string, seq<UTXO>>, coins: seq<UTXO>, a: string)
    ensures Lookup(PutAll(m, coins), a) == Lookup(m, a) + Of(coins, a)
    ensures Lookup(DropAll(m, coins), a) == WithoutEach(Lookup(m, a), Of(coins, a))
  {
    hide WithoutFirst;
    if coins != [] {
      var front, u := coins[..|coins| - 1], coins[|coins| - 1];
      EditsByAddress(m, front, a);
      var mine := Of(coins, a);
      if u.address == a {
        assert mine == Of(front, a) + [u];
        assert mine[..|mine| - 1] == Of(front, a) && mine[|mine| - 1] == u;
        assert WithoutEach(Lookup(m, a), mine) == WithoutFirst(WithoutEach(Lookup(m, a), Of(front, a)), u);
      } else {
        assert mine == Of(front, a);
      }
    }
  }

  ghost predicate Filed(m: map<string, seq<UTXO>>, address: string) {
    forall u :: u in Lookup(m, address) ==> u.address == address
  }

  ghost predicate Counted(m: map<string, seq<UTXO>>, bag: multiset<UTXO>, u: UTXO) {
    bag[u] == multiset(Lookup(m, u.address))[u]
  }

  /** Every coin is filed under its own address, and `bag` is all of them. */
  ghost predicate Represents(m: map<string, seq<UTXO>>, bag: multiset<UTXO>) {
    (forall a :: Filed(m, a)) && (forall u :: Counted(m, bag, u))
  }

  lemma AddRepresents(m: map<string, seq<UTXO>>, bag: multiset<UTXO>, u: UTXO)
    requires Represents(m, bag)
    ensures Represents(m[u.address := Lookup(m, u.address) + [u]], bag + multiset{u})
  {
    var m' := m[u.address := Lookup(m, u.address) + [u]];
    forall a ensures Filed(m', a) {
      assert Filed(m, a);
    }
    forall v ensures Counted(m', bag + multiset{u}, v) {
      assert Counted(m, bag, v);
    }
  }

  lemma {:induction false} WithoutFirstWithin(s: seq<UTXO>, u: UTXO, v: UTXO)
    requires v in WithoutFirst(s, u)
    ensures v in s
  {
    WithoutFirstBag(s, u);
    assert v in multiset(WithoutFirst(s, u));
    assert v in multiset(s);
  }

  lemma {:induction false} RemoveRepresents(m: map<string, seq<UTXO>>, bag: multiset<UTXO>, u: UTXO)
    requires Represents(m, bag) && u in Lookup(m, u.address)
    ensures Represents(m[u.address := WithoutFirst(m[u.address], u)], bag - multiset{u})
  {
    var m' := m[u.address := WithoutFirst(m[u.address], u)];
    forall a ensures Filed(m', a) {
      assert Filed(m, a);
      FiledAfterRemoval(m, u, a);
    }
    forall v ensures Counted(m', bag - multiset{u}, v) {
      assert Counted(m, bag, v);
      CountedAfterRemoval(m, bag, u, v);
    }
  }

  lemma {:induction false} FiledAfterRemoval(m: map<string, seq<UTXO>>, u: UTXO, a: string)
    requires Filed(m, a) && u in Lookup(m, u.address)
    ensures Filed(m[u.address := WithoutFirst(m[u.address], u)], a)
  {
    hide WithoutFirst;
    var s := m[u.address];
    forall v | v in WithoutFirst(s, u) ensures v in s {
      WithoutFirstWithin(s, u, v);
    }
  }

  lemma {:induction false} CountedAfterRemoval(m: map<string, seq<UTXO>>, bag: multiset<UTXO>, u: UTXO, v: UTXO)
    requires Counted(m, bag, v) && u in Lookup(m, u.address)
    ensures Counted(m[u.address := WithoutFirst(m[u.address], u)], bag - multiset{u}, v)
  {
    hide WithoutFirst;
    WithoutFirstBag(m[u.address], u);
  }

  class UTXOSet {
    const crypto: Crypto
    var utxos: map<string, seq<UTXO>>
    ghost var bag: multiset<UTXO>

    ghost predicate Valid()
      reads this
    {
      Represents(utxos, bag)
    }

    constructor (crypto: Crypto)
      ensures Valid() && this.crypto == crypto && bag == multiset{} && utxos == map[]
    {
      this.crypto := crypto;
      utxos := map[];
      bag := multiset{};
      new;
      assert forall a :: Filed(utxos, a);
      assert forall u :: Counted(utxos, bag, u);
    }

    function Get(address: string): seq<UTXO>
      reads this
    {
      Lookup(utxos, address)
    }

    /** The coins of `address` are a part of the bag, and the rest belong to others. */
    lemma GetIsShare(address: string)
      requires Valid()
      ensures multiset(Get(address)) <= bag
      ensures forall i :: 0 <= i < |Get(address)| ==> Get(address)[i].address == address
      ensures forall u :: u in bag - multiset(Get(address)) ==> u.address != address
    {
      assert Filed(utxos, address);
      forall u ensures multiset(Get(address))[u] <= bag[u] {
        assert Counted(utxos, bag, u);
      }
      forall u | u in bag - multiset(Get(address)) ensures u.address != address {
        assert Counted(utxos, bag, u);
      }
    }

    method CheckUTXO(utxo: UTXO) returns (found: bool)
      requires Valid()
      ensures found <==> utxo in bag
    {
      var s := Get(utxo.address);
      assert Counted(utxos, bag, utxo);
      for i := 0 to |s|
        invariant utxo !in s[..i]
      {
        if s[i] == utxo {
          return true;
        }
      }
      assert s[..|s|] == s;
      return false;
    }

    method CheckTransaction(tx: Transaction) returns (ok: bool)
      requires Valid()
      ensures ok <==> LedgerSpec.CheckTransaction(crypto, bag, tx)
    {
      var contentOk := VerifyContent(crypto, tx.content);
      if !contentOk || !crypto.verifySignature(tx.hash, tx.signature, tx.content.senderPubKey) {
        return false;
      }
      for i := 0 to |tx.content.inputs|
        invariant forall k :: 0 <= k < i ==> tx.content.inputs[k] in bag
      {
        var present := CheckUTXO(tx.content.inputs[i]);
        if !present {
          return false;
        }
      }
      return true;
    }

    method AddUTXO(utxo: UTXO)
      requires Valid()
      modifies this
      ensures Valid()
      ensures utxos == Put(old(utxos), utxo)
      ensures bag == old(bag) + multiset{utxo}
    {
      AddRepresents(utxos, bag, utxo);
      utxos := utxos[utxo.address := Get(utxo.address) + [utxo]];
      bag := bag + multiset{utxo};
    }

    method RemoveUTXO(utxo: UTXO) returns (ok: bool)
      requires Valid()
      modifies this
      ensures Valid()
      ensures ok <==> utxo in old(bag)
      ensures utxos == if ok then Drop(old(utxos), utxo) else old(utxos)
      ensures bag == old(bag) - multiset{utxo}
    {
      ok := CheckUTXO(utxo);
      if !ok {
        return;
      }
      assert Counted(utxos, bag, utxo);
      var s := Get(utxo.address);
      var kept := s;
      for i := 0 to |s|
        invariant kept == s && utxo !in s[..i]
      {
        if s[i] == utxo {
          kept := s[..i] + s[i + 1..];
          WithoutFirstAt(s, utxo, i);
          break;
        }
      }
      assert utxo in s && s[..|s|] == s;
      RemoveRepresents(utxos, bag, utxo);
      utxos := utxos[utxo.address := kept];
      bag := bag - multiset{utxo};
    }

    /** Removes coins in order until one is missing. */
    method RemoveInOrder(coins: seq<UTXO>) returns (ok: bool, ghost k: nat)
      requires Valid()
      modifies this
      ensures Valid()
      ensures k == Removable(old(bag), coins) && k <= |coins|
      ensures ok <==> k == |coins|
      ensures bag == old(bag) - multiset(coins[..k]) && multiset(coins[..k]) <= old(bag)
      ensures utxos == DropAll(old(utxos), coins[..k])
    {
      hide Drop, PutAll, DropAll, Removable, Represents;
      EditNone(utxos, coins);
      ok, k := true, |coins|;
      for i := 0 to |coins|
        invariant Valid()
        invariant multiset(coins[..i]) <= old(bag)
        invariant bag == old(bag) - multiset(coins[..i])
        invariant utxos == DropAll(old(utxos), coins[..i])
      {
        TakeOneMore(old(bag), coins, i);
        EditOneMore(old(utxos), coins, i);
        var removed := RemoveUTXO(coins[i]);
        if !removed {
          RemovableIs(old(bag), coins, i);
          ok, k := false, i;
          return;
        }
      }
      assert coins[..|coins|] == coins;
      RemovableIs(old(bag), coins, |coins|);
    }

    /** Adds coins in order. */
    method AddInOrder(coins: seq<UTXO>)
      requires Valid()
      modifies this
      ensures Valid()
      ensures bag == old(bag) + multiset(coins)
      ensures utxos == PutAll(old(utxos), coins)
    {
      hide Put, PutAll, DropAll, Represents;
      EditNone(utxos, coins);
      for i := 0 to |coins|
        invariant Valid()
        invariant bag == old(bag) + multiset(coins[..i])
        invariant utxos == PutAll(old(utxos), coins[..i])
      {
        AddOneMore(old(bag), coins, i);
        EditOneMore(old(utxos), coins, i);
        AddUTXO(coins[i]);
      }
      assert coins[..|coins|] == coins;
    }

    method AddTransaction(tx: Transaction) returns (ok: bool)
      requires Valid()
      modifies this
      ensures Valid()
      ensures var e := TransactionEffect(crypto, old(bag), tx); ok == e.ok && bag == After(old(bag), e)
      ensures utxos == EditTransaction(crypto, old(utxos), old(bag), tx)
    {
      hide PutAll, DropAll, LedgerSpec.CheckTransaction, TransactionEffect, Removable, Outputs, Represents;
      TransactionOutcome(crypto, bag, tx);
      ok := CheckTransaction(tx);
      if !ok {
        return;
      }
      ghost var k;
      ok, k := RemoveInOrder(tx.content.inputs);
      if !ok {
        return;
      }
      AddInOrder(Outputs(tx));
    }

    /** Applies transactions in order until one fails. */
    method AddTransactions(txs: seq<Transaction>) returns (ok: bool)
      requires Valid()
      modifies this
      ensures Valid()
      ensures var e := ApplyAll(crypto, old(bag), txs); ok == e.ok && bag == After(old(bag), e)
      ensures utxos == EditAll(crypto, old(utxos), old(bag), txs)
    {
      ghost var done := Effect(true, multiset{}, multiset{});
      assert txs[0..] == txs;
      for i := 0 to |txs|
        invariant Valid()
        invariant Applied(crypto, old(bag), txs, i, done, bag)
        invariant EditAll(crypto, old(utxos), old(bag), txs) == EditAll(crypto, utxos, bag, txs[i..])
      {
        AppliedStep(crypto, old(bag), txs, i, done, bag);
        done := Then(done, TransactionEffect(crypto, bag, txs[i]));
        ok := AddTransaction(txs[i]);
        if !ok {
          return;
        }
      }
      ok := true;
    }

    method AddBlock(txs: seq<Transaction>) returns (ok: bool)
      requires Valid()
      modifies this
      ensures Valid()
      ensures var e := BlockEffect(crypto, old(bag), txs); ok == e.ok && bag == After(old(bag), e)
      ensures utxos ==
        if AllCheck(crypto, old(bag), txs) then EditAll(crypto, old(utxos), old(bag), txs) else old(utxos)
    {
      for i := 0 to |txs|
        invariant Valid() && bag == old(bag) && utxos == old(utxos)
        invariant forall k :: 0 <= k < i ==> LedgerSpec.CheckTransaction(crypto, bag, txs[k])
      {
        ok := CheckTransaction(txs[i]);
        if !ok {
          return;
        }
      }
      ok := AddTransactions(txs);
    }

    /** RemoveBlock as written: it removes the outputs with the empty TxID they have
        inside the transaction. */
    method RemoveBlock(txs: seq<Transaction>) returns (ok: bool)
      requires Valid()
      modifies this
      ensures Valid()
      ensures var e := Undo(old(bag), txs, false); ok == e.ok && bag == After(old(bag), e)
      ensures utxos == EditUndo(old(utxos), old(bag), txs)
    {
      hide UndoTransaction, Undone, EditUndo, PutAll, DropAll;
      assert txs[|txs|..] == [];
      UndoStart(old(utxos), old(bag), txs);
      var i := |txs|;
      while i > 0
        invariant 0 <= i <= |txs|
        invariant Valid()
        invariant Undone(old(bag), txs, i, bag)
        invariant utxos == EditUndo(old(utxos), old(bag), txs[i..])
      {
        i := i - 1;
        var tx := txs[i];
        UndoStep(old(bag), txs, i, bag);
        EditUndoStep(old(utxos), old(bag), txs, i, bag, utxos);
        ghost var before := bag;
        ghost var k;
        ok, k := RemoveInOrder(tx.content.outputs);
        UndoneOne(before, tx, k);
        if !ok {
          return;
        }
        AddInOrder(tx.content.inputs);
      }
      UndoEnd(old(bag), txs, bag);
      assert txs[0..] == txs;
      ok := true;
    }

    method Balance(address: string) returns (balance: int64)
      requires Valid()
      ensures balance == Wrap64(Total(Get(address)))
      ensures balance == Wrap64(Value(bag, Some(address)))
    {
      balance := 0;
      var s := Get(address);
      for i := 0 to |s|
        invariant balance == Wrap64(Total(s[..i]))
      {
        RunningTotal(s, i);
        balance := Wrap64(balance + s[i].amount);
      }
      assert s[..|s|] == s;
      BalanceIsShare(address);
    }

    /** An address's list is worth what the whole ledger is worth to that address. */
    lemma BalanceIsShare(address: string)
      requires Valid()
      ensures Value(bag, Some(address)) == Total(Get(address))
    {
      var s := Get(address);
      GetIsShare(address);
      ValueDifference(bag, multiset(s), Some(address));
      ValueElsewhere(bag - multiset(s), address);
      ValueOfSeq(s, Some(address));
      ValueOfOwned(s, address);
    }

    method GetUTXOs(address: string, amount: int64) returns (r: Option<seq<UTXO>>)
      requires Valid()
      ensures r == if Wrap64(Value(bag, Some(address))) >= amount then Some(Selection(Get(address), amount)) else None
    {
      var balance := Balance(address);
      if balance < amount {
        return None;
      }
      var s := Get(address);
      var selected: seq<UTXO> := [];
      var total: int64 := 0;
      for i := 0 to |s|
        invariant selected == s[..i]
        invariant total == Wrap64(Total(selected))
        invariant Selection(s, amount) == SelectionFrom(s, amount, i)
      {
        if total >= amount {
          break;
        }
        assert s[..i + 1] == selected + [s[i]];
        RunningTotal(s, i);
        selected := selected + [s[i]];
        total := Wrap64(total + s[i].amount);
      }
      return Some(selected);
    }
  }

  function SelectionFrom(s: seq<UTXO>, amount: int64, i: nat): seq<UTXO>
    requires i <= |s|
    decreases |s| - i
  {
    if i == |s| || Wrap64(Total(s[..i])) >= amount then s[..i] else SelectionFrom(s, amount, i + 1)
  }

  /** Coin selection: a list's coins in order until the wrapped sum covers the amount. */
  function Selection(s: seq<UTXO>, amount: int64): seq<UTXO> {
    SelectionFrom(s, amount, 0)
  }

  /** That is the shortest prefix whose wrapped sum covers the amount, or the whole list if
      none does. */
  lemma {:induction false} SelectionIsShortest(s: seq<UTXO>, amount: int64, i: nat)
    requires i <= |s|
    requires forall j :: 0 <= j < i ==> Wrap64(Total(s[..j])) < amount
    ensures var r := SelectionFrom(s, amount, i);
      && r <= s
      && (forall j :: 0 <= j < |r| ==> Wrap64(Total(s[..j])) < amount)
      && (|r| == |s| || Wrap64(Total(r)) >= amount)
    decreases |s| - i
  {
    if i < |s| && Wrap64(Total(s[..i])) < amount {
      SelectionIsShortest(s, amount, i + 1);
    }
  }

  /** What AddTransaction does to the lists. */
  function EditTransaction(c: Crypto, m: map<string, seq<UTXO>>, bag: multiset<UTXO>, tx: Transaction)
      : map<string, seq<UTXO>> {
    if !LedgerSpec.CheckTransaction(c, bag, tx) then m else
    var k := Removable(bag, tx.content.inputs);
    var dropped := DropAll(m, tx.content.inputs[..k]);
    if k == |tx.content.inputs| then PutAll(dropped, Outputs(tx)) else dropped
  }

  /** What AddTransactions does to the lists. */
  function EditAll(c: Crypto, m: map<string, seq<UTXO>>, bag: multiset<UTXO>, txs: seq<Transaction>)
      : map<string, seq<UTXO>>
    decreases |txs|
  {
    if txs == [] then m else
    var e, edited := TransactionEffect(c, bag, txs[0]), EditTransaction(c, m, bag, txs[0]);
    if !e.ok then edited else EditAll(c, edited, After(bag, e), txs[1..])
  }

  /** What RemoveBlock does to the lists. */
  function EditUndo(m: map<string, seq<UTXO>>, bag: multiset<UTXO>, txs: seq<Transaction>): map<string, seq<UTXO>>
    decreases |txs|
  {
    if txs == [] then m else
    var later, edited := Undo(bag, txs[1..], false), EditUndo(m, bag, txs[1..]);
    if later.ok then EditUndoOne(edited, After(bag, later), txs[0]) else edited
  }

  function EditUndoOne(m: map<string, seq<UTXO>>, bag: multiset<UTXO>, tx: Transaction): map<string, seq<UTXO>> {
    var k := Removable(bag, tx.content.outputs);
    var dropped := DropAll(m, tx.content.outputs[..k]);
    if k == |tx.content.outputs| then PutAll(dropped, tx.content.inputs) else dropped
  }

  lemma {:induction false} EditUndoStep(m: map<string, seq<UTXO>>, start: multiset<UTXO>, txs: seq<Transaction>,
        i: nat, bag: multiset<UTXO>, now: map<string, seq<UTXO>>)
    requires i < |txs| && Undone(start, txs, i + 1, bag) && now == EditUndo(m, start, txs[i + 1..])
    ensures EditUndo(m, start, txs[i..]) == EditUndoOne(now, bag, txs[i])
    ensures !UndoTransaction(bag, txs[i], false).ok ==> EditUndo(m, start, txs) == EditUndo(m, start, txs[i..])
  {
    hide EditUndoOne, UndoTransaction;
    assert txs[i..][1..] == txs[i + 1..];
    if !UndoTransaction(bag, txs[i], false).ok {
      assert !Undo(start, txs[i..], false).ok;
      EditUndoStopsAt(m, start, txs, i);
    }
  }

  lemma {:induction false} EditUndoStopsAt(m: map<string, seq<UTXO>>, bag: multiset<UTXO>, txs: seq<Transaction>,
        i: nat)
    requires i < |txs| && !Undo(bag, txs[i..], false).ok
    ensures EditUndo(m, bag, txs) == EditUndo(m, bag, txs[i..])
    decreases i
  {
    hide EditUndoOne, UndoTransaction;
    if i == 0 {
      assert txs[0..] == txs;
    } else {
      assert txs[i - 1..][1..] == txs[i..];
      EditUndoStopsAt(m, bag, txs, i - 1);
    }
  }

  /** The effect of AddTransaction, in the order in which it comes about. */
  lemma {:induction false} TransactionOutcome(c: Crypto, bag: multiset<UTXO>, tx: Transaction)
    ensures var e := TransactionEffect(c, bag, tx); var ins := tx.content.inputs; var k := Removable(bag, ins);
      var left := bag - multiset(ins[..k]);
      if !LedgerSpec.CheckTransaction(c, bag, tx) then !e.ok && After(bag, e) == bag
      else && (e.ok <==> k == |ins|)
           && After(bag, e) == if e.ok then left + multiset(Outputs(tx)) else left
  {
    hide LedgerSpec.CheckTransaction, Outputs;
    RemovableIsLongest(bag, tx.content.inputs);
    assert bag + multiset{} == bag;
  }

  lemma AddOneMore(bag: multiset<UTXO>, coins: seq<UTXO>, i: nat)
    requires i < |coins|
    ensures bag + multiset(coins[..i + 1]) == bag + multiset(coins[..i]) + multiset{coins[i]}
  {
    assert coins[..i + 1] == coins[..i] + [coins[i]];
  }

  /** Removing one more coin of the list, and what it means when it is missing. */
  lemma TakeOneMore(bag: multiset<UTXO>, coins: seq<UTXO>, i: nat)
    requires i < |coins| && multiset(coins[..i]) <= bag
    ensures var left := bag - multiset(coins[..i]);
      && left - multiset{coins[i]} == bag - multiset(coins[..i + 1])
      && (coins[i] in left <==> multiset(coins[..i + 1]) <= bag)
      && (coins[i] !in left ==> left - multiset{coins[i]} == left)
  {
    var p := multiset(coins[..i]);
    assert coins[..i + 1] == coins[..i] + [coins[i]];
    assert multiset(coins[..i + 1]) == p + multiset{coins[i]};
    if coins[i] in bag - p {
      forall u ensures (p + multiset{coins[i]})[u] <= bag[u] {
        assert p[u] <= bag[u];
      }
    } else {
      assert (p + multiset{coins[i]})[coins[i]] > bag[coins[i]];
    }
  }

  /** The first `i` transactions have been applied, with combined effect `done`. */
  ghost predicate Applied(c: Crypto, start: multiset<UTXO>, txs: seq<Transaction>, i: nat, done: Effect,
        bag: multiset<UTXO>)
    requires i <= |txs|
  {
    && done.ok && Possible(start, done) && bag == After(start, done)
    && ApplyAll(c, start, txs) == Then(done, ApplyAll(c, bag, txs[i..]))
  }

  lemma {:induction false} AppliedStep(c: Crypto, start: multiset<UTXO>, txs: seq<Transaction>, i: nat, done: Effect,
        bag: multiset<UTXO>)
    requires i < |txs| && Applied(c, start, txs, i, done, bag)
    ensures var e := TransactionEffect(c, bag, txs[i]);
      && After(bag, e) == After(start, Then(done, e))
      && (e.ok ==> Applied(c, start, txs, i + 1, Then(done, e), After(bag, e)))
      && (!e.ok ==> ApplyAll(c, start, txs) == Then(done, e))
  {
    var e := TransactionEffect(c, bag, txs[i]);
    TransactionPossible(c, bag, txs[i]);
    ThenComposes(start, done, e);
    assert txs[i..][1..] == txs[i + 1..];
    ThenAssociates(done, e, ApplyAll(c, After(bag, e), txs[i + 1..]));
  }

  lemma ThenAssociates(a: Effect, b: Effect, d: Effect)
    ensures Then(a, Then(b, d)) == Then(Then(a, b), d)
  {
  }

  /** The transactions from `i` on have been undone. */
  ghost predicate Undone(start: multiset<UTXO>, txs: seq<Transaction>, i: nat, bag: multiset<UTXO>)
    requires i <= |txs|
  {
    var e := Undo(start, txs[i..], false);
    e.ok && bag == After(start, e)
  }

  lemma {:induction false} UndoStart(m: map<string, seq<UTXO>>, start: multiset<UTXO>, txs: seq<Transaction>)
    ensures Undone(start, txs, |txs|, start) && EditUndo(m, start, txs[|txs|..]) == m
  {
  }

  lemma {:induction false} UndoEnd(start: multiset<UTXO>, txs: seq<Transaction>, bag: multiset<UTXO>)
    requires Undone(start, txs, 0, bag)
    ensures Undo(start, txs, false).ok && bag == After(start, Undo(start, txs, false))
  {
    assert txs[0..] == txs;
  }

  lemma {:induction false} UndoStep(start: multiset<UTXO>, txs: seq<Transaction>, i: nat, bag: multiset<UTXO>)
    requires i < |txs| && Undone(start, txs, i + 1, bag)
    ensures var e := UndoTransaction(bag, txs[i], false);
      && (e.ok ==> Undone(start, txs, i, After(bag, e)))
      && (!e.ok ==> Undo(start, txs, false).ok == false && After(start, Undo(start, txs, false)) == After(bag, e))
  {
    var later, e := Undo(start, txs[i + 1..], false), UndoTransaction(bag, txs[i], false);
    assert txs[i..][1..] == txs[i + 1..];
    UndoPossible(start, txs[i + 1..], false);
    UndoTransactionPossible(bag, txs[i], false);
    ThenComposes(start, later, e);
    assert Undo(start, txs[i..], false) == Then(later, e);
    if !e.ok {
      UndoStopsAt(start, txs, i);
    }
  }

  lemma {:induction false} UndoneOne(bag: multiset<UTXO>, tx: Transaction, k: nat)
    requires k == Removable(bag, tx.content.outputs) && multiset(tx.content.outputs[..k]) <= bag
    ensures var e := UndoTransaction(bag, tx, false); var left := bag - multiset(tx.content.outputs[..k]);
      && (e.ok <==> k == |tx.content.outputs|)
      && After(bag, e) == if e.ok then left + multiset(tx.content.inputs) else left
  {
    assert bag + multiset{} == bag;
  }

  /** Once an undo has failed, earlier transactions are not touched. */
  lemma {:induction false} UndoStopsAt(bag: multiset<UTXO>, txs: seq<Transaction>, i: nat)
    requires i < |txs| && !Undo(bag, txs[i..], false).ok
    ensures Undo(bag, txs, false) == Undo(bag, txs[i..], false)
    decreases i
  {
    if i == 0 {
      assert txs[0..] == txs;
    } else {
      assert txs[i - 1..][1..] == txs[i..];
      UndoStopsAt(bag, txs, i - 1);
    }
  }

  /** Coin selection on coins that are positive and cannot overflow: when the address can
      pay, what is selected covers the amount, it could not do without its last coin, and no
      shorter part of the list would do. */
  lemma SelectionIsMinimal(s: seq<UTXO>, amount: int64)
    requires forall i :: 0 <= i < |s| ==> s[i].amount > 0
    requires amount <= Total(s) < TWO_63
    ensures var r := Selection(s, amount);
      && r <= s && amount <= Total(r) < TWO_63
      && (amount > 0 ==> r != [] && Total(r[..|r| - 1]) < amount)
      && (amount <= 0 ==> r == [])
      && (forall j :: 0 <= j <= |s| && amount <= Total(s[..j]) ==> |r| <= j)
  {
    hide Selection, SelectionFrom, ValueOf;
    var r := SelectionFrom(s, amount, 0);
    SelectionIsShortest(s, amount, 0);
    SelectionStarts(s, amount);
    assert s[..|s|] == s && r == s[..|r|];
    forall j | 0 <= j <= |s| ensures 0 <= Total(s[..j]) <= Total(s) {
      TotalPrefix(s, j, |s|);
    }
    ValueOfShort(s[..0], None);
    assert r != [] ==> r[..|r| - 1] == s[..|r| - 1];
  }

  lemma {:induction false} SelectionStarts(s: seq<UTXO>, amount: int64)
    ensures Selection(s, amount) == SelectionFrom(s, amount, 0)
  {
  }
}
