/** The pool of transactions waiting to be mined. */
module Pool {
  import opened Types
  import opened LedgerSpec
  import opened Ledger

  class TransactionPool {
    var transactions: map<string, Transaction>

    /** Transactions are filed under their own hash. */
    ghost predicate Valid()
      reads this
    {
      forall h :: h in transactions ==> transactions[h].hash == h
    }

    constructor ()
      ensures Valid() && transactions == map[]
    {
      transactions := map[];
    }

    predicate HasTransaction(hash: string)
      reads this
    {
      hash in transactions
    }

    method AddTransaction(tx: Transaction) returns (ok: bool)
      modifies this
      ensures old(Valid()) ==> Valid()
      ensures ok <==> tx.hash !in old(transactions)
      ensures transactions == if ok then old(transactions)[tx.hash := tx] else old(transactions)
    {
      ok := tx.hash !in transactions;
      if ok {
        transactions := transactions[tx.hash := tx];
      }
    }

    /** Up to `n` pooled transactions that pass the ledger's check, in whatever order the
        map is walked: distinct, and fewer than `n` only if there are no others. */
    method GetUpToNTransactions(n: nat, utxoSet: UTXOSet) returns (selected: seq<Transaction>)
      requires Valid() && utxoSet.Valid()
      ensures |selected| <= n
      ensures forall i :: 0 <= i < |selected| ==>
        && selected[i].hash in transactions && transactions[selected[i].hash] == selected[i]
        && CheckTransaction(utxoSet.crypto, utxoSet.bag, selected[i])
      ensures forall i, j :: 0 <= i < j < |selected| ==> selected[i].hash != selected[j].hash
      ensures |selected| < n ==> forall h | h in transactions ::
        CheckTransaction(utxoSet.crypto, utxoSet.bag, transactions[h]) ==> transactions[h] in selected
    {
      hide CheckTransaction;
      selected := [];
      var unseen := transactions.Keys;
      while unseen != {}
        invariant unseen <= transactions.Keys
        invariant |selected| <= n
        invariant forall i :: 0 <= i < |selected| ==>
          && selected[i].hash in transactions && transactions[selected[i].hash] == selected[i]
          && selected[i].hash !in unseen
          && CheckTransaction(utxoSet.crypto, utxoSet.bag, selected[i])
        invariant forall i, j :: 0 <= i < j < |selected| ==> selected[i].hash != selected[j].hash
        invariant forall h | h in transactions && h !in unseen ::
          CheckTransaction(utxoSet.crypto, utxoSet.bag, transactions[h]) ==> transactions[h] in selected
        decreases unseen
      {
        if |selected| >= n {
          break;
        }
        var h :| h in unseen;
        unseen := unseen - {h};
        var ok := utxoSet.CheckTransaction(transactions[h]);
        if ok {
          selected := selected + [transactions[h]];
        }
      }
    }
  }
}
