/** Sums of amounts over sequences and multisets of coins. */
module Bags {
  import opened Types

  /** The part of a coin's amount that counts: all of it, or only what `who` owns. */
  function Worth(u: UTXO, who: Option<string>): int {
    if who == None || who == Some(u.address) then u.amount else 0
  }

  /** The exact (unwrapped) value of a list of coins, to everyone or to one address. */
  function ValueOf(s: seq<UTXO>, who: Option<string>): int {
    if s == [] then 0 else ValueOf(s[..|s| - 1], who) + Worth(s[|s| - 1], who)
  }

  /** The exact amount on a list of coins. */
  function Total(s: seq<UTXO>): int {
    ValueOf(s, None)
  }

  ghost function Pick(b: multiset<UTXO>): (u: UTXO)
    requires b != multiset{}
    ensures u in b
  {
    var u :| u in b;
    u
  }

  /** The exact value of a multiset of coins, to everyone or to one address. */
  ghost function Value(b: multiset<UTXO>, who: Option<string>): int
    decreases |b|
  {
    if b == multiset{} then 0 else
    var u := Pick(b);
    Worth(u, who) + Value(b - multiset{u}, who)
  }

  ghost predicate AllPositive(b: multiset<UTXO>) {
    forall u :: u in b ==> u.amount > 0
  }

  lemma {:induction false} ValueRemove(b: multiset<UTXO>, u: UTXO, who: Option<string>)
    requires u in b
    ensures Value(b, who) == Worth(u, who) + Value(b - multiset{u}, who)
    decreases |b|
  {
    hide Worth, Pick;
    var v := Pick(b);
    if v != u {
      ValueRemove(b - multiset{v}, u, who);
      ValueRemove(b - multiset{u}, v, who);
      assert b - multiset{v} - multiset{u} == b - multiset{u} - multiset{v};
    }
  }

  lemma {:induction false} ValueUnion(a: multiset<UTXO>, b: multiset<UTXO>, who: Option<string>)
    ensures Value(a + b, who) == Value(a, who) + Value(b, who)
    decreases |b|
  {
    if b == multiset{} {
      assert a + b == a;
    } else {
      var u :| u in b;
      ValueRemove(b, u, who);
      ValueRemove(a + b, u, who);
      assert a + b - multiset{u} == a + (b - multiset{u});
      ValueUnion(a, b - multiset{u}, who);
    }
  }

  lemma {:induction false} ValueDifference(a: multiset<UTXO>, b: multiset<UTXO>, who: Option<string>)
    requires b <= a
    ensures Value(a - b, who) == Value(a, who) - Value(b, who)
  {
    assert a == (a - b) + b;
    ValueUnion(a - b, b, who);
  }

  /** A list and the multiset of its elements are worth the same. */
  lemma {:induction false} ValueOfSeq(s: seq<UTXO>, who: Option<string>)
    ensures Value(multiset(s), who) == ValueOf(s, who)
  {
    if s != [] {
      var p, u := s[..|s| - 1], s[|s| - 1];
      assert s == p + [u];
      ValueOfSeq(p, who);
      ValueRemove(multiset(s), u, who);
      assert multiset(s) - multiset{u} == multiset(p);
    }
  }

  lemma {:induction false} ValueNonNegative(b: multiset<UTXO>, who: Option<string>)
    requires AllPositive(b)
    ensures 0 <= Value(b, who) <= Value(b, None)
    decreases |b|
  {
    if b != multiset{} {
      var u :| u in b;
      ValueRemove(b, u, who);
      ValueRemove(b, u, None);
      ValueNonNegative(b - multiset{u}, who);
    }
  }

  /** Part of a bag of positive coins is worth no more than the whole. */
  lemma {:induction false} ValueMonotone(a: multiset<UTXO>, b: multiset<UTXO>, who: Option<string>)
    requires a <= b && AllPositive(b)
    ensures 0 <= Value(a, who) <= Value(b, who)
  {
    ValueDifference(b, a, who);
    ValueNonNegative(a, who);
    ValueNonNegative(b - a, who);
  }

  /** A bag holding no coin of `a` is worth nothing to `a`. */
  lemma {:induction false} ValueElsewhere(b: multiset<UTXO>, a: string)
    requires forall u :: u in b ==> u.address != a
    ensures Value(b, Some(a)) == 0
    decreases |b|
  {
    if b != multiset{} {
      var u :| u in b;
      ValueRemove(b, u, Some(a));
      ValueElsewhere(b - multiset{u}, a);
    }
  }

  /** A list of coins all owned by `a` is worth its whole amount to `a`. */
  lemma {:induction false} ValueOfOwned(s: seq<UTXO>, a: string)
    requires forall i :: 0 <= i < |s| ==> s[i].address == a
    ensures ValueOf(s, Some(a)) == Total(s)
  {
    if s != [] {
      ValueOfOwned(s[..|s| - 1], a);
    }
  }

  lemma {:induction false} ValueOfAppend(s: seq<UTXO>, u: UTXO, who: Option<string>)
    ensures ValueOf(s + [u], who) == ValueOf(s, who) + Worth(u, who)
  {
  }

  /** Sums of at most two coins, written out. */
  lemma {:induction false} ValueOfShort(s: seq<UTXO>, who: Option<string>)
    requires |s| <= 2
    ensures ValueOf(s, who) == (if |s| > 0 then Worth(s[0], who) else 0) + (if |s| > 1 then Worth(s[1], who) else 0)
  {
    if |s| > 0 {
      ValueOfAppend([], s[0], who);
      assert [] + [s[0]] == [s[0]];
      if |s| == 1 {
        assert s == [s[0]];
      } else {
        ValueOfAppend([s[0]], s[1], who);
        assert s == [s[0]] + [s[1]];
      }
    }
  }

  /** A running sum that wraps at every addition is the wrapped exact sum. */
  lemma RunningTotal(s: seq<UTXO>, i: nat)
    requires i < |s|
    ensures Wrap64(Wrap64(Total(s[..i])) + s[i].amount) == Wrap64(Total(s[..i + 1]))
  {
    assert s[..i + 1][..i] == s[..i];
    WrapAbsorbs(Total(s[..i]), s[i].amount);
  }

  lemma {:induction false} TotalPrefix(s: seq<UTXO>, i: nat, j: nat)
    requires i <= j <= |s|
    requires forall k :: 0 <= k < |s| ==> s[k].amount > 0
    ensures 0 <= Total(s[..i]) <= Total(s[..j])
    ensures i < j ==> Total(s[..i]) < Total(s[..j])
    decreases j
  {
    if i < j {
      assert s[..j][..j - 1] == s[..j - 1];
      TotalPrefix(s, i, j - 1);
    } else if j > 0 {
      assert s[..j][..j - 1] == s[..j - 1];
      TotalPrefix(s, j - 1, j - 1);
    }
  }
}
