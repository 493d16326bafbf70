/** What every run keeps that mixes offered blocks with forks followed, from any peers. */
module Runs {
  import opened Types
  import opened Bags
  import opened Transactions
  import opened LedgerSpec
  import opened UndoSpec
  import opened Conservation
  import opened Blocks
  import opened Difficulty
  import opened ChainSpec
  import opened Fork
  import opened ForkRuns
  import opened DoubleSpend
  import opened Replay
  import opened Payment
  import NodeSpec

  const NOTHING := Effect(true, multiset{}, multiset{})

  /** What one step takes out of and puts into the ledger; following a fork does neither. */
  function StepEffect(c: Crypto, st: ChainState, s: Step): Effect {
    match s
    case Offer(b) => AddBlockEffect(c, st, b)
    case Sync(_, _) => NOTHING
  }

  function StepsEffect(c: Crypto, st: ChainState, steps: seq<Step>): Effect {
    if steps == [] then NOTHING else
    var front := steps[..|steps| - 1];
    Then(StepsEffect(c, st, front), StepEffect(c, TakeSteps(c, st, front), steps[|steps| - 1]))
  }

  /** The transactions that one step adds to the ledger as part of an offered block. */
  function StepAccepted(c: Crypto, st: ChainState, s: Step): seq<Transaction> {
    if s.Offer? && AddBlockEffect(c, st, s.block).ok then s.block.transactions else []
  }

  /** All transactions that AddBlock accepted in a run, in order; a fork that is followed may
      have put further ones on the chain, which the ledger never sees. */
  function Accepted(c: Crypto, st: ChainState, steps: seq<Step>): seq<Transaction> {
    if steps == [] then [] else
    var front := steps[..|steps| - 1];
    Accepted(c, st, front) + StepAccepted(c, TakeSteps(c, st, front), steps[|steps| - 1])
  }

  // --- No double spend in the ledger, forks included -----------------------------

  lemma StepHistory(c: Crypto, all: set<Transaction>, created: multiset<UTXO>,
        consumed: multiset<UTXO>, accepted: seq<Transaction>, st: ChainState, s: Step)
    requires History(all, created, consumed) && Faithful(all) && st.ledger == created - consumed
    requires Recorded(all, accepted, consumed)
    requires s.Offer? ==> VerifiedWithin(c, s.block, all)
    ensures var e := StepEffect(c, st, s);
      && History(all, created + e.created, consumed + e.consumed)
      && Recorded(all, accepted + StepAccepted(c, st, s), consumed + e.consumed)
      && TakeStep(c, st, s).ledger == created + e.created - (consumed + e.consumed)
  {
    hide History, Recorded, Faithful, Attaches, AllCheck, Verify, HandleFork;
    assert created + multiset{} == created && consumed + multiset{} == consumed && accepted + [] == accepted;
    if s.Offer? {
      ApplyAllHistory(c, all, created, consumed, accepted, s.block.transactions);
      HistoryLedger(all, created, consumed, AddBlockEffect(c, st, s.block));
    }
  }

  lemma {:induction false} MixedHistory(c: Crypto, all: set<Transaction>, st: ChainState, steps: seq<Step>)
    requires UniqueOutpoints(st.ledger) && FreshFrom(st.ledger, all) && Faithful(all)
    requires forall i :: 0 <= i < |steps| && steps[i].Offer? ==> VerifiedWithin(c, steps[i].block, all)
    ensures var e := StepsEffect(c, st, steps);
      && History(all, st.ledger + e.created, e.consumed)
      && Recorded(all, Accepted(c, st, steps), e.consumed)
      && TakeSteps(c, st, steps).ledger == st.ledger + e.created - e.consumed
  {
    hide History, Recorded, Faithful, VerifiedWithin, UniqueOutpoints, StepEffect, StepAccepted, TakeStep, FreshFrom;
    if steps == [] {
      StartOfHistory(all, st.ledger);
      assert st.ledger + multiset{} == st.ledger && st.ledger - multiset{} == st.ledger;
    } else {
      var front, s := steps[..|steps| - 1], steps[|steps| - 1];
      MixedHistory(c, all, st, front);
      var e, f := StepsEffect(c, st, front), StepEffect(c, TakeSteps(c, st, front), s);
      StepHistory(c, all, st.ledger + e.created, e.consumed, Accepted(c, st, front), TakeSteps(c, st, front), s);
      assert st.ledger + e.created + f.created == st.ledger + (e.created + f.created);
    }
  }

  /** No double spend in the ledger, forks included: whatever blocks are offered and whatever
      forks are followed, from any peers and any chain, every outpoint is created at most once
      and consumed at most once, the ledger is what was created and not consumed, and AddBlock
      accepts no transaction that spends anything twice, as long as the transactions that verify
      are faithfully and freshly hashed. About the chain, see ChainCanRepeat. */
  lemma {:induction false} NoLedgerDoubleSpend(c: Crypto, all: set<Transaction>, st: ChainState, steps: seq<Step>)
    requires UniqueOutpoints(st.ledger) && FreshFrom(st.ledger, all) && Faithful(all)
    requires forall i :: 0 <= i < |steps| && steps[i].Offer? ==> VerifiedWithin(c, steps[i].block, all)
    ensures var e := StepsEffect(c, st, steps);
      && UniqueOutpoints(st.ledger + e.created)
      && e.consumed <= st.ledger + e.created
      && (forall u :: e.consumed[u] <= 1)
      && TakeSteps(c, st, steps).ledger == st.ledger + e.created - e.consumed
      && NoRepeats(Accepted(c, st, steps))
  {
    hide UniqueOutpoints, Faithful, FreshFrom, VerifiedWithin, StepsEffect, TakeSteps, NoRepeats, Accepted;
    MixedHistory(c, all, st, steps);
    var e := StepsEffect(c, st, steps);
    ConsumedOnce(st.ledger + e.created, e.consumed);
  }

  // --- The chain is another matter ------------------------------------------------

  /** The chain can hold a spending transaction twice even when all peers are honest: a node
      follows a fork of one block that carries it, its ledger keeps the inputs, and it then
      accepts a second block that carries it. */
  lemma ChainCanRepeat(c: Crypto, st: ChainState, p: seq<Block>, b: Block, t: Transaction)
    requires HeaderHashesFaithful(c) && Sound(c, st.blocks) && Sound(c, p) && |st.blocks| == 1 && |p| == 2
    requires st.blocks[0].transactions == [] && p[1].transactions == [t] && b.transactions == [t]
    requires VerifyBlock(c, b) && b.header.previousHash == p[1].hash && b.header.height == 2
    requires t.content.inputs != [] && multiset(t.content.inputs) <= st.ledger
    ensures var steps := [Sync(Last100(p), (i, h) => Some(p[1])), Offer(b)];
      && HonestStep(c, steps[0]) && HonestStep(c, steps[1])
      && ChainTransactions(TakeSteps(c, st, steps).blocks) == [t, t]
      && !NoRepeats(ChainTransactions(TakeSteps(c, st, steps).blocks))
  {
    hide VerifyBlock, BlockEffect, HandleFork;
    var request: Oracle := (i, h) => Some(p[1]);
    var sync, offer := Sync(Last100(p), request), Offer(b);
    OneBlockFork(c, st.blocks, p, request);
    var mid := TakeStep(c, st, sync);
    assert mid.blocks == [st.blocks[0], p[1]] && mid.ledger == st.ledger;
    NodeSpec.SingleTransaction(c, st.ledger, t);
    VerifiedOne(c, b, t);
    var end := TakeStep(c, mid, offer);
    assert end.blocks == [st.blocks[0], p[1], b];
    var steps := [sync, offer];
    assert steps[..1] == [sync] && steps[..1][..0] == [];
    assert TakeSteps(c, st, [sync]) == mid by { TakeOne(c, st, sync); }
    ChainOfThree(st.blocks[0], p[1], b);
    assert [t, t][0].hash == [t, t][1].hash;
  }

  lemma {:induction false} TakeOne(c: Crypto, st: ChainState, s: Step)
    ensures TakeSteps(c, st, [s]) == TakeStep(c, st, s)
  {
    hide TakeStep;
    assert [s][..0] == [];
  }

  lemma VerifiedOne(c: Crypto, b: Block, t: Transaction)
    requires VerifyBlock(c, b) && b.transactions == [t]
    ensures Verify(c, t)
  {
    hide Verify;
    assert b.transactions[0] == t;
  }

  lemma ChainOfThree(x: Block, y: Block, z: Block)
    ensures ChainTransactions([x, y, z]) == x.transactions + y.transactions + z.transactions
  {
    assert [x, y, z][..2] == [x, y] && [x, y][..1] == [x] && [x][..0] == [];
    assert ChainTransactions([x]) == x.transactions by { assert [] + x.transactions == x.transactions; }
  }

  /** A fork of one block above a bare genesis block is adopted as it is. */
  lemma OneBlockFork(c: Crypto, q: seq<Block>, p: seq<Block>, request: Oracle)
    requires HeaderHashesFaithful(c) && Sound(c, q) && Sound(c, p) && |q| == 1 && |p| == 2
    requires forall i, h :: request(i, h) == Some(p[1])
    ensures HandleFork(c, q, Last100(p), request).blocks == [q[0], p[1]]
    ensures Serves(c, Last100(p), request)
  {
    hide VerifyBlock, HandleFork, AncestorIndex, MissingFrom, LastIndexOf;
    var incoming := Last100(p);
    assert VerifyBlock(c, p[1]) && p[1].header.previousHash == "" == q[0].hash == p[0].hash;
    SameHashSameHeader(c, p[1], p[1]);
    Last100At(p, 0);
    Last100At(p, 1);
    assert incoming == ["", p[1].hash] && p[1].hash != "";
    assert incoming[0] == q[0].hash;
    assert AncestorIndex(q, incoming) == Some(0);
    assert MissingFrom(incoming, "") == 1;
    var fetched := MissingBlocks(q, incoming, request);
    assert fetched == [Some(p[1])];
    assert FetchedOk(c, fetched, 0);
    ValidateIs(c, fetched, 1);
    ValidFetch(c, fetched);
    assert Values(fetched) == [p[1]];
    assert LastIndexOf(q, "") == Some(0);
    ReplacesFrom(c, q, incoming, request, 0);
    assert q[..1] + [p[1]] == [q[0], p[1]];
  }

  /** Two lists of transactions have a hash in common that either spends under. */
  ghost predicate Clash(a: seq<Transaction>, b: seq<Transaction>) {
    exists i, j :: 0 <= i < |a| && 0 <= j < |b| && a[i].hash == b[j].hash
      && (a[i].content.inputs != [] || b[j].content.inputs != [])
  }

  lemma RepeatsSplit(a: seq<Transaction>, b: seq<Transaction>)
    ensures NoRepeats(a + b) <==> NoRepeats(a) && NoRepeats(b) && !Clash(a, b)
  {
    var all := a + b;
    if NoRepeats(all) {
      forall i, j | 0 <= i < j < |a| && a[i].hash == a[j].hash
        ensures a[i].content.inputs == [] && a[j].content.inputs == []
      {
        assert all[i] == a[i] && all[j] == a[j];
      }
      forall i, j | 0 <= i < j < |b| && b[i].hash == b[j].hash
        ensures b[i].content.inputs == [] && b[j].content.inputs == []
      {
        assert all[|a| + i] == b[i] && all[|a| + j] == b[j];
      }
      forall i, j | 0 <= i < |a| && 0 <= j < |b| && a[i].hash == b[j].hash
        ensures a[i].content.inputs == [] && b[j].content.inputs == []
      {
        assert all[i] == a[i] && all[|a| + j] == b[j];
      }
    }
  }

  /** The part of the chain that a step keeps, and the blocks it then puts on top. */
  function Kept(c: Crypto, st: ChainState, s: Step): seq<Block> {
    if s.Sync? && ReadyToReplace(c, st.blocks, s.incoming, s.request) then
      match LastIndexOf(st.blocks, ForkParent(c, st.blocks, s.incoming, s.request))
      case Some(k) => st.blocks[..k + 1]
      case None => []
    else st.blocks
  }

  function Added(c: Crypto, st: ChainState, s: Step): seq<Block> {
    match s
    case Offer(b) => if AddBlockEffect(c, st, b).ok then [b] else []
    case Sync(incoming, request) =>
      if ReadyToReplace(c, st.blocks, incoming, request) && Kept(c, st, s) != []
      then Values(MissingBlocks(st.blocks, incoming, request)) else []
  }

  lemma StepIsKeptAndAdded(c: Crypto, st: ChainState, s: Step)
    requires st.blocks != []
    ensures TakeStep(c, st, s).blocks == Kept(c, st, s) + Added(c, st, s)
    ensures Kept(c, st, s) <= st.blocks
  {
    hide AddBlockEffect, ReadyToReplace, LastIndexOf, Values, MissingBlocks, Validate, AncestorIndex;
    if s.Sync? {
      if ReadyToReplace(c, st.blocks, s.incoming, s.request) {
        ReadyIsReplace(c, st.blocks, s.incoming, s.request);
      } else {
        ForkResultCases(c, st.blocks, s.incoming, s.request);
      }
    }
  }

  lemma ReadyIsReplace(c: Crypto, blocks: seq<Block>, incoming: seq<string>, request: Oracle)
    requires ReadyToReplace(c, blocks, incoming, request)
    ensures var missing := Values(MissingBlocks(blocks, incoming, request));
      && HandleFork(c, blocks, incoming, request) == Replace(blocks, missing)
      && missing != [] && missing[0].header.previousHash == ForkParent(c, blocks, incoming, request)
  {
    hide FetchedOk, AncestorIndex, MissingBlocks, Validate, Values, Replace;
    var fetched := MissingBlocks(blocks, incoming, request);
    ValidateIs(c, fetched, |fetched|);
    ValidFetch(c, fetched);
    assert FetchedOk(c, fetched, 0);
  }

  lemma {:induction false} ChainTransactionsSplit(a: seq<Block>, b: seq<Block>)
    ensures ChainTransactions(a + b) == ChainTransactions(a) + ChainTransactions(b)
  {
    if b == [] {
      assert a + b == a;
    } else {
      assert (a + b)[..|a + b| - 1] == a + b[..|b| - 1];
      ChainTransactionsSplit(a, b[..|b| - 1]);
    }
  }

  /** Exactly when a step leaves the chain without a repeated spending transaction: when the
      blocks it puts on top repeat none among themselves and none of the part it keeps. AddBlock
      and HandleFork check neither. */
  lemma StepRepeatsIff(c: Crypto, st: ChainState, s: Step)
    requires st.blocks != [] && NoRepeats(ChainTransactions(st.blocks))
    ensures NoRepeats(ChainTransactions(TakeStep(c, st, s).blocks)) <==>
      var added := ChainTransactions(Added(c, st, s));
      NoRepeats(added) && !Clash(ChainTransactions(Kept(c, st, s)), added)
  {
    hide NoRepeats, Clash, Kept, Added, TakeStep, ChainTransactions;
    StepIsKeptAndAdded(c, st, s);
    var kept, added := Kept(c, st, s), Added(c, st, s);
    ChainTransactionsSplit(kept, added);
    RepeatsSplit(ChainTransactions(kept), ChainTransactions(added));
    assert st.blocks == kept + st.blocks[|kept|..];
    ChainTransactionsSplit(kept, st.blocks[|kept|..]);
    RepeatsSplit(ChainTransactions(kept), ChainTransactions(st.blocks[|kept|..]));
  }

  // --- The exact condition, without any hypothesis on hashes --------------------

  /** None of the transactions that are accepted, one after the other, creates an outpoint
      that is taken by then. */
  ghost predicate NeverReuses(c: Crypto, created: multiset<UTXO>, consumed: multiset<UTXO>, txs: seq<Transaction>)
    decreases |txs|
  {
    txs != [] ==>
      var e := TransactionEffect(c, created - consumed, txs[0]);
      e.ok ==>
        && !Reuses(created, txs[0])
        && NeverReuses(c, created + e.created, consumed + e.consumed, txs[1..])
  }

  lemma UniquePart(a: multiset<UTXO>, b: multiset<UTXO>)
    requires UniqueOutpoints(a + b)
    ensures UniqueOutpoints(a)
  {
    forall u, v | u in a && v in a && u.txID == v.txID && u.index == v.index ensures u == v && a[u] == 1 {
      assert u in a + b && v in a + b && (a + b)[u] == a[u] + b[u];
    }
  }

  lemma AcceptedLedgerIs(created: multiset<UTXO>, consumed: multiset<UTXO>, e: Effect)
    requires consumed <= created && e.consumed <= created - consumed
    ensures After(created - consumed, e) == created + e.created - (consumed + e.consumed)
    ensures consumed + e.consumed <= created + e.created
  {
  }

  lemma {:induction false} ApplyAllUniqueIff(c: Crypto, created: multiset<UTXO>, consumed: multiset<UTXO>,
        txs: seq<Transaction>)
    requires UniqueOutpoints(created) && consumed <= created
    ensures UniqueOutpoints(created + ApplyAll(c, created - consumed, txs).created)
      <==> NeverReuses(c, created, consumed, txs)
    decreases |txs|
  {
    hide UniqueOutpoints, TransactionEffect, Reuses, Verify, Outputs;
    var bag := created - consumed;
    if txs == [] {
      assert created + multiset{} == created;
    } else {
      var t, rest := txs[0], txs[1..];
      var e := TransactionEffect(c, bag, t);
      TransactionPossible(c, bag, t);
      if e.ok {
        TransactionAcceptance(c, bag, t);
        AcceptedLedgerIs(created, consumed, e);
        StaysUniqueIff(c, created, t);
        var f := ApplyAll(c, After(bag, e), rest);
        assert created + (e.created + f.created) == created + e.created + f.created;
        if Reuses(created, t) {
          if UniqueOutpoints(created + e.created + f.created) {
            UniquePart(created + e.created, f.created);
          }
        } else {
          ApplyAllUniqueIff(c, created + e.created, consumed + e.consumed, rest);
        }
      } else {
        FailureCreatesNothing(c, bag, t);
        assert created + multiset{} == created;
      }
    }
  }

  /** The same for a step: only the transactions of a block that fits and passes the ledger's
      check are tried at all. */
  ghost predicate StepNeverReuses(c: Crypto, st: ChainState, created: multiset<UTXO>, consumed: multiset<UTXO>,
        s: Step) {
    s.Offer? && Attaches(c, st.blocks, s.block) && AllCheck(c, st.ledger, s.block.transactions) ==>
      NeverReuses(c, created, consumed, s.block.transactions)
  }

  /** And for a whole run. */
  ghost predicate RunNeverReuses(c: Crypto, st: ChainState, steps: seq<Step>) {
    steps != [] ==>
      var front := steps[..|steps| - 1]; var e := StepsEffect(c, st, front);
      && RunNeverReuses(c, st, front)
      && StepNeverReuses(c, TakeSteps(c, st, front), st.ledger + e.created, e.consumed, steps[|steps| - 1])
  }

  lemma StepUniqueIff(c: Crypto, st: ChainState, created: multiset<UTXO>, consumed: multiset<UTXO>,
        s: Step)
    requires UniqueOutpoints(created) && consumed <= created && st.ledger == created - consumed
    ensures UniqueOutpoints(created + StepEffect(c, st, s).created) <==> StepNeverReuses(c, st, created, consumed, s)
  {
    hide UniqueOutpoints, NeverReuses, ApplyAll, Attaches, AllCheck;
    assert created + multiset{} == created;
    if s.Offer? {
      ApplyAllUniqueIff(c, created, consumed, s.block.transactions);
    }
  }

  /** A step takes only what is there. */
  lemma StepBalances(c: Crypto, st: ChainState, created: multiset<UTXO>, consumed: multiset<UTXO>,
        s: Step)
    requires consumed <= created && st.ledger == created - consumed
    ensures var e := StepEffect(c, st, s);
      && consumed + e.consumed <= created + e.created
      && TakeStep(c, st, s).ledger == created + e.created - (consumed + e.consumed)
  {
    hide ApplyAll, Attaches, AllCheck, HandleFork;
    if s.Offer? {
      ApplyAllPossible(c, st.ledger, s.block.transactions);
    }
  }

  /** In every run at all, the ledger is what was created minus what was consumed. */
  lemma {:induction false} RunBalances(c: Crypto, st: ChainState, steps: seq<Step>)
    ensures var e := StepsEffect(c, st, steps);
      && e.consumed <= st.ledger + e.created
      && TakeSteps(c, st, steps).ledger == st.ledger + e.created - e.consumed
  {
    hide StepEffect, TakeStep;
    if steps == [] {
      assert st.ledger + multiset{} - multiset{} == st.ledger;
    } else {
      var front, s := steps[..|steps| - 1], steps[|steps| - 1];
      RunBalances(c, st, front);
      var e, f := StepsEffect(c, st, front), StepEffect(c, TakeSteps(c, st, front), s);
      StepBalances(c, TakeSteps(c, st, front), st.ledger + e.created, e.consumed, s);
      assert st.ledger + e.created + f.created == st.ledger + (e.created + f.created);
    }
  }

  /** Exactly when a run creates every outpoint at most once: when no transaction it accepted
      created one that was taken at the time. Nothing is assumed about hashes or peers; and
      then no coin is consumed twice. */
  lemma {:induction false} RunUniqueIff(c: Crypto, st: ChainState, steps: seq<Step>)
    requires UniqueOutpoints(st.ledger)
    ensures var e := StepsEffect(c, st, steps);
      && (UniqueOutpoints(st.ledger + e.created) <==> RunNeverReuses(c, st, steps))
      && (RunNeverReuses(c, st, steps) ==> forall u :: e.consumed[u] <= 1)
  {
    hide UniqueOutpoints, StepEffect, TakeSteps, StepNeverReuses;
    RunBalances(c, st, steps);
    if steps == [] {
      assert st.ledger + multiset{} == st.ledger;
    } else {
      var front, s := steps[..|steps| - 1], steps[|steps| - 1];
      RunUniqueIff(c, st, front);
      RunBalances(c, st, front);
      var e, f := StepsEffect(c, st, front), StepEffect(c, TakeSteps(c, st, front), s);
      var created := st.ledger + e.created;
      assert created + f.created == st.ledger + (e.created + f.created);
      if UniqueOutpoints(created) {
        StepUniqueIff(c, TakeSteps(c, st, front), created, e.consumed, s);
      } else if UniqueOutpoints(created + f.created) {
        UniquePart(created, f.created);
      }
    }
    var e := StepsEffect(c, st, steps);
    if UniqueOutpoints(st.ledger + e.created) {
      ConsumedOnce(st.ledger + e.created, e.consumed);
    }
  }

  // --- The ledger stays fit for payments ----------------------------------------

  /** Outputs of transactions with names have names. */
  lemma {:induction false} ApplyAllNamed(c: Crypto, bag: multiset<UTXO>, txs: seq<Transaction>)
    requires NoEmptyIDs(bag) && forall i :: 0 <= i < |txs| ==> txs[i].hash != ""
    ensures NoEmptyIDs(After(bag, ApplyAll(c, bag, txs)))
    decreases |txs|
  {
    hide Verify, Outputs, Removable;
    if txs == [] {
    } else {
      var t, rest := txs[0], txs[1..];
      var e := TransactionEffect(c, bag, t);
      forall u | u in e.created ensures u.txID != "" {
        OutputsHash(t, u);
      }
      if e.ok {
        TransactionPossible(c, bag, t);
        ApplyAllPossible(c, After(bag, e), rest);
        ThenComposes(bag, e, ApplyAll(c, After(bag, e), rest));
        ApplyAllNamed(c, After(bag, e), rest);
      }
    }
  }

  /** A step keeps every coin positive and named and the supply below 2^63: a block that
      verifies contains only transactions with a hash. */
  lemma StepKeepsWellFormed(c: Crypto, st: ChainState, s: Step)
    requires WellFormed(st.ledger)
    ensures WellFormed(TakeStep(c, st, s).ledger)
    ensures Value(TakeStep(c, st, s).ledger, None) <= Value(st.ledger, None)
  {
    hide ApplyAll, AllCheck, Verify, HandleFork, AllPositive, Value;
    if s.Offer? {
      AddBlockSupply(c, st, s.block);
      assert After(st.ledger, NO_EFFECT) == st.ledger;
      if Attaches(c, st.blocks, s.block) {
        ApplyAllNamed(c, st.ledger, s.block.transactions);
      }
    }
  }

  /** Along every run from a well-formed ledger the ledger stays well formed, the supply never
      grows and no balance wraps, so that every result about payments applies at any time. */
  lemma {:induction false} RunsKeepWellFormed(c: Crypto, st: ChainState, steps: seq<Step>, who: string)
    requires WellFormed(st.ledger)
    ensures var end := TakeSteps(c, st, steps).ledger;
      && WellFormed(end)
      && Value(end, None) <= Value(st.ledger, None)
      && Wrap64(Value(end, Some(who))) == Value(end, Some(who))
      && 0 <= Value(end, Some(who)) <= Value(end, None)
  {
    hide TakeStep, AllPositive, NoEmptyIDs, Value, Wrap64;
    if steps != [] {
      var front := steps[..|steps| - 1];
      RunsKeepWellFormed(c, st, front, who);
      StepKeepsWellFormed(c, TakeSteps(c, st, front), steps[|steps| - 1]);
    }
    BalancesFit(TakeSteps(c, st, steps).ledger, who);
  }

  // --- Difficulty along runs -----------------------------------------------------

  /** An offered block carries the difficulty due on the chain at the time, and forks are
      those of honest peers whose own blocks carry theirs. */
  ghost predicate DueStep(c: Crypto, st: ChainState, s: Step) {
    match s
    case Offer(b) => DifficultyAt(c, st.blocks, |st.blocks|) == Some(b.header.difficulty)
    case Sync(incoming, request) => exists p ::
      Sound(c, p) && DifficultiesMatch(c, p) && incoming == Last100(p) && Serves(c, incoming, request)
  }

  ghost predicate DueRun(c: Crypto, st: ChainState, steps: seq<Step>) {
    steps != [] ==>
      var front := steps[..|steps| - 1];
      DueRun(c, st, front) && DueStep(c, TakeSteps(c, st, front), steps[|steps| - 1])
  }

  lemma DueStepKeeps(c: Crypto, st: ChainState, s: Step)
    requires HeaderHashesFaithful(c) && Sound(c, st.blocks) && DifficultiesMatch(c, st.blocks) && DueStep(c, st, s)
    ensures Sound(c, TakeStep(c, st, s).blocks) && DifficultiesMatch(c, TakeStep(c, st, s).blocks)
  {
    hide DifficultiesMatch, DifficultyAt, Last100, Serves, HandleFork, AddBlockEffect, After;
    match s {
      case Offer(b) =>
        AddBlockKeepsSound(c, st, b);
        DifficultiesMatchIff(c, st.blocks, b);
      case Sync(incoming, request) =>
        var p :| Sound(c, p) && DifficultiesMatch(c, p) && incoming == Last100(p) && Serves(c, incoming, request);
        ForkConverges(c, st.blocks, p, request);
        AdoptionCarriesDifficulties(c, st.blocks, p, request);
    }
  }

  /** Difficulty is self-consistent in every state of every such run: each block above genesis
      passes all the checks of Blockchain.Verify, although neither AddBlock nor HandleFork
      looks at the difficulty. */
  lemma {:induction false} DueRunsStayConsistent(c: Crypto, st: ChainState, steps: seq<Step>)
    requires HeaderHashesFaithful(c) && Sound(c, st.blocks) && DifficultiesMatch(c, st.blocks)
    requires DueRun(c, st, steps)
    ensures var end := TakeSteps(c, st, steps).blocks;
      && Sound(c, end) && DifficultiesMatch(c, end)
      && forall i :: 1 <= i < |end| ==> BlockChecks(c, end, i)
  {
    hide Sound, DifficultiesMatch, DueStep, TakeStep, BlockChecks;
    if steps != [] {
      var front := steps[..|steps| - 1];
      DueRunsStayConsistent(c, st, front);
      DueStepKeeps(c, TakeSteps(c, st, front), steps[|steps| - 1]);
    }
    ConsistentChecks(c, TakeSteps(c, st, steps).blocks);
  }

  lemma ConsistentChecks(c: Crypto, blocks: seq<Block>)
    requires Sound(c, blocks) && DifficultiesMatch(c, blocks)
    ensures forall i :: 1 <= i < |blocks| ==> BlockChecks(c, blocks, i)
  {
    hide DifficultyAt, VerifyBlock;
    forall i | 1 <= i < |blocks| ensures BlockChecks(c, blocks, i) {
      ChecksAboveGenesis(c, blocks, i);
    }
  }
}
