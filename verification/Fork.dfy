/** The longest-chain rule: finding a common ancestor, fetching what is missing, checking
    it, and replacing the tail of the chain. */
module Fork {
  import opened Types
  import opened Blocks
  import opened Difficulty
  import opened ChainSpec

  function HashesOf(blocks: seq<Block>): (hs: seq<string>)
    ensures |hs| == |blocks|
    ensures forall i :: 0 <= i < |hs| ==> hs[i] == blocks[i].hash
  {
    seq(|blocks|, i requires 0 <= i < |blocks| => blocks[i].hash)
  }

  function Min(a: int, b: int): int {
    if a <= b then a else b
  }

  /** The hash list a node sends along: its last hundred, or all of them. */
  function Last100(blocks: seq<Block>): seq<string> {
    HashesOf(blocks[|blocks| - Min(100, |blocks|)..])
  }

  /** The highest block carrying `hash`. */
  function LastIndexOf(blocks: seq<Block>, hash: string): (r: Option<nat>)
    ensures r.Some? ==> r.value < |blocks| && blocks[r.value].hash == hash
    ensures forall i :: (if r.Some? then r.value < i else 0 <= i) && i < |blocks| ==> blocks[i].hash != hash
  {
    if blocks == [] then None
    else if blocks[|blocks| - 1].hash == hash then Some(|blocks| - 1)
    else LastIndexOf(blocks[..|blocks| - 1], hash)
  }

  /** The highest of our blocks that the peer's list mentions. */
  function AncestorIndex(blocks: seq<Block>, incoming: seq<string>): (r: Option<nat>)
    ensures r.Some? ==> r.value < |blocks| && blocks[r.value].hash in incoming
    ensures forall i :: (if r.Some? then r.value < i else 0 <= i) && i < |blocks| ==> blocks[i].hash !in incoming
  {
    if blocks == [] then None
    else if blocks[|blocks| - 1].hash in incoming then Some(|blocks| - 1)
    else AncestorIndex(blocks[..|blocks| - 1], incoming)
  }

  /** The position after the last occurrence of `hash`, or 0. */
  function MissingFrom(incoming: seq<string>, hash: string): (k: nat)
    ensures k <= |incoming|
    ensures k > 0 ==> incoming[k - 1] == hash
    ensures forall i :: k <= i < |incoming| ==> incoming[i] != hash
  {
    if incoming == [] then 0
    else if incoming[|incoming| - 1] == hash then |incoming|
    else MissingFrom(incoming[..|incoming| - 1], hash)
  }

  /** How peers answer a request for a block: by the place in the list it is asked for, so
      that repeated requests may get different answers, and possibly with nothing. */
  type Oracle = (int, string) -> Option<Block>

  /** The blocks fetched for positions `k` onward. */
  function Fetched(incoming: seq<string>, k: nat, request: Oracle): (s: seq<Option<Block>>)
    requires k <= |incoming|
    ensures |s| == |incoming| - k
    ensures forall i :: 0 <= i < |s| ==> s[i] == request(k + i, incoming[k + i])
  {
    seq(|incoming| - k, i requires 0 <= i < |incoming| - k => request(k + i, incoming[k + i]))
  }

  datatype Validation = AllValid | Rejected | NilBlock

  /** Whether block `i` of the fetched ones passes: it verifies and, except for the first,
      links to the one before it. */
  predicate FetchedOk(c: Crypto, fetched: seq<Option<Block>>, i: nat)
    requires i < |fetched|
  {
    && fetched[i].Some? && VerifyBlock(c, fetched[i].value)
    && (i > 0 && fetched[i - 1].Some? ==> fetched[i].value.header.previousHash == fetched[i - 1].value.hash)
  }

  /** ValidateBlocks on the first `n`: the first faulty block decides, and a missing one
      is dereferenced, which crashes. */
  function Validate(c: Crypto, fetched: seq<Option<Block>>, n: nat): Validation
    requires n <= |fetched|
  {
    if n == 0 then AllValid else
    match Validate(c, fetched, n - 1)
    case AllValid =>
      if fetched[n - 1].None? then NilBlock
      else if FetchedOk(c, fetched, n - 1) then AllValid
      else Rejected
    case v => v
  }

  lemma {:induction false} ValidateIs(c: Crypto, fetched: seq<Option<Block>>, n: nat)
    requires n <= |fetched|
    ensures Validate(c, fetched, n).AllValid? <==> forall i :: 0 <= i < n ==> FetchedOk(c, fetched, i)
  {
    hide VerifyBlock;
    if n > 0 {
      ValidateIs(c, fetched, n - 1);
      assert FetchedOk(c, fetched, n - 1) ==> fetched[n - 1].Some?;
    }
  }

  datatype ForkOutcome = NoAncestor | OwnKept | FetchCrashed | ForkInvalid | NothingToReplace | ParentAbsent | Adopted

  datatype ForkResult = ForkResult(outcome: ForkOutcome, blocks: seq<Block>)

  /** ReplaceWithFork: roll back to the parent of the first new block and append. If that
      parent is not on the chain the rollback has removed everything. */
  function Replace(blocks: seq<Block>, missing: seq<Block>): ForkResult {
    if missing == [] then ForkResult(NothingToReplace, blocks) else
    match LastIndexOf(blocks, missing[0].header.previousHash)
    case None => ForkResult(ParentAbsent, [])
    case Some(k) => ForkResult(Adopted, blocks[..k + 1] + missing)
  }

  /** The blocks that were answered with, dropping failed requests. */
  function Values(fetched: seq<Option<Block>>): seq<Block> {
    if fetched == [] then [] else
    Values(fetched[..|fetched| - 1]) + match fetched[|fetched| - 1] case Some(b) => [b] case None => []
  }

  lemma {:induction false} ValuesAre(fetched: seq<Option<Block>>)
    requires forall i :: 0 <= i < |fetched| ==> fetched[i].Some?
    ensures |Values(fetched)| == |fetched|
    ensures forall i :: 0 <= i < |fetched| ==> fetched[i] == Some(Values(fetched)[i])
  {
    if fetched != [] {
      ValuesAre(fetched[..|fetched| - 1]);
    }
  }

  /** A fork that passes validation, block by block. */
  lemma {:induction false} ValidFetch(c: Crypto, fetched: seq<Option<Block>>)
    requires Validate(c, fetched, |fetched|).AllValid?
    ensures |Values(fetched)| == |fetched|
    ensures forall i :: 0 <= i < |fetched| ==> FetchedOk(c, fetched, i) && fetched[i] == Some(Values(fetched)[i])
  {
    hide VerifyBlock;
    ValidateIs(c, fetched, |fetched|);
    forall i | 0 <= i < |fetched| ensures fetched[i].Some? {
      assert FetchedOk(c, fetched, i);
    }
    ValuesAre(fetched);
  }

  /** The blocks HandleFork asks for. */
  function MissingBlocks(blocks: seq<Block>, incoming: seq<string>, request: Oracle): seq<Option<Block>>
    requires AncestorIndex(blocks, incoming).Some?
  {
    Fetched(incoming, MissingFrom(incoming, blocks[AncestorIndex(blocks, incoming).value].hash), request)
  }

  /** HandleFork. The work of either side is just how many hashes it can show. */
  function HandleFork(c: Crypto, blocks: seq<Block>, incoming: seq<string>, request: Oracle): ForkResult {
    if AncestorIndex(blocks, incoming).None? then ForkResult(NoAncestor, blocks)
    else if |incoming| <= Min(100, |blocks|) then ForkResult(OwnKept, blocks)
    else
      var fetched := MissingBlocks(blocks, incoming, request);
      match Validate(c, fetched, |fetched|)
      case NilBlock => ForkResult(FetchCrashed, blocks)
      case Rejected => ForkResult(ForkInvalid, blocks)
      case AllValid => Replace(blocks, Values(fetched))
  }

  // --- Any peer ----------------------------------------------------------------

  /** The list mentions one of our blocks and is longer than what we can show. */
  predicate LongEnough(blocks: seq<Block>, incoming: seq<string>) {
    AncestorIndex(blocks, incoming).Some? && |incoming| > Min(100, |blocks|)
  }

  /** The fork is long enough, something is missing from our chain, and every block fetched
      verifies and links to the one before it. */
  predicate ReadyToReplace(c: Crypto, blocks: seq<Block>, incoming: seq<string>, request: Oracle) {
    && LongEnough(blocks, incoming)
    && var fetched := MissingBlocks(blocks, incoming, request);
       fetched != [] && forall i :: 0 <= i < |fetched| ==> FetchedOk(c, fetched, i)
  }

  /** The parent that the first fetched block names. */
  function ForkParent(c: Crypto, blocks: seq<Block>, incoming: seq<string>, request: Oracle): string
    requires ReadyToReplace(c, blocks, incoming, request)
  {
    var fetched := MissingBlocks(blocks, incoming, request);
    assert FetchedOk(c, fetched, 0);
    fetched[0].value.header.previousHash
  }

  /** `after` is `before` cut right above its highest block with hash `parent`, followed by
      the blocks that were fetched. */
  ghost predicate Spliced(before: seq<Block>, parent: string, fetched: seq<Option<Block>>, after: seq<Block>, k: nat) {
    && 0 < k <= |before| && before[k - 1].hash == parent
    && (forall i :: k <= i < |before| ==> before[i].hash != parent)
    && |after| == k + |fetched| && after[..k] == before[..k]
    && forall i :: 0 <= i < |fetched| ==> fetched[i] == Some(after[k + i])
  }

  /** Whatever peers send and answer, exactly when the chain is replaced and by what, in
      terms of the call's inputs: it is touched only by a fork that is ready to replace it;
      then it becomes a non-empty part of the old chain, up to the parent, followed by the
      fetched blocks, or nothing at all if the parent is not on it. */
  lemma ForkResultCases(c: Crypto, blocks: seq<Block>, incoming: seq<string>, request: Oracle)
    requires blocks != []
    ensures var r := HandleFork(c, blocks, incoming, request);
      var ready := ReadyToReplace(c, blocks, incoming, request);
      && (r.outcome in {Adopted, ParentAbsent} <==> ready)
      && (!ready ==> r.blocks == blocks)
      && (ready ==>
            var parent := ForkParent(c, blocks, incoming, request);
            && (parent !in HashesOf(blocks) ==> r == ForkResult(ParentAbsent, []))
            && (parent in HashesOf(blocks) ==> r.outcome == Adopted && exists k ::
                  Spliced(blocks, parent, MissingBlocks(blocks, incoming, request), r.blocks, k)))
  {
    hide VerifyBlock, FetchedOk, Validate, Values, LastIndexOf, AncestorIndex, MissingBlocks;
    var r := HandleFork(c, blocks, incoming, request);
    if LongEnough(blocks, incoming) {
      var fetched := MissingBlocks(blocks, incoming, request);
      ValidateIs(c, fetched, |fetched|);
      if Validate(c, fetched, |fetched|).AllValid? {
        ValidFetch(c, fetched);
        if fetched != [] {
          var parent := ForkParent(c, blocks, incoming, request);
          assert FetchedOk(c, fetched, 0);
          assert Values(fetched)[0].header.previousHash == parent;
          SplicedAt(blocks, parent, fetched, Values(fetched));
        }
      }
    }
  }

  /** What Replace makes of the fetched blocks. */
  lemma SplicedAt(blocks: seq<Block>, parent: string, fetched: seq<Option<Block>>, missing: seq<Block>)
    requires missing != [] && missing[0].header.previousHash == parent && |missing| == |fetched|
    requires forall i :: 0 <= i < |fetched| ==> fetched[i] == Some(missing[i])
    ensures var r := Replace(blocks, missing);
      && (parent !in HashesOf(blocks) ==> r == ForkResult(ParentAbsent, []))
      && (parent in HashesOf(blocks) ==>
            r.outcome == Adopted && exists k :: Spliced(blocks, parent, fetched, r.blocks, k))
  {
    hide LastIndexOf;
    var at := LastIndexOf(blocks, parent);
    if at.Some? {
      assert HashesOf(blocks)[at.value] == parent;
      assert Spliced(blocks, parent, fetched, blocks[..at.value + 1] + missing, at.value + 1);
    }
  }

  /** Exactly when a node loses its whole chain: when the fork is ready to replace it and
      the first fetched block names a parent that is not on it. */
  lemma ForkEmptiesChainIff(c: Crypto, blocks: seq<Block>, incoming: seq<string>, request: Oracle)
    requires blocks != []
    ensures HandleFork(c, blocks, incoming, request).blocks == [] <==>
      && ReadyToReplace(c, blocks, incoming, request)
      && ForkParent(c, blocks, incoming, request) !in HashesOf(blocks)
  {
    hide ReadyToReplace, ForkParent, HandleFork;
    ForkResultCases(c, blocks, incoming, request);
  }

  /** The first fetched block that fails, and whether it fails by not being there. */
  ghost predicate FailsAt(c: Crypto, fetched: seq<Option<Block>>, i: nat)
    requires i < |fetched|
  {
    !FetchedOk(c, fetched, i) && forall j :: 0 <= j < i ==> FetchedOk(c, fetched, j)
  }

  lemma {:induction false} ValidateFails(c: Crypto, fetched: seq<Option<Block>>, n: nat)
    requires n <= |fetched|
    ensures Validate(c, fetched, n).NilBlock? <==> exists i :: 0 <= i < n && FailsAt(c, fetched, i) && fetched[i].None?
    ensures Validate(c, fetched, n).Rejected? <==> exists i :: 0 <= i < n && FailsAt(c, fetched, i) && fetched[i].Some?
  {
    hide FetchedOk;
    if n > 0 {
      ValidateFails(c, fetched, n - 1);
      ValidateIs(c, fetched, n - 1);
      var last := n - 1;
      if fetched[last].None? { NoneFails(c, fetched, last); }
      if Validate(c, fetched, last).AllValid? && !FetchedOk(c, fetched, last) {
        assert FailsAt(c, fetched, last);
      }
    }
  }

  lemma NoneFails(c: Crypto, fetched: seq<Option<Block>>, i: nat)
    requires i < |fetched| && fetched[i].None?
    ensures !FetchedOk(c, fetched, i)
  {
  }

  /** The other outcomes, none of which changes the chain: which one it is, from the inputs. */
  lemma {:induction false} ForkFailureCases(c: Crypto, blocks: seq<Block>, incoming: seq<string>, request: Oracle)
    ensures var r := HandleFork(c, blocks, incoming, request);
      && (r.outcome == NoAncestor <==> AncestorIndex(blocks, incoming).None?)
      && (r.outcome == OwnKept <==> AncestorIndex(blocks, incoming).Some? && |incoming| <= Min(100, |blocks|))
      && (LongEnough(blocks, incoming) ==>
            var fetched := MissingBlocks(blocks, incoming, request);
            && (r.outcome == NothingToReplace <==> fetched == [])
            && (r.outcome == FetchCrashed <==>
                  exists i :: 0 <= i < |fetched| && FailsAt(c, fetched, i) && fetched[i].None?)
            && (r.outcome == ForkInvalid <==>
                  exists i :: 0 <= i < |fetched| && FailsAt(c, fetched, i) && fetched[i].Some?))
  {
    hide VerifyBlock, FailsAt, Values, LastIndexOf, AncestorIndex, MissingBlocks;
    if LongEnough(blocks, incoming) {
      var fetched := MissingBlocks(blocks, incoming, request);
      ValidateFails(c, fetched, |fetched|);
      if Validate(c, fetched, |fetched|).AllValid? {
        ValidFetch(c, fetched);
      }
    }
  }

  /** Whatever peers do, a linked chain verified above genesis stays one. */
  lemma ForkKeepsLinks(c: Crypto, blocks: seq<Block>, incoming: seq<string>, request: Oracle)
    requires Linked(blocks) && VerifiedAbove(c, blocks)
    ensures var r := HandleFork(c, blocks, incoming, request);
      Linked(r.blocks) && VerifiedAbove(c, r.blocks)
  {
    hide VerifyBlock, Validate, Values, LastIndexOf, AncestorIndex, MissingBlocks;
    var r := HandleFork(c, blocks, incoming, request);
    if r.outcome == Adopted {
      var fetched := MissingBlocks(blocks, incoming, request);
      ValidFetch(c, fetched);
      var missing := Values(fetched);
      var k := LastIndexOf(blocks, missing[0].header.previousHash).value + 1;
      forall i | 1 <= i < |r.blocks|
        ensures VerifyBlock(c, r.blocks[i]) && r.blocks[i].header.previousHash == r.blocks[i - 1].hash
      {
        if i >= k {
          assert FetchedOk(c, fetched, i - k);
        }
      }
    }
  }

  // --- Honest peers ------------------------------------------------------------

  /** Two sound chains that share a hash agree, hash for hash, up to that point. */
  lemma SharedPrefix(c: Crypto, p: seq<Block>, q: seq<Block>, i: nat, j: nat)
    requires HeaderHashesFaithful(c) && Sound(c, p) && Sound(c, q)
    requires i < |p| && j < |q| && p[i].hash == q[j].hash
    ensures i == j
    ensures forall k :: 0 <= k <= i ==> p[k].hash == q[k].hash
    decreases i
  {
    hide VerifyBlock;
    assert i > 0 ==> p[i].hash != "" by {
      if i > 0 { SameHashSameHeader(c, p[i], p[i]); }
    }
    assert j > 0 ==> q[j].hash != "" by {
      if j > 0 { SameHashSameHeader(c, q[j], q[j]); }
    }
    if i > 0 {
      SameHashSameHeader(c, p[i], q[j]);
      SharedPrefix(c, p, q, i - 1, j - 1);
    }
  }

  /** The request oracle of a peer that answers with a verified block of the hash asked for. */
  ghost predicate Serves(c: Crypto, incoming: seq<string>, request: Oracle) {
    forall i :: 0 <= i < |incoming| && incoming[i] != "" ==>
      request(i, incoming[i]).Some? && request(i, incoming[i]).value.hash == incoming[i]
      && VerifyBlock(c, request(i, incoming[i]).value)
  }

  /** The window starts this far up the peer's chain. */
  function WindowStart(p: seq<Block>): nat {
    |p| - Min(100, |p|)
  }

  lemma Last100Length(p: seq<Block>)
    ensures |Last100(p)| == Min(100, |p|)
  {
  }

  lemma Last100At(p: seq<Block>, i: nat)
    requires i < |Last100(p)|
    ensures |Last100(p)| == Min(100, |p|)
    ensures Last100(p)[i] == p[WindowStart(p) + i].hash
  {
  }

  /** A hash of ours found in an honest peer's list sits at our own height. */
  lemma ListedAtOwnHeight(c: Crypto, q: seq<Block>, p: seq<Block>, h: nat, i: nat)
    requires HeaderHashesFaithful(c) && Sound(c, q) && Sound(c, p)
    requires h < |q| && i < |Last100(p)| && Last100(p)[i] == q[h].hash
    ensures WindowStart(p) + i == h && h < |p|
    ensures forall k :: 0 <= k <= h ==> q[k].hash == p[k].hash
  {
    hide Sound;
    Last100At(p, i);
    SharedPrefix(c, q, p, h, WindowStart(p) + i);
  }

  /** Some block of ours is mentioned in the list. */
  ghost predicate Meets(blocks: seq<Block>, incoming: seq<string>) {
    exists i :: 0 <= i < |blocks| && blocks[i].hash in incoming
  }

  lemma {:induction false} MeetsIs(blocks: seq<Block>, incoming: seq<string>)
    ensures Meets(blocks, incoming) <==> AncestorIndex(blocks, incoming).Some?
  {
  }

  /** Where the common ancestor is: at one height in both chains, below which they agree,
      and right above which the missing part begins. */
  lemma {:induction false} AncestorOfHonest(c: Crypto, q: seq<Block>, p: seq<Block>)
    requires HeaderHashesFaithful(c) && Sound(c, q) && Sound(c, p)
    requires AncestorIndex(q, Last100(p)).Some?
    ensures var h := AncestorIndex(q, Last100(p)).value;
      && WindowStart(p) <= h < |p|
      && MissingFrom(Last100(p), q[h].hash) == h + 1 - WindowStart(p)
      && (forall k :: 0 <= k <= h ==> q[k].hash == p[k].hash)
  {
    hide Sound, Last100, AncestorIndex, MissingFrom;
    var incoming := Last100(p);
    var h := AncestorIndex(q, incoming).value;
    var i :| 0 <= i < |incoming| && incoming[i] == q[h].hash;
    ListedAtOwnHeight(c, q, p, h, i);
    var m := MissingFrom(incoming, q[h].hash);
    assert m > 0;
    ListedAtOwnHeight(c, q, p, h, m - 1);
  }

  /** The blocks fetched from an honest peer are the missing headers of its chain. */
  lemma {:induction false} FetchedFromHonest(c: Crypto, q: seq<Block>, p: seq<Block>, request: Oracle)
    requires HeaderHashesFaithful(c) && Sound(c, q) && Sound(c, p)
    requires AncestorIndex(q, Last100(p)).Some? && Serves(c, Last100(p), request)
    ensures var h := AncestorIndex(q, Last100(p)).value; var fetched := MissingBlocks(q, Last100(p), request);
      && h < |p|
      && |fetched| == |p| - h - 1
      && forall i :: 0 <= i < |fetched| ==> Copies(c, fetched[i], p[h + 1 + i])
  {
    hide VerifyBlock, Last100, AncestorIndex, MissingFrom;
    AncestorOfHonest(c, q, p);
    var incoming := Last100(p);
    Last100Length(p);
    var h := AncestorIndex(q, incoming).value;
    var k := h + 1 - WindowStart(p);
    var fetched := MissingBlocks(q, incoming, request);
    forall i | 0 <= i < |fetched| ensures Copies(c, fetched[i], p[h + 1 + i]) {
      Last100At(p, k + i);
      assert fetched[i] == request(k + i, incoming[k + i]);
      SameHashSameHeader(c, p[h + 1 + i], p[h + 1 + i]);
      SameHashSameHeader(c, fetched[i].value, p[h + 1 + i]);
    }
  }

  /** The answer is a verified block with the header and hash of `b`. */
  predicate Copies(c: Crypto, answer: Option<Block>, b: Block) {
    answer.Some? && VerifyBlock(c, answer.value) && answer.value.header == b.header && answer.value.hash == b.hash
  }

  /** Copies of consecutive blocks of a linked chain pass validation. */
  lemma {:induction false} CopiesValidate(c: Crypto, fetched: seq<Option<Block>>, p: seq<Block>, h: nat)
    requires Linked(p) && h < |p| && |fetched| == |p| - h - 1
    requires forall i :: 0 <= i < |fetched| ==> Copies(c, fetched[i], p[h + 1 + i])
    ensures Validate(c, fetched, |fetched|).AllValid?
  {
    hide VerifyBlock;
    forall i | 0 <= i < |fetched| ensures FetchedOk(c, fetched, i) {
      assert Copies(c, fetched[i], p[h + 1 + i]);
      if i > 0 {
        assert Copies(c, fetched[i - 1], p[h + i]);
      }
    }
    ValidateIs(c, fetched, |fetched|);
  }

  /** Fork adoption converges to the peer's chain. Against an honest peer HandleFork adopts
      exactly when the peer's window reaches a common ancestor and the peer can show more
      hashes; then our chain becomes the peer's, hash for hash, and strictly longer than it
      was. Otherwise it stays, and the only failure is a missing ancestor. */
  lemma ForkConverges(c: Crypto, q: seq<Block>, p: seq<Block>, request: Oracle)
    requires HeaderHashesFaithful(c) && Sound(c, q) && Sound(c, p)
    requires Serves(c, Last100(p), request)
    ensures var r := HandleFork(c, q, Last100(p), request);
      && r.outcome in {NoAncestor, OwnKept, Adopted}
      && (r.outcome == NoAncestor <==> !Meets(q, Last100(p)))
      && (r.outcome == Adopted <==> Meets(q, Last100(p)) && Min(100, |p|) > Min(100, |q|))
      && (r.outcome == Adopted ==> HashesOf(r.blocks) == HashesOf(p) && |r.blocks| > |q| && Sound(c, r.blocks))
      && (r.outcome != Adopted ==> r.blocks == q)
  {
    hide VerifyBlock, Sound, Meets;
    MeetsIs(q, Last100(p));
    Last100Length(p);
    if Meets(q, Last100(p)) && Min(100, |p|) > Min(100, |q|) {
      ForkAdopts(c, q, p, request);
    }
  }

  lemma ForkAdopts(c: Crypto, q: seq<Block>, p: seq<Block>, request: Oracle)
    requires HeaderHashesFaithful(c) && Sound(c, q) && Sound(c, p)
    requires Meets(q, Last100(p)) && Serves(c, Last100(p), request)
    requires Min(100, |p|) > Min(100, |q|)
    ensures var r := HandleFork(c, q, Last100(p), request);
      r.outcome == Adopted && HashesOf(r.blocks) == HashesOf(p) && |r.blocks| > |q| && Sound(c, r.blocks)
  {
    hide VerifyBlock, Last100, AncestorIndex, MissingBlocks, Validate, Values, LastIndexOf;
    hide Sound, HashesOf, Meets, HandleFork;
    var incoming := Last100(p);
    MeetsIs(q, incoming);
    Last100Length(p);
    var h := AncestorIndex(q, incoming).value;
    var fetched := MissingBlocks(q, incoming, request);
    AncestorOfHonest(c, q, p);
    FetchedFromHonest(c, q, p, request);
    SoundIsLinked(c, p);
    CopiesValidate(c, fetched, p, h);
    ValidFetch(c, fetched);
    var missing := Values(fetched);
    assert missing != [] && missing[0].header == p[h + 1].header by {
      assert Copies(c, fetched[0], p[h + 1]);
    }
    ParentIsAncestor(c, q, p, h);
    forall i | 0 <= i < |missing| ensures Copies(c, Some(missing[i]), p[h + 1 + i]) {
      assert Copies(c, fetched[i], p[h + 1 + i]);
    }
    SpliceIsPeers(c, q, p, h, missing);
    ReplacesFrom(c, q, incoming, request, h);
  }

  /** HandleFork, when the list is long enough, the fetched blocks pass validation, and the
      parent of the first is block `h`. */
  lemma {:induction false} ReplacesFrom(c: Crypto, q: seq<Block>, incoming: seq<string>, request: Oracle, h: nat)
    requires AncestorIndex(q, incoming).Some? && |incoming| > Min(100, |q|) && h < |q|
    requires var fetched := MissingBlocks(q, incoming, request);
      && Validate(c, fetched, |fetched|).AllValid? && Values(fetched) != []
      && LastIndexOf(q, Values(fetched)[0].header.previousHash) == Some(h)
    ensures HandleFork(c, q, incoming, request)
      == ForkResult(Adopted, q[..h + 1] + Values(MissingBlocks(q, incoming, request)))
  {
    hide VerifyBlock, AncestorIndex, MissingBlocks, Validate, Values, LastIndexOf;
  }

  lemma SoundIsLinked(c: Crypto, p: seq<Block>)
    requires Sound(c, p)
    ensures Linked(p)
  {
  }

  /** Our part up to the ancestor, followed by copies of what the peer has above it. */
  lemma SpliceIsPeers(c: Crypto, q: seq<Block>, p: seq<Block>, h: nat, missing: seq<Block>)
    requires Sound(c, q) && Sound(c, p)
    requires h < |q| && h < |p| && |missing| == |p| - h - 1
    requires forall k :: 0 <= k <= h ==> q[k].hash == p[k].hash
    requires forall i :: 0 <= i < |missing| ==> Copies(c, Some(missing[i]), p[h + 1 + i])
    ensures Sound(c, q[..h + 1] + missing)
    ensures HashesOf(q[..h + 1] + missing) == HashesOf(p)
  {
  }

  /** The highest block of `q` with the ancestor's hash is the ancestor. */
  lemma {:induction false} ParentIsAncestor(c: Crypto, q: seq<Block>, p: seq<Block>, h: nat)
    requires HeaderHashesFaithful(c) && Sound(c, q) && Sound(c, p)
    requires h < |p| && h < |q| && q[h].hash == p[h].hash
    ensures LastIndexOf(q, p[h].hash) == Some(h)
  {
  }

  /** Sound chains with the same hashes have the same headers above genesis. */
  lemma SameHashesSameHeaders(c: Crypto, r: seq<Block>, p: seq<Block>, i: nat)
    requires HeaderHashesFaithful(c) && Sound(c, r) && Sound(c, p) && HashesOf(r) == HashesOf(p)
    requires 1 <= i < |p|
    ensures |r| == |p| && r[i].header == p[i].header
  {
  }

  /** Adopting an honest peer's chain adopts its difficulties, right or wrong: afterwards each
      of our blocks carries the difficulty that was due exactly when each of the peer's does,
      since nothing in HandleFork checks it. */
  lemma AdoptionCarriesDifficulties(c: Crypto, q: seq<Block>, p: seq<Block>, request: Oracle)
    requires HeaderHashesFaithful(c) && Sound(c, q) && Sound(c, p)
    requires Serves(c, Last100(p), request)
    ensures var r := HandleFork(c, q, Last100(p), request);
      r.outcome == Adopted ==> (DifficultiesMatch(c, r.blocks) <==> DifficultiesMatch(c, p))
  {
    hide VerifyBlock, DifficultyAt, DifficultiesMatch, Sound, HandleFork;
    ForkConverges(c, q, p, request);
    if HandleFork(c, q, Last100(p), request).outcome == Adopted {
      SameHashesSameDifficulties(c, HandleFork(c, q, Last100(p), request).blocks, p);
    }
  }

  /** Self-consistency is a matter of the headers, so of the hashes. */
  lemma SameHashesSameDifficulties(c: Crypto, r: seq<Block>, p: seq<Block>)
    requires HeaderHashesFaithful(c) && Sound(c, r) && Sound(c, p) && HashesOf(r) == HashesOf(p)
    ensures DifficultiesMatch(c, r) <==> DifficultiesMatch(c, p)
  {
    hide VerifyBlock, DifficultyAt, Sound;
    assert |r| == |HashesOf(r)| == |HashesOf(p)| == |p|;
    forall k | 1 <= k < |p| ensures r[k].header == p[k].header {
      SameHashesSameHeaders(c, r, p, k);
    }
    forall i | 1 <= i < |p| ensures DifficultyAt(c, r, i) == DifficultyAt(c, p, i) {
      DifficultyByHeaders(c, r, p, i);
    }
    if DifficultiesMatch(c, r) {
      forall i | 1 <= i < |p| ensures DifficultyAt(c, p, i) == Some(p[i].header.difficulty) {
        assert DifficultyAt(c, r, i) == Some(r[i].header.difficulty);
      }
    }
  }
}
