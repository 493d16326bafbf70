/** Counting invalid blocks and blacklisting, under interleaved handlers. */
module Peers {

  datatype PeerState = PeerState(blacklisted: map<string, bool>, invalidCount: map<string, nat>)

  predicate Black(p: PeerState, address: string) {
    address in p.blacklisted && p.blacklisted[address]
  }

  function Count(p: PeerState, address: string): nat {
    if address in p.invalidCount then p.invalidCount[address] else 0
  }

  /** One atomic IncrementInvalidCount. */
  function Increment(p: PeerState, address: string): PeerState {
    var count := Count(p, address) + 1;
    PeerState(if count >= 3 then p.blacklisted[address := true] else p.blacklisted, p.invalidCount[address := count])
  }

  /** Each method runs under the manager's lock, so each is one step. */
  class PeerManager {
    /** The addresses of the peers connected to, in the order they are walked. */
    var peerClients: seq<string>
    var blacklisted: map<string, bool>
    var invalidCount: map<string, nat>

    constructor ()
      ensures State() == PeerState(map[], map[]) && peerClients == []
    {
      peerClients := [];
      blacklisted, invalidCount := map[], map[];
    }

    ghost function State(): PeerState
      reads this
    {
      PeerState(blacklisted, invalidCount)
    }

    method IsBlacklisted(address: string) returns (r: bool)
      ensures r <==> Black(State(), address)
    {
      r := address in blacklisted && blacklisted[address];
    }

    method IncrementInvalidCount(address: string)
      modifies this`blacklisted, this`invalidCount
      ensures State() == Increment(old(State()), address)
    {
      var count := if address in invalidCount then invalidCount[address] + 1 else 1;
      invalidCount := invalidCount[address := count];
      if count >= 3 {
        blacklisted := blacklisted[address := true];
      }
    }
  }

  // --- Interleaved handlers ----------------------------------------------------

  /** The peers' state and, per peer, how many handlers have passed the blacklist check and
      not yet finished. */
  datatype System = System(peers: PeerState, inFlight: map<string, nat>)

  /** A handler checks the blacklist, or finishes with a valid or an invalid block. */
  datatype Step = Check(address: string) | FinishValid(address: string) | FinishInvalid(address: string)

  const START := System(PeerState(map[], map[]), map[])

  function InFlight(s: System, address: string): nat {
    if address in s.inFlight then s.inFlight[address] else 0
  }

  /** One step; `n` is how many handlers a peer can keep in flight, and a step that is not
      possible changes nothing. */
  function Next(s: System, step: Step, n: nat): System {
    var a := step.address;
    match step
    case Check(_) =>
      if Black(s.peers, a) || InFlight(s, a) >= n then s
      else s.(inFlight := s.inFlight[a := InFlight(s, a) + 1])
    case FinishValid(_) =>
      if InFlight(s, a) == 0 then s else s.(inFlight := s.inFlight[a := InFlight(s, a) - 1])
    case FinishInvalid(_) =>
      if InFlight(s, a) == 0 then s
      else System(Increment(s.peers, a), s.inFlight[a := InFlight(s, a) - 1])
  }

  function Run(steps: seq<Step>, n: nat): System {
    if steps == [] then START else Next(Run(steps[..|steps| - 1], n), steps[|steps| - 1], n)
  }

  /** What every reachable state satisfies: handlers already past the check can still push
      the count up after the peer is blacklisted, but by no more than there are of them. */
  ghost predicate Bounded(s: System, n: nat, address: string) {
    && (Black(s.peers, address) <==> Count(s.peers, address) >= 3)
    && InFlight(s, address) <= n
    && (Black(s.peers, address) ==> Count(s.peers, address) + InFlight(s, address) <= n + 2)
  }

  lemma NextBounded(s: System, step: Step, n: nat, address: string)
    requires Bounded(s, n, address)
    ensures Bounded(Next(s, step, n), n, address)
    ensures Black(s.peers, address) ==> Black(Next(s, step, n).peers, address)
    ensures Count(s.peers, address) <= Count(Next(s, step, n).peers, address)
  {
  }

  /** In every reachable state a peer is blacklisted exactly when it has three or more
      invalid blocks, and with at most n handlers in flight it never has more than n + 2:
      so at most three when they run one at a time. */
  lemma {:induction false} BlacklistBound(steps: seq<Step>, n: nat, address: string)
    requires n >= 1
    ensures Bounded(Run(steps, n), n, address)
    ensures Black(Run(steps, n).peers, address) <==> Count(Run(steps, n).peers, address) >= 3
    ensures Count(Run(steps, n).peers, address) <= n + 2
  {
    hide Next;
    if steps != [] {
      BlacklistBound(steps[..|steps| - 1], n, address);
      NextBounded(Run(steps[..|steps| - 1], n), steps[|steps| - 1], n, address);
    }
  }

  /** Blacklisting is permanent. */
  lemma {:induction false} BlacklistIsPermanent(steps: seq<Step>, n: nat, address: string, k: nat)
    requires n >= 1 && k <= |steps| && Black(Run(steps[..k], n).peers, address)
    ensures Black(Run(steps, n).peers, address)
  {
    hide Next, Black;
    if k == |steps| {
      assert steps[..k] == steps;
    } else {
      var front := steps[..|steps| - 1];
      assert front[..k] == steps[..k];
      BlacklistIsPermanent(front, n, address, k);
      BlacklistBound(front, n, address);
      NextBounded(Run(front, n), steps[|steps| - 1], n, address);
    }
  }

  /** The schedule that reaches the bound: two bad blocks one at a time, then `n` handlers
      all past the check before `m` of them count their block. */
  function Schedule(address: string, n: nat, m: nat): seq<Step> {
    [Check(address), FinishInvalid(address), Check(address), FinishInvalid(address)]
    + seq(n, i => Check(address)) + seq(m, i => FinishInvalid(address))
  }

  lemma {:induction false} RunStep(steps: seq<Step>, step: Step, n: nat)
    ensures Run(steps + [step], n) == Next(Run(steps, n), step, n)
  {
  }

  lemma {:induction false} TwoBadBlocks(address: string, n: nat)
    requires n >= 1
    ensures var s := Run(Schedule(address, 0, 0), n);
      InFlight(s, address) == 0 && Count(s.peers, address) == 2 && !Black(s.peers, address)
  {
    hide Run;
    var check, bad := Check(address), FinishInvalid(address);
    assert Run([], n) == START by { RunNothing(n); }
    RunStep([], check, n);
    RunStep([check], bad, n);
    RunStep([check, bad], check, n);
    RunStep([check, bad, check], bad, n);
    assert [] + [check] == [check] && [check] + [bad] == [check, bad] && [check, bad] + [check] == [check, bad, check];
    assert Schedule(address, 0, 0) == [check, bad, check] + [bad];
  }

  lemma {:induction false} RunNothing(n: nat)
    ensures Run([], n) == START
  {
  }

  lemma {:induction false} ScheduleRuns(address: string, n: nat, k: nat, m: nat)
    requires 1 <= n && k <= n && m <= k && (m > 0 ==> k == n)
    ensures var s := Run(Schedule(address, k, m), n);
      InFlight(s, address) == k - m && Count(s.peers, address) == 2 + m && (Black(s.peers, address) <==> m > 0)
    decreases k + m
  {
    hide Run;
    if m > 0 {
      assert Schedule(address, k, m) == Schedule(address, k, m - 1) + [FinishInvalid(address)];
      RunStep(Schedule(address, k, m - 1), FinishInvalid(address), n);
      ScheduleRuns(address, n, k, m - 1);
    } else if k > 0 {
      assert Schedule(address, k, 0) == Schedule(address, k - 1, 0) + [Check(address)];
      RunStep(Schedule(address, k - 1, 0), Check(address), n);
      ScheduleRuns(address, n, k - 1, 0);
    } else {
      TwoBadBlocks(address, n);
    }
  }

  /** The bound is reached. */
  lemma BlacklistBoundIsTight(n: nat, address: string)
    requires n >= 1
    ensures exists steps :: Count(Run(steps, n).peers, address) == n + 2
  {
    ScheduleRuns(address, n, n, n);
  }
}
