/** Flooding a peer graph: which nodes one submitted transaction reaches, and how many
    messages that takes. Nodes are named by their addresses. */
module Flooding {

  type Graph = map<string, seq<string>>

  /** A walk along peer links that stays inside `among`. */
  ghost predicate Walk(g: Graph, among: set<string>, p: seq<string>) {
    && p != []
    && (forall i :: 0 <= i < |p| ==> p[i] in among && p[i] in g)
    && (forall i :: 0 <= i < |p| - 1 ==> p[i + 1] in g[p[i]])
  }

  ghost predicate Reaches(g: Graph, among: set<string>, a: string, b: string) {
    exists p :: Walk(g, among, p) && p[0] == a && p[|p| - 1] == b
  }

  /** Nodes of the graph that one of `nodes` lists as a peer are all in `end`. */
  ghost predicate Closed(g: Graph, nodes: set<string>, end: set<string>) {
    forall b, q :: b in nodes && b in g && q in g[b] && q in g ==> q in end
  }

  /** A submission to `a` took the set of holders from `start` to `end`. */
  ghost predicate Flooded(g: Graph, start: set<string>, a: string, end: set<string>) {
    && a in g && start <= end <= g.Keys
    && (a in start ==> end == start)
    && (a !in start ==>
          && a in end
          && (forall b :: b in end - start ==> Reaches(g, g.Keys - start, a, b))
          && Closed(g, end - start, end))
  }

  /** A holder `a` has passed it to its first `n` peers, taking the holders from `start` to
      `end`. */
  ghost predicate Spread(g: Graph, start: set<string>, a: string, n: nat, end: set<string>) {
    && a in g && a in start && start <= end <= g.Keys && n <= |g[a]|
    && (forall i :: 0 <= i < n && g[a][i] in g ==> g[a][i] in end)
    && (forall b :: b in end - start ==> Reaches(g, g.Keys - start + {a}, a, b))
    && Closed(g, end - start, end)
  }

  lemma WalkWider(g: Graph, among: set<string>, wider: set<string>, a: string, b: string)
    requires Reaches(g, among, a, b) && among <= wider
    ensures Reaches(g, wider, a, b)
  {
  }

  lemma WalkPrepend(g: Graph, among: set<string>, a: string, p: string, b: string)
    requires Reaches(g, among, p, b) && a in among && a in g && p in g[a]
    ensures Reaches(g, among, a, b)
  {
    var w :| Walk(g, among, w) && w[0] == p && w[|w| - 1] == b;
    var longer := [a] + w;
    forall i | 0 <= i < |longer| - 1 ensures longer[i + 1] in g[longer[i]] {
    }
    assert Walk(g, among, longer);
  }

  /** One more peer has been called. */
  lemma SpreadStep(g: Graph, start: set<string>, a: string, n: nat, now: set<string>,
        end: set<string>)
    requires Spread(g, start, a, n, now) && n < |g[a]| && g[a][n] in g
    requires Flooded(g, now, g[a][n], end)
    ensures Spread(g, start, a, n + 1, end)
  {
    hide Reaches;
    var p := g[a][n];
    forall b | b in end - start ensures Reaches(g, g.Keys - start + {a}, a, b) {
      if b !in now {
        WalkWider(g, g.Keys - now, g.Keys - start + {a}, p, b);
        WalkPrepend(g, g.Keys - start + {a}, a, p, b);
      }
    }
  }

  /** An address nobody answers at changes nothing. */
  lemma SpreadSkip(g: Graph, start: set<string>, a: string, n: nat, now: set<string>)
    requires Spread(g, start, a, n, now) && n < |g[a]| && g[a][n] !in g
    ensures Spread(g, start, a, n + 1, now)
  {
  }

  /** When `a` took it in first and then passed it to all its peers, that is a flood from `a`. */
  lemma SpreadIsFlood(g: Graph, start: set<string>, a: string, end: set<string>)
    requires a in g && a !in start && Spread(g, start + {a}, a, |g[a]|, end)
    ensures Flooded(g, start, a, end)
  {
    hide Reaches;
    assert g.Keys - (start + {a}) + {a} == g.Keys - start by {
      assert start <= end;
    }
    assert Reaches(g, g.Keys - start, a, a) by {
      assert Walk(g, g.Keys - start, [a]);
      ReachesBy(g, g.Keys - start, [a]);
    }
    forall q | q in g[a] && q in g ensures q in end {
      var i :| 0 <= i < |g[a]| && g[a][i] == q;
    }
  }

  lemma ReachesBy(g: Graph, among: set<string>, p: seq<string>)
    requires Walk(g, among, p)
    ensures Reaches(g, among, p[0], p[|p| - 1])
  {
  }

  lemma {:induction false} WalkStaysIn(g: Graph, start: set<string>, a: string, end: set<string>, p: seq<string>,
        i: nat)
    requires Flooded(g, start, a, end) && a !in start
    requires Walk(g, g.Keys - start, p) && p[0] == a && i < |p|
    ensures p[i] in end - start
  {
    hide Reaches;
    if i > 0 {
      WalkStaysIn(g, start, a, end, p, i - 1);
    }
  }

  /** A flood reaches exactly the nodes connected to where it started through nodes that
      lacked the transaction. */
  lemma FloodIsReachability(g: Graph, start: set<string>, a: string, end: set<string>)
    requires Flooded(g, start, a, end) && a !in start
    ensures end == start + set b | b in g && Reaches(g, g.Keys - start, a, b)
  {
    forall b | b in g && Reaches(g, g.Keys - start, a, b) ensures b in end {
      var p :| Walk(g, g.Keys - start, p) && p[0] == a && p[|p| - 1] == b;
      WalkStaysIn(g, start, a, end, p, |p| - 1);
    }
  }

  /** Two graphs that differ only in the order in which nodes list their peers. */
  ghost predicate SamePeers(g: Graph, h: Graph) {
    && g.Keys == h.Keys
    && forall a, q :: a in g ==> (q in g[a] <==> q in h[a])
  }

  lemma ReachesSamePeers(g: Graph, h: Graph, among: set<string>, a: string, b: string)
    requires SamePeers(g, h) && Reaches(g, among, a, b)
    ensures Reaches(h, among, a, b)
  {
  }

  /** The outcome does not depend on the order in which peers are called. */
  lemma FloodOrderIndependence(g: Graph, h: Graph, start: set<string>, a: string, e1: set<string>,
        e2: set<string>)
    requires SamePeers(g, h)
    requires Flooded(g, start, a, e1) && Flooded(h, start, a, e2)
    ensures e1 == e2
  {
    hide Reaches;
    if a !in start {
      FloodIsReachability(g, start, a, e1);
      FloodIsReachability(h, start, a, e2);
      forall b ensures Reaches(g, g.Keys - start, a, b) <==> Reaches(h, h.Keys - start, a, b) {
        if Reaches(g, g.Keys - start, a, b) { ReachesSamePeers(g, h, g.Keys - start, a, b); }
        if Reaches(h, g.Keys - start, a, b) { ReachesSamePeers(h, g, g.Keys - start, a, b); }
      }
    }
  }

  // --- Messages ----------------------------------------------------------------

  /** Messages as (sender, receiver). */
  type Log = multiset<(string, string)>

  /** How many messages node `x` has sent to `y`, if the nodes in `full` have called each of
      their peers once and `a` its first `n`. */
  ghost function Calls(g: Graph, full: set<string>, a: string, n: nat, x: string, y: string): nat
    requires full <= g.Keys && a in g && n <= |g[a]|
  {
    (if x in full then multiset(g[x])[y] else 0) + (if x == a then multiset(g[a][..n])[y] else 0)
  }

  ghost predicate Logged(g: Graph, log: Log, full: set<string>, a: string, n: nat) {
    && full <= g.Keys && a in g && n <= |g[a]|
    && forall x, y :: log[(x, y)] == Calls(g, full, a, n, x, y)
  }

  /** The log after one more call, which itself led to the messages `more` of the nodes in
      `others`. */
  lemma LoggedStep(g: Graph, log: Log, full: set<string>, a: string, n: nat, more: Log,
        others: set<string>, p: string)
    requires Logged(g, log, full, a, n) && n < |g[a]| && p == g[a][n]
    requires Logged(g, more, others, a, 0) && full !! others
    ensures Logged(g, log + multiset{(a, p)} + more, full + others, a, n + 1)
  {
    var total := log + multiset{(a, p)} + more;
    assert g[a][..n + 1] == g[a][..n] + [p];
    forall x, y ensures total[(x, y)] == Calls(g, full + others, a, n + 1, x, y) {
      assert log[(x, y)] == Calls(g, full, a, n, x, y);
      assert more[(x, y)] == Calls(g, others, a, 0, x, y);
    }
  }

  /** When `a` has called all its peers it counts as one of the full ones. */
  lemma LoggedAll(g: Graph, log: Log, full: set<string>, a: string, b: string)
    requires a in g && Logged(g, log, full, a, |g[a]|) && a !in full && b in g
    ensures Logged(g, log, full + {a}, b, 0)
  {
    assert g[a][..|g[a]|] == g[a];
    forall x, y ensures log[(x, y)] == Calls(g, full + {a}, b, 0, x, y) {
      assert log[(x, y)] == Calls(g, full, a, |g[a]|, x, y);
    }
  }

  lemma LoggedFrom(g: Graph, log: Log, full: set<string>, a: string, b: string)
    requires Logged(g, log, full, a, 0) && b in g
    ensures Logged(g, log, full, b, 0)
  {
  }
}
