/** Walks in a weighted graph given by adjacency lists: the independent definition of
    distance that the latency graph's shortest-path loop is proved against. */
module Walks {
  import opened Sequences

  /** C++ INT_MAX: the value a distance holds for a vertex not reached so far. */
  const INT_MAX: int := 0x7fff_ffff

  /** An adjacency entry: the neighbour and the latency to it. */
  datatype Edge = Edge(to: int, weight: int)

  type Adjacency = seq<seq<Edge>>

  ghost predicate InRange(adj: Adjacency) {
    forall u, i :: 0 <= u < |adj| && 0 <= i < |adj[u]| ==> 0 <= adj[u][i].to < |adj|
  }

  /** Neighbours in range, and no latency negative. */
  ghost predicate WellFormed(adj: Adjacency) {
    forall u, i :: 0 <= u < |adj| && 0 <= i < |adj[u]| ==>
      0 <= adj[u][i].to < |adj| && 0 <= adj[u][i].weight
  }

  /** Every edge is present in both directions with the same weight. */
  ghost predicate Symmetric(adj: Adjacency)
    requires InRange(adj)
  {
    forall u, i :: 0 <= u < |adj| && 0 <= i < |adj[u]| ==>
      Edge(u, adj[u][i].weight) in adj[adj[u][i].to]
  }

  /** The vertex reached by following the edges p from u. */
  function End(u: int, p: seq<Edge>): int {
    if p == [] then u else p[|p| - 1].to
  }

  function Weight(p: seq<Edge>): int {
    if p == [] then 0 else Weight(p[..|p| - 1]) + p[|p| - 1].weight
  }

  function Vertices(p: seq<Edge>): (r: seq<int>)
    ensures |r| == |p|
    ensures forall i :: 0 <= i < |p| ==> r[i] == p[i].to
  {
    seq(|p|, i requires 0 <= i < |p| => p[i].to)
  }

  ghost predicate IsWalk(adj: Adjacency, u: int, p: seq<Edge>) {
    if p == [] then 0 <= u < |adj|
    else
      && IsWalk(adj, u, p[..|p| - 1])
      && 0 <= End(u, p[..|p| - 1]) < |adj|
      && p[|p| - 1] in adj[End(u, p[..|p| - 1])]
  }

  /** No vertex is visited twice, counting the start. */
  ghost predicate Simple(u: int, p: seq<Edge>) {
    NoRepeats([u] + Vertices(p))
  }

  ghost predicate Reachable(adj: Adjacency, u: int, v: int) {
    exists p :: IsWalk(adj, u, p) && End(u, p) == v
  }

  /** d is the least weight of any walk from u to v, and some walk attains it. */
  ghost predicate IsDistance(adj: Adjacency, u: int, v: int, d: int) {
    && (exists p :: IsWalk(adj, u, p) && End(u, p) == v && Weight(p) == d)
    && (forall p :: IsWalk(adj, u, p) && End(u, p) == v ==> d <= Weight(p))
  }

  function TotalDegree(adj: Adjacency): nat {
    if adj == [] then 0 else TotalDegree(adj[..|adj| - 1]) + |adj[|adj| - 1]|
  }

  // ---------- elementary facts about walks ----------

  lemma {:induction false} WalkEnd(adj: Adjacency, u: int, p: seq<Edge>)
    requires WellFormed(adj) && IsWalk(adj, u, p)
    ensures 0 <= u < |adj| && 0 <= End(u, p) < |adj| && 0 <= Weight(p)
    ensures forall i :: 0 <= i < |p| ==> 0 <= p[i].to < |adj| && 0 <= p[i].weight
  {
    if p != [] {
      WalkEnd(adj, u, p[..|p| - 1]);
      var e := p[|p| - 1];
      var i :| 0 <= i < |adj[End(u, p[..|p| - 1])]| && adj[End(u, p[..|p| - 1])][i] == e;
      assert forall k :: 0 <= k < |p| - 1 ==> p[k] == p[..|p| - 1][k];
    }
  }

  lemma Extend(adj: Adjacency, u: int, p: seq<Edge>, e: Edge)
    requires WellFormed(adj) && IsWalk(adj, u, p)
    requires 0 <= End(u, p) < |adj| && e in adj[End(u, p)]
    ensures IsWalk(adj, u, p + [e]) && End(u, p + [e]) == e.to
    ensures Weight(p + [e]) == Weight(p) + e.weight
    ensures Vertices(p + [e]) == Vertices(p) + [e.to]
  {
    assert (p + [e])[..|p|] == p;
  }

  lemma {:induction false} Concat(adj: Adjacency, u: int, p: seq<Edge>, q: seq<Edge>)
    requires WellFormed(adj) && IsWalk(adj, u, p) && IsWalk(adj, End(u, p), q)
    ensures IsWalk(adj, u, p + q) && End(u, p + q) == End(End(u, p), q)
    ensures Weight(p + q) == Weight(p) + Weight(q)
  {
    if q == [] {
      assert p + q == p;
    } else {
      Concat(adj, u, p, q[..|q| - 1]);
      assert (p + q)[..|p + q| - 1] == p + q[..|q| - 1];
    }
  }

  lemma SliceBothEnds(p: seq<Edge>, k: nat)
    requires k < |p|
    ensures p[k..][..|p[k..]| - 1] == p[..|p| - 1][k..] && p[k..][|p[k..]| - 1] == p[|p| - 1]
  {
  }

  /** Any cut of a walk gives two walks whose weights add up. */
  lemma {:induction false} Split(adj: Adjacency, u: int, p: seq<Edge>, k: nat)
    requires WellFormed(adj) && IsWalk(adj, u, p) && k <= |p|
    ensures IsWalk(adj, u, p[..k]) && IsWalk(adj, End(u, p[..k]), p[k..])
    ensures End(End(u, p[..k]), p[k..]) == End(u, p)
    ensures Weight(p) == Weight(p[..k]) + Weight(p[k..])
  {
    WalkEnd(adj, u, p);
    if k == |p| {
      assert p[..k] == p && p[k..] == [];
    } else {
      var b := p[..|p| - 1];
      Split(adj, u, b, k);
      assert b[..k] == p[..k];
      SliceBothEnds(p, k);
    }
  }

  /** A walk keeps being a walk when adjacency lists only gain entries. */
  lemma {:induction false} WalkMonotone(adj: Adjacency, adj': Adjacency, u: int, p: seq<Edge>)
    requires |adj| == |adj'|
    requires forall x :: 0 <= x < |adj| ==> adj[x] <= adj'[x]
    requires IsWalk(adj, u, p)
    ensures IsWalk(adj', u, p)
  {
    if p != [] {
      WalkMonotone(adj, adj', u, p[..|p| - 1]);
      var x := End(u, p[..|p| - 1]);
      var i :| 0 <= i < |adj[x]| && adj[x][i] == p[|p| - 1];
      assert adj'[x][i] == p[|p| - 1];
    }
  }

  /** Distances are unique. */
  lemma DistanceUnique(adj: Adjacency, u: int, v: int, d: int, d': int)
    requires IsDistance(adj, u, v, d) && IsDistance(adj, u, v, d')
    ensures d == d'
  {
    var p :| IsWalk(adj, u, p) && End(u, p) == v && Weight(p) == d;
    var q :| IsWalk(adj, u, q) && End(u, q) == v && Weight(q) == d';
    assert d <= Weight(q) && d' <= Weight(p);
  }

  // ---------- symmetry ----------

  lemma {:induction false} ReverseWalk(adj: Adjacency, u: int, p: seq<Edge>) returns (q: seq<Edge>)
    requires WellFormed(adj) && Symmetric(adj) && IsWalk(adj, u, p)
    ensures IsWalk(adj, End(u, p), q) && End(End(u, p), q) == u && Weight(q) == Weight(p)
  {
    if p == [] {
      q := [];
    } else {
      var b := p[..|p| - 1];
      var x, e := End(u, b), p[|p| - 1];
      WalkEnd(adj, u, p);
      var r := ReverseWalk(adj, u, b);
      var i :| 0 <= i < |adj[x]| && adj[x][i] == e;
      var back := Edge(x, e.weight);
      assert back in adj[e.to];
      Extend(adj, e.to, [], back);
      assert [] + [back] == [back];
      Concat(adj, e.to, [back], r);
      q := [back] + r;
    }
  }

  /** With both directions of every edge present, the s-t and the t-s distance agree. */
  lemma DistanceSymmetric(adj: Adjacency, s: int, t: int, d: int)
    requires WellFormed(adj) && Symmetric(adj) && IsDistance(adj, s, t, d)
    ensures IsDistance(adj, t, s, d)
  {
    var p :| IsWalk(adj, s, p) && End(s, p) == t && Weight(p) == d;
    var q := ReverseWalk(adj, s, p);
    forall r | IsWalk(adj, t, r) && End(t, r) == s
      ensures d <= Weight(r)
    {
      var r' := ReverseWalk(adj, t, r);
    }
  }

  // ---------- simple walks are short ----------

  lemma {:induction false} Pigeonhole(s: seq<int>, n: nat)
    requires NoRepeats(s)
    requires forall i :: 0 <= i < |s| ==> 0 <= s[i] < n
    ensures |s| <= n
  {
    if s != [] {
      assert 0 <= s[0] < n;
      if k :| 0 <= k < |s| && s[k] == n - 1 {
        Pigeonhole(s[..k] + s[k + 1..], n - 1);
      } else {
        Pigeonhole(s, n - 1);
      }
    }
  }

  lemma SimpleIsShort(adj: Adjacency, u: int, p: seq<Edge>)
    requires WellFormed(adj) && IsWalk(adj, u, p) && Simple(u, p)
    ensures |p| < |adj|
  {
    WalkEnd(adj, u, p);
    Pigeonhole([u] + Vertices(p), |adj|);
  }

  /** Cutting loops out of a walk leaves a simple walk that is no heavier. */
  lemma {:induction false} Simplify(adj: Adjacency, u: int, p: seq<Edge>) returns (q: seq<Edge>)
    requires WellFormed(adj) && IsWalk(adj, u, p)
    ensures IsWalk(adj, u, q) && End(u, q) == End(u, p) && Simple(u, q) && Weight(q) <= Weight(p)
    decreases |p|
  {
    var vs := [u] + Vertices(p);
    if i, j :| 0 <= i < j < |vs| && vs[i] == vs[j] {
      assert End(u, p[..i]) == vs[i] && End(u, p[..j]) == vs[j];
      Split(adj, u, p, i);
      Split(adj, u, p, j);
      Split(adj, u, p[..j], i);
      assert p[..j][..i] == p[..i];
      WalkEnd(adj, End(u, p[..i]), p[..j][i..]);
      Concat(adj, u, p[..i], p[j..]);
      q := Simplify(adj, u, p[..i] + p[j..]);
    } else {
      q := p;
    }
  }

  lemma {:induction false} WeightBound(adj: Adjacency, u: int, p: seq<Edge>, w: nat)
    requires WellFormed(adj) && IsWalk(adj, u, p)
    requires forall x, i :: 0 <= x < |adj| && 0 <= i < |adj[x]| ==> adj[x][i].weight <= w
    ensures Weight(p) <= |p| * w
  {
    if p != [] {
      var b := p[..|p| - 1];
      WeightBound(adj, u, b, w);
      WalkEnd(adj, u, b);
      var i :| 0 <= i < |adj[End(u, b)]| && adj[End(u, b)][i] == p[|p| - 1];
      assert |p| * w == |b| * w + w;
    }
  }

  // ---------- when the int arithmetic of a run is exact ----------

  /** Some walk from src to v is lighter than INT_MAX. */
  ghost predicate Near(adj: Adjacency, src: int, v: int) {
    exists p :: IsWalk(adj, src, p) && End(src, p) == v && Weight(p) < INT_MAX
  }

  /** A vertex nearer than INT_MAX has an edge that takes the sum beyond INT_MAX. */
  ghost predicate Overflows(adj: Adjacency, src: int) {
    exists u, d, i :: OverflowsAt(adj, src, u, d, i)
  }

  ghost predicate OverflowsAt(adj: Adjacency, src: int, u: int, d: int, i: int) {
    0 <= u < |adj| && 0 <= i < |adj[u]| && IsDistance(adj, src, u, d) && d < INT_MAX && d + adj[u][i].weight > INT_MAX
  }

  /** Whatever can be reached has a distance. */
  lemma {:induction false} DistanceExists(adj: Adjacency, src: int, v: int, p: seq<Edge>) returns (d: int)
    requires WellFormed(adj) && IsWalk(adj, src, p) && End(src, p) == v
    ensures IsDistance(adj, src, v, d)
    decreases if Weight(p) < 0 then 0 else Weight(p)
  {
    WalkEnd(adj, src, p);
    if q :| IsWalk(adj, src, q) && End(src, q) == v && Weight(q) < Weight(p) {
      WalkEnd(adj, src, q);
      d := DistanceExists(adj, src, v, q);
    } else {
      d := Weight(p);
    }
  }

  lemma {:induction false} DistanceBound(adj: Adjacency, src: int, u: int, d: int, w: nat)
    requires WellFormed(adj) && IsDistance(adj, src, u, d)
    requires forall x, i :: 0 <= x < |adj| && 0 <= i < |adj[x]| ==> adj[x][i].weight <= w
    ensures d <= |adj| * w - w
  {
    var p :| IsWalk(adj, src, p) && End(src, p) == u && Weight(p) == d;
    var q := Simplify(adj, src, p);
    SimpleIsShort(adj, src, q);
    WeightBound(adj, src, q, w);
    assert d <= Weight(q);
    assert |q| * w <= (|adj| - 1) * w == |adj| * w - w by { MulMonotone(|q|, |adj| - 1, w); }
  }

  /** V times the largest latency within INT_MAX is enough for every source: no sum overflows, and
      no distance reaches INT_MAX. */
  lemma {:induction false} WeightBoundSuffices(adj: Adjacency, src: int, w: nat)
    requires WellFormed(adj)
    requires forall x, i :: 0 <= x < |adj| && 0 <= i < |adj[x]| ==> adj[x][i].weight <= w
    requires |adj| * w <= INT_MAX
    ensures !Overflows(adj, src)
    ensures forall v, d :: IsDistance(adj, src, v, d) ==> d < INT_MAX
  {
    forall v, d | IsDistance(adj, src, v, d)
      ensures d < INT_MAX && d + w <= INT_MAX
    {
      DistanceBound(adj, src, v, d, w);
    }
  }

  lemma MulMonotone(a: nat, b: nat, w: nat)
    requires a <= b
    ensures a * w <= b * w
  {
    assert b * w == a * w + (b - a) * w;
  }

  /** Two vertices joined by one edge of latency w. */
  function Pair(w: nat): Adjacency {
    [[Edge(1, w)], [Edge(0, w)]]
  }

  lemma {:induction false} PairDistance(w: nat)
    ensures WellFormed(Pair(w)) && Symmetric(Pair(w))
    ensures IsDistance(Pair(w), 0, 1, w) && IsDistance(Pair(w), 0, 0, 0)
  {
    var adj := Pair(w);
    assert adj[0][0] == Edge(1, w) && adj[1][0] == Edge(0, w);
    Extend(adj, 0, [], Edge(1, w));
    assert [] + [Edge(1, w)] == [Edge(1, w)];
    forall p: seq<Edge> | IsWalk(adj, 0, p)
      ensures 0 <= Weight(p) && (End(0, p) == 1 ==> w <= Weight(p))
    {
      WalkEnd(adj, 0, p);
      if End(0, p) == 1 {
        var b := p[..|p| - 1];
        WalkEnd(adj, 0, b);
        assert p[|p| - 1].weight == w;
      }
    }
    var stay: seq<Edge> := [];
    assert IsWalk(adj, 0, stay) && End(0, stay) == 0 && Weight(stay) == 0;
  }

  /** One factor fewer is not enough: relaxing the edge back to the source adds w once more. */
  lemma {:induction false} TightBoundOverflows()
    ensures
      var adj, w := Pair(INT_MAX - 1), INT_MAX - 1;
      WellFormed(adj) && Symmetric(adj) && (|adj| - 1) * w < INT_MAX && Overflows(adj, 0)
  {
    PairDistance(INT_MAX - 1);
    assert OverflowsAt(Pair(INT_MAX - 1), 0, 1, INT_MAX - 1, 0);
  }

  /** A vertex at distance INT_MAX overflows nothing, since it never gets into the queue and its own
      edges are not looked at; but it is taken for unreachable. */
  lemma {:induction false} FarVertexIsLost()
    ensures
      var adj := Pair(INT_MAX);
      && WellFormed(adj) && Symmetric(adj) && !Overflows(adj, 0)
      && IsDistance(adj, 0, 1, INT_MAX) && !Near(adj, 0, 1) && adj[1][0].weight + INT_MAX > INT_MAX
  {
    var adj := Pair(INT_MAX);
    PairDistance(INT_MAX);
    forall u, d, i | OverflowsAt(adj, 0, u, d, i)
      ensures false
    {
      DistanceUnique(adj, 0, u, d, if u == 0 then 0 else INT_MAX);
    }
  }
}
