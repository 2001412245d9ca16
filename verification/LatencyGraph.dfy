/** The latency graph of a peer: adjacency lists, the table of route rows, and the
    shortest-path loop with its lazy-deletion priority queue. */
module LatencyGraph {
  import opened Walks

  /** A queue entry: a vertex and the distance it had when it was pushed. */
  datatype Entry = Entry(vertex: int, key: int)

  /** C++ int addition where the sum is known to fit. */
  function AddInt(a: int, b: int): int
    requires -INT_MAX - 1 <= a + b <= INT_MAX
  {
    a + b
  }

  // ---------- the state of a run, as values ----------

  /** Edges of x numbered below n no longer improve anything, and their sums fit. */
  ghost predicate Relaxed(adj: Adjacency, d: seq<int>, x: int, n: int)
    requires WellFormed(adj) && |d| == |adj| && 0 <= x < |adj| && 0 <= n <= |adj[x]|
  {
    forall i :: 0 <= i < n ==> d[x] + adj[x][i].weight <= INT_MAX && d[adj[x][i].to] <= d[x] + adj[x][i].weight
  }

  ghost predicate Accounted(adj: Adjacency, d: seq<int>, pq: multiset<Entry>, settled: set<int>, x: int, n: int)
    requires WellFormed(adj) && |d| == |adj| && 0 <= x < |adj| && 0 <= n <= |adj[x]|
  {
    if x in settled then Relaxed(adj, d, x, n) else Entry(x, d[x]) in pq
  }

  /** Every reached vertex is settled with its edges relaxed, or waits in the queue under
      its current distance; of cur, only the first n edges are relaxed so far. */
  ghost predicate Frontier(adj: Adjacency, d: seq<int>, pq: multiset<Entry>, settled: set<int>, cur: int, n: int)
    requires WellFormed(adj) && |d| == |adj|
    requires 0 <= cur < |adj| ==> 0 <= n <= |adj[cur]|
  {
    forall x :: 0 <= x < |adj| && d[x] < INT_MAX ==>
      Accounted(adj, d, pq, settled, x, if x == cur then n else |adj[x]|)
  }

  /** Queue entries are never below their vertex's distance nor below the last popped key. */
  ghost predicate Keys(d: seq<int>, pq: multiset<Entry>, key: int) {
    forall e :: e in pq ==> 0 <= e.vertex < |d| && d[e.vertex] <= e.key < INT_MAX && key <= e.key
  }

  ghost predicate SettledBelow(d: seq<int>, settled: set<int>, key: int) {
    forall x :: x in settled ==> 0 <= x < |d| && d[x] <= key
  }

  /** A route from src: a simple walk lighter than INT_MAX that ends in v, or nothing. */
  ghost predicate RouteOk(adj: Adjacency, src: int, v: int, p: seq<Edge>) {
    IsWalk(adj, src, p) && Simple(src, p) && Weight(p) < INT_MAX && (p == [] || End(src, p) == v)
  }

  /** The distance of v is the weight of the route p recorded for it, and no vertex on the
      route is farther than its end. */
  ghost predicate VertexSound(adj: Adjacency, src: int, d: seq<int>, v: int, p: seq<Edge>)
    requires 0 <= v < |d|
  {
    && 0 <= d[v] <= INT_MAX && RouteOk(adj, src, v, p)
    && (d[v] < INT_MAX ==>
          && End(src, p) == v && Weight(p) == d[v]
          && forall i :: 0 <= i < |p| ==> 0 <= p[i].to < |d| && d[p[i].to] <= d[v])
  }

  ghost predicate Sound(adj: Adjacency, src: int, d: seq<int>, rt: seq<seq<Edge>>) {
    && |d| == |rt| == |adj| && 0 <= src < |adj|
    && d[src] == 0 && rt[src] == []
    && forall v :: 0 <= v < |adj| ==> VertexSound(adj, src, d, v, rt[v])
  }

  // ---------- why the loop is right ----------

  /** A walk that has left the settled vertices is at least as heavy as the least queue key. */
  lemma {:induction false} FrontierBound(adj: Adjacency, src: int, d: seq<int>, pq: multiset<Entry>,
                                         settled: set<int>, key: int, p: seq<Edge>)
    requires WellFormed(adj) && |d| == |adj| && 0 <= src < |adj| && d[src] == 0
    requires Frontier(adj, d, pq, settled, -1, 0)
    requires key <= INT_MAX && forall e :: e in pq ==> key <= e.key
    requires IsWalk(adj, src, p)
    ensures key <= Weight(p) || (0 <= End(src, p) < |adj| && End(src, p) in settled && d[End(src, p)] <= Weight(p)
            && d[End(src, p)] < INT_MAX)
  {
    if p == [] {
      assert src in settled || Entry(src, 0) in pq;
    } else {
      var b, e := p[..|p| - 1], p[|p| - 1];
      FrontierBound(adj, src, d, pq, settled, key, b);
      WalkEnd(adj, src, p);
      if key > Weight(p) {
        var x := End(src, b);
        var i :| 0 <= i < |adj[x]| && adj[x][i] == e;
        assert Accounted(adj, d, pq, settled, x, |adj[x]|) && Relaxed(adj, d, x, |adj[x]|);
        assert d[e.to] <= d[x] + e.weight <= Weight(p) < INT_MAX;
        assert Accounted(adj, d, pq, settled, e.to, |adj[e.to]|);
        assert e.to in settled;
      }
    }
  }

  /** The entry with the least key holds the distance of its vertex when that vertex was not popped before. */
  lemma {:induction false} PoppedIsFinal(adj: Adjacency, src: int, d: seq<int>, rt: seq<seq<Edge>>, pq: multiset<Entry>,
                      settled: set<int>, e: Entry)
    requires WellFormed(adj) && Sound(adj, src, d, rt)
    requires Frontier(adj, d, pq, settled, -1, 0) && Keys(d, pq, 0)
    requires e in pq && (forall f :: f in pq ==> e.key <= f.key)
    requires e.vertex !in settled
    ensures e.key == d[e.vertex] && IsDistance(adj, src, e.vertex, e.key)
  {
    var u := e.vertex;
    assert VertexSound(adj, src, d, u, rt[u]);
    assert Entry(u, d[u]) in pq;
    assert IsWalk(adj, src, rt[u]) && End(src, rt[u]) == u && Weight(rt[u]) == e.key;
    forall p | IsWalk(adj, src, p) && End(src, p) == u
      ensures e.key <= Weight(p)
    {
      FrontierBound(adj, src, d, pq, settled, e.key, p);
    }
  }

  /** With the queue empty every distance is right, and INT_MAX means that no walk is lighter. */
  lemma {:induction false} EmptyQueueIsFinal(adj: Adjacency, src: int, d: seq<int>, rt: seq<seq<Edge>>,
                                             settled: set<int>, v: int)
    requires WellFormed(adj) && Sound(adj, src, d, rt) && 0 <= v < |adj|
    requires Frontier(adj, d, multiset{}, settled, -1, 0)
    ensures d[v] != INT_MAX <==> Near(adj, src, v)
    ensures d[v] != INT_MAX ==> IsDistance(adj, src, v, d[v]) && v in settled
  {
    assert VertexSound(adj, src, d, v, rt[v]);
    forall p | IsWalk(adj, src, p) && End(src, p) == v
      ensures d[v] <= Weight(p) || INT_MAX <= Weight(p)
      ensures Weight(p) < INT_MAX ==> d[v] < INT_MAX
    {
      FrontierBound(adj, src, d, multiset{}, settled, INT_MAX, p);
    }
    if d[v] != INT_MAX {
      assert IsWalk(adj, src, rt[v]) && End(src, rt[v]) == v && Weight(rt[v]) == d[v];
      assert Accounted(adj, d, multiset{}, settled, v, |adj[v]|);
    }
  }

  /** With the queue empty every sum that could overflow was formed, and did not. */
  lemma {:induction false} EmptyQueueNoOverflow(adj: Adjacency, src: int, d: seq<int>, rt: seq<seq<Edge>>,
                                                settled: set<int>)
    requires WellFormed(adj) && Sound(adj, src, d, rt)
    requires Frontier(adj, d, multiset{}, settled, -1, 0)
    ensures !Overflows(adj, src)
  {
    forall u, x, i | 0 <= u < |adj| && 0 <= i < |adj[u]| && IsDistance(adj, src, u, x) && x < INT_MAX
      ensures x + adj[u][i].weight <= INT_MAX
    {
      EmptyQueueIsFinal(adj, src, d, rt, settled, u);
      DistanceUnique(adj, src, u, x, d[u]);
      assert Accounted(adj, d, multiset{}, settled, u, |adj[u]|) && Relaxed(adj, d, u, |adj[u]|);
    }
  }

  /** The route of u continued over an edge that improves the edge's far end is a route, and
      its row with the terminator has room for it. */
  lemma {:induction false} ExtendRoute(adj: Adjacency, src: int, d: seq<int>, rt: seq<seq<Edge>>, u: int, e: Edge)
    requires WellFormed(adj) && Sound(adj, src, d, rt)
    requires 0 <= u < |adj| && e in adj[u] && 0 <= e.to < |adj| && 0 <= e.weight && d[u] + e.weight < INT_MAX
    requires d[e.to] > d[u] + e.weight
    ensures e.to != src && e.to != u
    ensures RouteOk(adj, src, e.to, rt[u] + [e]) && End(src, rt[u] + [e]) == e.to
    ensures Weight(rt[u] + [e]) == d[u] + e.weight
    ensures |rt[u]| + 1 < |adj|
    ensures forall k :: 0 <= k < |rt[u]| ==> rt[u][k].to != e.to
  {
    var q := rt[u] + [e];
    assert VertexSound(adj, src, d, u, rt[u]) && VertexSound(adj, src, d, e.to, rt[e.to]);
    Extend(adj, src, rt[u], e);
    assert Simple(src, q) by {
      assert [src] + Vertices(q) == ([src] + Vertices(rt[u])) + [e.to];
      assert forall k :: 0 <= k < |rt[u]| ==> d[rt[u][k].to] <= d[u] && rt[u][k].to != e.to;
    }
    SimpleIsShort(adj, src, q);
  }

  /** Improving a vertex through an edge keeps the run sound. */
  lemma {:induction false} ImproveKeepsSound(adj: Adjacency, src: int, d: seq<int>, rt: seq<seq<Edge>>, u: int, e: Edge)
    requires WellFormed(adj) && Sound(adj, src, d, rt)
    requires 0 <= u < |adj| && e in adj[u] && 0 <= e.to < |adj| && 0 <= e.weight && d[u] + e.weight < INT_MAX
    requires d[e.to] > d[u] + e.weight
    ensures Sound(adj, src, d[e.to := d[u] + e.weight], rt[e.to := rt[u] + [e]])
  {
    ExtendRoute(adj, src, d, rt, u, e);
    var v := e.to;
    var d' := d[v := d[u] + e.weight];
    var rt': seq<seq<Edge>> := rt[v := rt[u] + [e]];
    forall x | 0 <= x < |adj|
      ensures VertexSound(adj, src, d', x, rt'[x])
    {
      assert VertexSound(adj, src, d, x, rt[x]);
      assert VertexSound(adj, src, d, u, rt[u]);
    }
  }

  /** Improving v keeps the frontier: v joins the queue, and nothing settled gets nearer. */
  lemma {:induction false} ImproveKeepsFrontier(adj: Adjacency, d: seq<int>, pq: multiset<Entry>, settled: set<int>,
                             key: int, u: int, i: int)
    requires WellFormed(adj) && |d| == |adj| && 0 <= u < |adj| && 0 <= i < |adj[u]|
    requires forall x :: 0 <= x < |adj| ==> 0 <= d[x] <= INT_MAX
    requires u in settled && d[u] == key && d[u] + adj[u][i].weight < INT_MAX
    requires d[adj[u][i].to] > d[u] + adj[u][i].weight
    requires Frontier(adj, d, pq, settled, u, i) && Keys(d, pq, key) && SettledBelow(d, settled, key)
    ensures
      var v, nd := adj[u][i].to, d[u] + adj[u][i].weight;
      var d', pq' := d[v := nd], pq + multiset{Entry(v, nd)};
      && v !in settled
      && Frontier(adj, d', pq', settled, u, i + 1) && Keys(d', pq', key) && SettledBelow(d', settled, key)
  {
    var v, nd := adj[u][i].to, d[u] + adj[u][i].weight;
    var d', pq' := d[v := nd], pq + multiset{Entry(v, nd)};
    assert Accounted(adj, d, pq, settled, u, i);
    forall x | 0 <= x < |adj| && d'[x] < INT_MAX
      ensures Accounted(adj, d', pq', settled, x, if x == u then i + 1 else |adj[x]|)
    {
      if x != v {
        assert Accounted(adj, d, pq, settled, x, if x == u then i else |adj[x]|);
      }
    }
  }

  lemma {:induction false} SoundRange(adj: Adjacency, src: int, d: seq<int>, rt: seq<seq<Edge>>)
    requires Sound(adj, src, d, rt)
    ensures forall x :: 0 <= x < |adj| ==> 0 <= d[x] <= INT_MAX
  {
    forall x | 0 <= x < |adj|
      ensures 0 <= d[x] <= INT_MAX
    {
      assert VertexSound(adj, src, d, x, rt[x]);
    }
  }

  // ---------- counting pushes ----------

  /** The adjacency entries of the first n vertices that belong to s. */
  ghost function DegreeOf(adj: Adjacency, s: set<int>, n: nat): nat
    requires n <= |adj|
  {
    if n == 0 then 0
    else DegreeOf(adj, s, n - 1) + if n - 1 in s then |adj[n - 1]| else 0
  }

  lemma {:induction false} DegreeOfAdd(adj: Adjacency, s: set<int>, u: int, n: nat)
    requires n <= |adj| && u !in s && 0 <= u < |adj|
    ensures DegreeOf(adj, s + {u}, n) == DegreeOf(adj, s, n) + if u < n then |adj[u]| else 0
  {
    if n > 0 {
      DegreeOfAdd(adj, s, u, n - 1);
    }
  }

  lemma {:induction false} DegreeOfBound(adj: Adjacency, s: set<int>, n: nat)
    requires n <= |adj|
    ensures DegreeOf(adj, s, n) <= TotalDegree(adj[..n])
  {
    if n > 0 {
      DegreeOfBound(adj, s, n - 1);
      assert adj[..n][..n - 1] == adj[..n - 1];
    }
  }

  lemma {:induction false} LeastEntryExists(pq: multiset<Entry>)
    requires pq != multiset{}
    ensures exists e :: e in pq && forall f :: f in pq ==> e.key <= f.key
    decreases |pq|
  {
    var e :| e in pq;
    var rest := pq - multiset{e};
    assert forall f :: f in pq <==> f == e || f in rest;
    if rest != multiset{} {
      LeastEntryExists(rest);
      var m :| m in rest && forall f :: f in rest ==> m.key <= f.key;
      if m.key < e.key {
        assert m in pq && forall f :: f in pq ==> m.key <= f.key;
      } else {
        assert e in pq && forall f :: f in pq ==> e.key <= f.key;
      }
    } else {
      assert e in pq && forall f :: f in pq ==> e.key <= f.key;
    }
  }

  // ---------- what a run promises ----------

  /** The keys come out in order, and a vertex first comes out under its final distance. */
  ghost predicate PopsInOrder(pops: seq<Entry>, d: seq<int>) {
    KeysAscend(pops) && NoneBelowFinal(pops, d) && FirstPopsFinal(pops, d)
  }

  ghost predicate KeysAscend(pops: seq<Entry>) {
    forall i, j :: 0 <= i < j < |pops| ==> pops[i].key <= pops[j].key
  }

  ghost predicate NoneBelowFinal(pops: seq<Entry>, d: seq<int>) {
    forall i :: 0 <= i < |pops| ==> 0 <= pops[i].vertex < |d| && d[pops[i].vertex] <= pops[i].key
  }

  ghost predicate FirstPopsFinal(pops: seq<Entry>, d: seq<int>)
    requires NoneBelowFinal(pops, d)
  {
    forall i :: 0 <= i < |pops| && FirstPop(pops, i) ==> d[pops[i].vertex] == pops[i].key
  }

  ghost predicate FirstPop(pops: seq<Entry>, i: int)
    requires 0 <= i < |pops|
  {
    forall j :: 0 <= j < i ==> pops[j].vertex != pops[i].vertex
  }

  /** The popped vertices are the settled ones, and no key was above key. */
  ghost predicate PoppedBelow(pops: seq<Entry>, settled: set<int>, key: int) {
    && (forall i :: 0 <= i < |pops| ==> pops[i].vertex in settled && pops[i].key <= key)
    && (forall x :: x in settled ==> exists i :: 0 <= i < |pops| && pops[i].vertex == x)
  }

  /** The distances of the vertices in s did not change. */
  ghost predicate SameOn(s: set<int>, d: seq<int>, d': seq<int>) {
    |d| == |d'| && forall x :: x in s && 0 <= x < |d| ==> d'[x] == d[x]
  }

  ghost predicate AllRoutesOk(adj: Adjacency, rt: seq<seq<seq<Edge>>>)
    requires forall s :: 0 <= s < |rt| ==> |rt[s]| == |rt|
  {
    forall s, v :: 0 <= s < |rt| && 0 <= v < |rt| ==> RouteOk(adj, s, v, rt[s][v])
  }

  /** Rewriting the route of one row. */
  function Rerouted(rt: seq<seq<seq<Edge>>>, src: int, v: int, p: seq<Edge>): seq<seq<seq<Edge>>>
    requires 0 <= src < |rt| && 0 <= v < |rt[src]|
  {
    rt[src := rt[src][v := p]]
  }

  lemma {:induction false} ReroutedOk(adj: Adjacency, rt: seq<seq<seq<Edge>>>, src: int, v: int, p: seq<Edge>)
    requires (forall s :: 0 <= s < |rt| ==> |rt[s]| == |rt|) && AllRoutesOk(adj, rt)
    requires 0 <= src < |rt| && 0 <= v < |rt| && RouteOk(adj, src, v, p)
    ensures AllRoutesOk(adj, Rerouted(rt, src, v, p)) && OthersKept(src, rt, Rerouted(rt, src, v, p))
  {
  }

  /** Only the rows of src were rewritten. */
  ghost predicate OthersKept(src: int, rt: seq<seq<seq<Edge>>>, rt': seq<seq<seq<Edge>>>) {
    |rt| == |rt'| && forall x :: 0 <= x < |rt| && x != src ==> rt'[x] == rt[x]
  }

  /** d holds the distances below INT_MAX from src, and INT_MAX for all other vertices; rt holds a
      route that attains the distance for each of the former, and nothing for the latter. */
  ghost predicate Nearest(adj: Adjacency, src: int, d: seq<int>, rt: seq<seq<Edge>>) {
    && |d| == |rt| == |adj|
    && (forall v :: 0 <= v < |adj| ==> (d[v] != INT_MAX <==> Near(adj, src, v)))
    && Attained(adj, src, d, rt)
  }

  ghost predicate Attained(adj: Adjacency, src: int, d: seq<int>, rt: seq<seq<Edge>>)
    requires |d| == |rt| == |adj|
  {
    && (forall v :: 0 <= v < |adj| && d[v] != INT_MAX ==> IsDistance(adj, src, v, d[v]))
    && (forall v :: 0 <= v < |adj| && d[v] != INT_MAX ==> End(src, rt[v]) == v && Weight(rt[v]) == d[v])
    && (forall v :: 0 <= v < |adj| && d[v] == INT_MAX ==> rt[v] == [])
  }

  /** The same with INT_MAX for exactly the vertices no walk reaches. */
  ghost predicate Shortest(adj: Adjacency, src: int, d: seq<int>, rt: seq<seq<Edge>>) {
    && |d| == |rt| == |adj|
    && (forall v :: 0 <= v < |adj| ==> (d[v] != INT_MAX <==> Reachable(adj, src, v)))
    && Attained(adj, src, d, rt)
  }

  /** INT_MAX means unreachable exactly when no vertex lies at a distance of INT_MAX or more. */
  lemma {:induction false} ShortestIff(adj: Adjacency, src: int, d: seq<int>, rt: seq<seq<Edge>>)
    requires WellFormed(adj) && Nearest(adj, src, d, rt)
    ensures Shortest(adj, src, d, rt) <==>
            forall v, x :: 0 <= v < |adj| && IsDistance(adj, src, v, x) ==> x < INT_MAX
  {
    if Shortest(adj, src, d, rt) {
      forall v, x | 0 <= v < |adj| && IsDistance(adj, src, v, x)
        ensures x < INT_MAX
      {
        assert Reachable(adj, src, v) && Near(adj, src, v);
      }
    } else if forall v, x :: 0 <= v < |adj| && IsDistance(adj, src, v, x) ==> x < INT_MAX {
      forall v | 0 <= v < |adj| && Reachable(adj, src, v)
        ensures Near(adj, src, v)
      {
        var p :| IsWalk(adj, src, p) && End(src, p) == v;
        var x := DistanceExists(adj, src, v, p);
        assert x < INT_MAX;
      }
    }
  }

  /** What one call of the loop has done so far. */
  datatype Progress = Progress(settled: set<int>, key: int, pops: seq<Entry>)

  ghost predicate Running(adj: Adjacency, d: seq<int>, pq: multiset<Entry>, run: Progress)
    requires WellFormed(adj) && |d| == |adj|
  {
    && Frontier(adj, d, pq, run.settled, -1, 0)
    && Keys(d, pq, run.key) && SettledBelow(d, run.settled, run.key) && 0 <= run.key
    && PopsInOrder(run.pops, d) && PoppedBelow(run.pops, run.settled, run.key)
    && |run.pops| + |pq| <= 1 + DegreeOf(adj, run.settled, |adj|)
  }

  /** The inner loop at edge n of u: u has just been settled under its final distance key, or
      it was settled before and nothing will happen. */
  ghost predicate Relaxing(adj: Adjacency, d: seq<int>, pq: multiset<Entry>, u: int, n: int,
                           before: set<int>, settled: set<int>, key: int)
    requires WellFormed(adj) && |d| == |adj| && 0 <= u < |adj| && 0 <= n <= |adj[u]|
  {
    && settled == before + {u}
    && Keys(d, pq, key) && SettledBelow(d, settled, key) && d[u] < INT_MAX
    && (u in before ==> Frontier(adj, d, pq, settled, -1, 0))
    && (u !in before ==>
          && d[u] == key && Frontier(adj, d, pq, settled, u, n))
  }

  /** A vertex that was settled before has its edges relaxed: no sum overflows, and nothing gets
      nearer by way of it. */
  lemma {:induction false} SettledBefore(adj: Adjacency, d: seq<int>, pq: multiset<Entry>, u: int, i: int,
                      before: set<int>, settled: set<int>, key: int)
    requires WellFormed(adj) && |d| == |adj| && 0 <= u < |adj| && 0 <= i < |adj[u]|
    requires Relaxing(adj, d, pq, u, i, before, settled, key) && u in before
    ensures d[adj[u][i].to] <= d[u] + adj[u][i].weight <= INT_MAX
  {
    assert Accounted(adj, d, pq, settled, u, |adj[u]|) && Relaxed(adj, d, u, |adj[u]|);
  }

  /** If the edge improves its far end, that vertex was not settled, and joins the queue. */
  lemma {:induction false} RelaxingImproved(adj: Adjacency, d: seq<int>, pq: multiset<Entry>, u: int, i: int, v: int,
                                            nd: int,
                         before: set<int>, settled: set<int>, key: int)
    requires WellFormed(adj) && |d| == |adj| && 0 <= u < |adj| && 0 <= i < |adj[u]|
    requires forall x :: 0 <= x < |adj| ==> 0 <= d[x] <= INT_MAX
    requires Relaxing(adj, d, pq, u, i, before, settled, key)
    requires v == adj[u][i].to && nd == d[u] + adj[u][i].weight && d[v] > nd
    ensures v !in settled
    ensures Relaxing(adj, d[v := nd], pq + multiset{Entry(v, nd)}, u, i + 1, before, settled, key)
  {
    if u in before {
      SettledBefore(adj, d, pq, u, i, before, settled, key);
    }
    ImproveKeepsFrontier(adj, d, pq, settled, key, u, i);
  }

  lemma {:induction false} RelaxingUnchanged(adj: Adjacency, d: seq<int>, pq: multiset<Entry>, u: int, i: int,
                          before: set<int>, settled: set<int>, key: int)
    requires WellFormed(adj) && |d| == |adj| && 0 <= u < |adj| && 0 <= i < |adj[u]|
    requires forall x :: 0 <= x < |adj| ==> 0 <= d[x] <= INT_MAX
    requires Relaxing(adj, d, pq, u, i, before, settled, key)
    requires d[adj[u][i].to] <= d[u] + adj[u][i].weight <= INT_MAX
    ensures Relaxing(adj, d, pq, u, i + 1, before, settled, key)
  {
    if u !in before {
      assert Accounted(adj, d, pq, settled, u, i);
    }
  }

  /** Popping the least entry sets the inner loop up. */
  lemma {:induction false} StartRelaxing(adj: Adjacency, src: int, d: seq<int>, rt: seq<seq<Edge>>, pq: multiset<Entry>,
                                         run: Progress, top: Entry)
    requires WellFormed(adj) && Sound(adj, src, d, rt)
    requires Running(adj, d, pq, run)
    requires top in pq && forall e :: e in pq ==> top.key <= e.key
    ensures 0 <= top.vertex < |adj|
    ensures Relaxing(adj, d, pq - multiset{top}, top.vertex, 0, run.settled, run.settled + {top.vertex}, top.key)
    ensures top.vertex !in run.settled ==> IsDistance(adj, src, top.vertex, top.key) && d[top.vertex] == top.key
  {
    if top.vertex !in run.settled {
      PoppedIsFinal(adj, src, d, rt, pq, run.settled, top);
    } else {
      assert run.settled + {top.vertex} == run.settled;
    }
  }

  /** And the popped entry keeps the pops in order. */
  lemma {:induction false} StartPops(adj: Adjacency, d: seq<int>, pq: multiset<Entry>, run: Progress, top: Entry)
    requires WellFormed(adj) && |d| == |adj| && Running(adj, d, pq, run) && top in pq
    requires top.vertex !in run.settled ==> d[top.vertex] == top.key
    ensures PopsInOrder(run.pops + [top], d)
    ensures PoppedBelow(run.pops + [top], run.settled + {top.vertex}, top.key)
  {
    PopsExtend(run.pops, run.settled, d, run.key, top);
  }

  /** The inner loop done, the run stands as before the pop, one pop further. */
  lemma {:induction false} FinishRelaxing(adj: Adjacency, d: seq<int>, d': seq<int>, pq: multiset<Entry>,
                                          pq': multiset<Entry>,
                       u: int, run: Progress, run': Progress)
    requires WellFormed(adj) && |d| == |d'| == |adj| && 0 <= u < |adj|
    requires Running(adj, d, pq, run) && |run'.pops| == |run.pops| + 1
    requires 0 <= run'.key && Relaxing(adj, d', pq', u, |adj[u]|, run.settled, run'.settled, run'.key)
    requires PopsInOrder(run'.pops, d) && PoppedBelow(run'.pops, run'.settled, run'.key)
    requires SameOn(run'.settled, d, d')
    requires |pq'| <= |pq| - 1 + (if u in run.settled then 0 else |adj[u]|)
    ensures Running(adj, d', pq', run')
  {
    PopsFrame(run'.pops, run'.settled, d, d', run'.key);
    if u !in run.settled {
      DegreeOfAdd(adj, run.settled, u, |adj|);
    } else {
      assert run'.settled == run.settled;
    }
  }

  lemma {:induction false} PopsBound(adj: Adjacency, d: seq<int>, pq: multiset<Entry>, run: Progress)
    requires WellFormed(adj) && |d| == |adj| && Running(adj, d, pq, run)
    ensures |run.pops| + |pq| <= 1 + TotalDegree(adj)
  {
    DegreeOfBound(adj, run.settled, |adj|);
    assert adj[..|adj|] == adj;
  }

  lemma {:induction false} PopsExtend(pops: seq<Entry>, settled: set<int>, d: seq<int>, key: int, e: Entry)
    requires PopsInOrder(pops, d) && PoppedBelow(pops, settled, key)
    requires key <= e.key && 0 <= e.vertex < |d| && d[e.vertex] <= e.key
    requires e.vertex !in settled ==> d[e.vertex] == e.key
    ensures PopsInOrder(pops + [e], d) && PoppedBelow(pops + [e], settled + {e.vertex}, e.key)
  {
    PoppedExtend(pops, settled, key, e);
    KeysExtend(pops, settled, key, e);
    var all := pops + [e];
    assert NoneBelowFinal(all, d);
    forall i | 0 <= i < |all| && FirstPop(all, i)
      ensures d[all[i].vertex] == all[i].key
    {
      FirstPopBefore(pops, settled, key, e, i);
    }
  }

  lemma {:induction false} KeysExtend(pops: seq<Entry>, settled: set<int>, key: int, e: Entry)
    requires KeysAscend(pops) && PoppedBelow(pops, settled, key) && key <= e.key
    ensures KeysAscend(pops + [e])
  {
  }

  lemma {:induction false} FirstPopBefore(pops: seq<Entry>, settled: set<int>, key: int, e: Entry, i: nat)
    requires PoppedBelow(pops, settled, key) && i <= |pops| && FirstPop(pops + [e], i)
    ensures if i < |pops| then FirstPop(pops, i) else e.vertex !in settled
  {
    var all := pops + [e];
    assert forall j :: 0 <= j < |pops| ==> pops[j] == all[j];
  }

  lemma {:induction false} PoppedExtend(pops: seq<Entry>, settled: set<int>, key: int, e: Entry)
    requires PoppedBelow(pops, settled, key) && key <= e.key
    ensures PoppedBelow(pops + [e], settled + {e.vertex}, e.key)
  {
    var all := pops + [e];
    forall x | x in settled + {e.vertex}
      ensures exists i :: 0 <= i < |all| && all[i].vertex == x
    {
      if x in settled {
        var j :| 0 <= j < |pops| && pops[j].vertex == x;
        assert all[j].vertex == x;
      } else {
        assert all[|pops|].vertex == x;
      }
    }
  }

  lemma {:induction false} PopsFrame(pops: seq<Entry>, settled: set<int>, d: seq<int>, d': seq<int>, key: int)
    requires PopsInOrder(pops, d) && PoppedBelow(pops, settled, key)
    requires SameOn(settled, d, d')
    ensures PopsInOrder(pops, d')
  {
  }

  /** The row for (s, v) holds exactly r, closed by -1, within its width. */
  ghost predicate RowIs(path: array3<int>, s: int, v: int, r: seq<int>)
    requires 0 <= s < path.Length0 && 0 <= v < path.Length1
    reads path
  {
    && |r| < path.Length2
    && (forall k :: 0 <= k < |r| ==> path[s, v, k] == r[k] && r[k] != -1)
    && path[s, v, |r|] == -1
  }

  class Graph {
    const V: nat
    var adj: seq<seq<Edge>>
    // path[s, v, ..] lists the vertices after s on the route to v, closed by -1
    const path: array3<int>
    // the edges each row of path stands for
    ghost var route: seq<seq<seq<Edge>>>

    ghost predicate Shape()
      reads this
    {
      && path.Length0 == path.Length1 == path.Length2 == V
      && |adj| == |route| == V
      && (forall s :: 0 <= s < V ==> |route[s]| == V)
      && InRange(adj) && Symmetric(adj)
    }

    ghost predicate RowsMatch()
      requires Shape()
      reads this, path
    {
      forall s, v :: 0 <= s < V && 0 <= v < V ==> RowIs(path, s, v, Vertices(route[s][v]))
    }

    ghost predicate RoutesOk()
      requires Shape()
      reads this
    {
      AllRoutesOk(adj, route)
    }

    /** Every row, written by whichever earlier call, is empty or a simple walk of today's graph. */
    ghost predicate Valid()
      reads this, path
    {
      Shape() && RowsMatch() && RoutesOk()
    }

    constructor (n: nat)
      ensures Valid() && V == n && fresh(path)
      ensures forall u :: 0 <= u < n ==> adj[u] == []
      ensures forall s, v :: 0 <= s < n && 0 <= v < n ==> route[s][v] == []
    {
      V := n;
      adj := seq(n, _ => []);
      path := new int[n, n, n]((i, j, k) => -1);
      route := seq(n, _ => seq(n, _ => []));
    }

    /** Despite its name this clears nothing: it only asks two containers whether they are empty. */
    method Empty()
      requires Valid()
      ensures Valid() && unchanged(this) && unchanged(path)
    {
    }

    method AddEdge(u: int, v: int, w: int)
      requires Valid() && 0 <= u < V && 0 <= v < V
      modifies this`adj
      ensures Valid()
      ensures adj[u] == if u == v then old(adj[u]) + [Edge(v, w), Edge(u, w)] else old(adj[u]) + [Edge(v, w)]
      ensures u != v ==> adj[v] == old(adj[v]) + [Edge(u, w)]
      ensures forall x :: 0 <= x < V && x != u && x != v ==> adj[x] == old(adj[x])
    {
      adj := adj[u := adj[u] + [Edge(v, w)]];
      adj := adj[v := adj[v] + [Edge(u, w)]];
      assert forall x :: 0 <= x < V ==> old(adj)[x] <= adj[x];
      AddedEdgeSymmetric(old(adj), adj, u, v, w);
      forall s, x | 0 <= s < V && 0 <= x < V
        ensures RouteOk(adj, s, x, route[s][x])
      {
        assert RouteOk(old(adj), s, x, route[s][x]);
        WalkMonotone(old(adj), adj, s, route[s][x]);
      }
    }

    /** The row of u followed by v is written over the row of v, as the loop over k does. */
    method WriteRow(src: int, u: int, v: int, ghost e: Edge)
      requires Shape() && RowsMatch()
      requires 0 <= src < V && 0 <= u < V && 0 <= v < V && u != v && e.to == v
      requires |route[src][u]| + 1 < V
      modifies path, this`route
      ensures route == Rerouted(old(route), src, v, old(route[src][u]) + [e])
      ensures Shape() && RowsMatch()
    {
      ghost var r := Vertices(route[src][u]);
      assert RowIs(path, src, u, r);
      label start:
      var k := 0;
      while path[src, u, k] != -1
        invariant 0 <= k <= |r|
        invariant RowIs(path, src, u, r)
        invariant forall i :: 0 <= i < k ==> path[src, v, i] == r[i]
        invariant forall a, b, c :: 0 <= a < V && 0 <= b < V && 0 <= c < V && !(a == src && b == v) ==>
                    path[a, b, c] == old@start(path[a, b, c])
        decreases |r| - k
        modifies path
      {
        path[src, v, k] := path[src, u, k];
        k := k + 1;
      }
      path[src, v, k] := v;
      k := k + 1;
      path[src, v, k] := -1;
      route := route[src := route[src][v := route[src][u] + [e]]];
      assert Vertices(route[src][v]) == r + [v];
      forall a, b | 0 <= a < V && 0 <= b < V
        ensures RowIs(path, a, b, Vertices(route[a][b]))
      {
        if !(a == src && b == v) {
          assert route[a][b] == old(route[a][b]);
          assert old(RowIs(path, a, b, Vertices(route[a][b])));
        }
      }
    }
  
    /** The body of the if: v gets nearer by way of u, and its row is rewritten. */
    method Improve(src: int, u: int, v: int, weight: int, dist: array<int>)
      requires Valid() && WellFormed(adj) && dist.Length == V && 0 <= src < V && 0 <= u < V && 0 <= v < V
      requires Sound(adj, src, dist[..], route[src])
      requires Edge(v, weight) in adj[u] && 0 <= weight && 0 <= dist[u] && dist[u] + weight < INT_MAX
      requires dist[v] > dist[u] + weight
      modifies dist, path, this`route
      ensures Valid() && Sound(adj, src, dist[..], route[src])
      ensures dist[..] == old(dist[..])[v := old(dist[u]) + weight]
      ensures OthersKept(src, old(route), route)
    {
      ghost var d := dist[..];
      ImproveKeepsSound(adj, src, d, route[src], u, Edge(v, weight));
      ExtendRoute(adj, src, d, route[src], u, Edge(v, weight));
      ReroutedOk(adj, route, src, v, route[src][u] + [Edge(v, weight)]);
      dist[v] := AddInt(dist[u], weight);
      assert dist[..] == d[v := d[u] + weight];
      WriteRow(src, u, v, Edge(v, weight));
    }

    /** One turn of the for loop over the neighbours of u, for a sum that is an int. */
    method RelaxEdge(src: int, u: int, i: int, dist: array<int>, pq0: multiset<Entry>,
                     ghost before: set<int>, ghost settled: set<int>, ghost key: int)
      returns (pq: multiset<Entry>)
      requires Valid() && WellFormed(adj) && dist.Length == V && 0 <= src < V && 0 <= u < V && 0 <= i < |adj[u]|
      requires Sound(adj, src, dist[..], route[src])
      requires Relaxing(adj, dist[..], pq0, u, i, before, settled, key)
      requires dist[u] + adj[u][i].weight <= INT_MAX
      modifies dist, path, this`route
      ensures Valid() && Sound(adj, src, dist[..], route[src])
      ensures Relaxing(adj, dist[..], pq, u, i + 1, before, settled, key)
      ensures SameOn(settled, old(dist[..]), dist[..])
      ensures OthersKept(src, old(route), route)
      ensures |pq| <= |pq0| + (if u in before then 0 else 1)
    {
      var v, weight := adj[u][i].to, adj[u][i].weight;
      SoundRange(adj, src, dist[..], route[src]);
      ghost var edges, d := adj, dist[..];
      pq := pq0;
      if dist[v] > AddInt(dist[u], weight) {
        RelaxingImproved(adj, d, pq0, u, i, v, d[u] + weight, before, settled, key);
        Improve(src, u, v, weight, dist);
        pq := pq + multiset{Entry(v, dist[v])};
        assert adj == edges && dist[..] == d[v := d[u] + weight] && pq == pq0 + multiset{Entry(v, d[u] + weight)};
      } else {
        RelaxingUnchanged(adj, d, pq0, u, i, before, settled, key);
      }
    }

    /** The for loop over the neighbours of the popped vertex u, up to a sum that is no int. */
    method RelaxNeighbours(src: int, u: int, dist: array<int>, pq0: multiset<Entry>,
                           ghost before: set<int>, ghost settled: set<int>, ghost key: int)
      returns (pq: multiset<Entry>, overflow: bool)
      requires Valid() && WellFormed(adj) && dist.Length == V && 0 <= src < V && 0 <= u < V
      requires Sound(adj, src, dist[..], route[src])
      requires Relaxing(adj, dist[..], pq0, u, 0, before, settled, key)
      requires u !in before ==> IsDistance(adj, src, u, key)
      modifies dist, path, this`route
      ensures Valid() && OthersKept(src, old(route), route)
      ensures overflow ==> Overflows(adj, src)
      ensures !overflow ==> Sound(adj, src, dist[..], route[src])
      ensures !overflow ==> Relaxing(adj, dist[..], pq, u, |adj[u]|, before, settled, key)
      ensures !overflow ==> SameOn(settled, old(dist[..]), dist[..])
      ensures |pq| <= |pq0| + (if u in before then 0 else |adj[u]|)
    {
      pq, overflow := pq0, false;
      var i := 0;
      while i < |adj[u]|
        invariant 0 <= i <= |adj[u]|
        invariant Valid() && Sound(adj, src, dist[..], route[src])
        invariant Relaxing(adj, dist[..], pq, u, i, before, settled, key)
        invariant SameOn(settled, old(dist[..]), dist[..])
        invariant OthersKept(src, old(route), route)
        invariant |pq| <= |pq0| + (if u in before then 0 else i)
        modifies dist, path, this`route
      {
        if dist[u] + adj[u][i].weight > INT_MAX {
          OverflowFound(adj, src, dist[..], pq, u, i, before, settled, key);
          overflow := true;
          return;
        }
        pq := RelaxEdge(src, u, i, dist, pq, before, settled, key);
        i := i + 1;
      }
    }

    /** The body of the while loop: one pop, and the edges of the popped vertex. */
    method PopAndRelax(src: int, dist: array<int>, pq0: multiset<Entry>, ghost run0: Progress)
      returns (pq: multiset<Entry>, overflow: bool, ghost run: Progress)
      requires Valid() && WellFormed(adj) && dist.Length == V && 0 <= src < V
      requires Sound(adj, src, dist[..], route[src])
      requires Running(adj, dist[..], pq0, run0) && pq0 != multiset{}
      modifies dist, path, this`route
      ensures Valid() && OthersKept(src, old(route), route)
      ensures overflow ==> Overflows(adj, src)
      ensures !overflow ==> Sound(adj, src, dist[..], route[src])
      ensures !overflow ==> Running(adj, dist[..], pq, run)
      ensures |run.pops| == |run0.pops| + 1
    {
      LeastEntryExists(pq0);
      var top :| top in pq0 && forall e :: e in pq0 ==> top.key <= e.key;
      var u := top.vertex;
      run := Progress(run0.settled + {u}, top.key, run0.pops + [top]);
      StartRelaxing(adj, src, dist[..], route[src], pq0, run0, top);
      StartPops(adj, dist[..], pq0, run0, top);
      ghost var d := dist[..];
      pq := pq0 - multiset{top};
      pq, overflow := RelaxNeighbours(src, u, dist, pq, run0.settled, run.settled, run.key);
      if !overflow {
        FinishRelaxing(adj, d, dist[..], pq0, pq, u, run0, run);
      }
    }

    method StartRun(src: int, dist: array<int>) returns (pq: multiset<Entry>, ghost run: Progress)
      requires Valid() && WellFormed(adj) && dist.Length == V && 0 <= src < V
      modifies dist
      ensures Valid() && Sound(adj, src, dist[..], route[src])
      ensures Running(adj, dist[..], pq, run)
    {
      forall v | 0 <= v < dist.Length {
        dist[v] := INT_MAX;
      }
      pq := multiset{Entry(src, 0)};
      dist[src] := 0;
      run := Progress({}, 0, []);
      StartIsSound(adj, src, dist[..], route[src]);
    }

    /** overflow is reported where a sum is no int, which is undefined in C++, and that happens exactly
        if some vertex nearer than INT_MAX has an edge that is too long. Otherwise dist comes back
        as the distances below INT_MAX, the row of each such vertex as a shortest walk that is
        simple, and pops as the queue entries in the order in which they came out. */
    method ShortestPath(src: int, dist: array<int>) returns (overflow: bool, ghost pops: seq<Entry>)
      requires Valid() && WellFormed(adj) && dist.Length == V && 0 <= src < V
      modifies dist, path, this`route
      ensures Valid() && OthersKept(src, old(route), route)
      ensures overflow <==> Overflows(adj, src)
      ensures !overflow ==> Nearest(adj, src, dist[..], route[src])
      ensures !overflow ==> PopsInOrder(pops, dist[..])
      ensures |pops| <= 1 + TotalDegree(adj)
    {
      var pq;
      ghost var run;
      pq, run := StartRun(src, dist);
      overflow, pops := false, run.pops;
      while pq != multiset{}
        invariant Valid() && Sound(adj, src, dist[..], route[src])
        invariant Running(adj, dist[..], pq, run) && pops == run.pops
        invariant OthersKept(src, old(route), route)
        decreases 1 + TotalDegree(adj) - |run.pops|
        modifies dist, path, this`route
      {
        PopsBound(adj, dist[..], pq, run);
        pq, overflow, run := PopAndRelax(src, dist, pq, run);
        pops := run.pops;
        if overflow {
          return;
        }
      }
      PopsBound(adj, dist[..], pq, run);
      EmptyQueueResult(adj, src, dist[..], route[src], run.settled);
      EmptyQueueNoOverflow(adj, src, dist[..], route[src], run.settled);
    }
  }

  /** A sum at u that is no int: u was not settled before, so it has its distance already. */
  lemma {:induction false} OverflowFound(adj: Adjacency, src: int, d: seq<int>, pq: multiset<Entry>, u: int, i: int,
                      before: set<int>, settled: set<int>, key: int)
    requires WellFormed(adj) && |d| == |adj| && 0 <= u < |adj| && 0 <= i < |adj[u]|
    requires Relaxing(adj, d, pq, u, i, before, settled, key)
    requires u !in before ==> IsDistance(adj, src, u, key)
    requires d[u] + adj[u][i].weight > INT_MAX
    ensures Overflows(adj, src)
  {
    if u in before {
      SettledBefore(adj, d, pq, u, i, before, settled, key);
    }
    assert OverflowsAt(adj, src, u, key, i);
  }

  /** What an empty queue means for all vertices at once. */
  lemma {:induction false} EmptyQueueResult(adj: Adjacency, src: int, d: seq<int>, rt: seq<seq<Edge>>,
                                            settled: set<int>)
    requires WellFormed(adj) && Sound(adj, src, d, rt) && Frontier(adj, d, multiset{}, settled, -1, 0)
    ensures Nearest(adj, src, d, rt)
  {
    forall v | 0 <= v < |adj|
      ensures d[v] != INT_MAX <==> Near(adj, src, v)
      ensures d[v] != INT_MAX ==> IsDistance(adj, src, v, d[v])
      ensures d[v] != INT_MAX ==> End(src, rt[v]) == v && Weight(rt[v]) == d[v]
      ensures d[v] == INT_MAX ==> rt[v] == []
    {
      EmptyQueueIsFinal(adj, src, d, rt, settled, v);
      assert VertexSound(adj, src, d, v, rt[v]);
    }
  }

  /** Runs from s and from t agree on the distance between them, reached or not. */
  lemma {:induction false} RunsAgreeOnDistance(adj: Adjacency, s: int, ds: seq<int>, rs: seq<seq<Edge>>, t: int,
                                               dt: seq<int>, rt: seq<seq<Edge>>)
    requires WellFormed(adj) && Symmetric(adj) && 0 <= s < |adj| && 0 <= t < |adj|
    requires Nearest(adj, s, ds, rs) && Nearest(adj, t, dt, rt)
    ensures ds[t] == dt[s]
  {
    if Near(adj, s, t) {
      NearBack(adj, s, t);
    } else if Near(adj, t, s) {
      NearBack(adj, t, s);
    }
    if ds[t] != INT_MAX {
      DistanceSymmetric(adj, s, t, ds[t]);
      DistanceUnique(adj, t, s, ds[t], dt[s]);
    }
  }

  lemma {:induction false} NearBack(adj: Adjacency, s: int, t: int)
    requires WellFormed(adj) && Symmetric(adj) && Near(adj, s, t)
    ensures Near(adj, t, s)
  {
    var p :| IsWalk(adj, s, p) && End(s, p) == t && Weight(p) < INT_MAX;
    var q := ReverseWalk(adj, s, p);
  }

  lemma {:induction false} AddedEdgeSymmetric(adj: Adjacency, adj': Adjacency, u: int, v: int, w: int)
    requires InRange(adj) && Symmetric(adj) && |adj'| == |adj|
    requires 0 <= u < |adj| && 0 <= v < |adj|
    requires adj' == var a := adj[u := adj[u] + [Edge(v, w)]]; a[v := a[v] + [Edge(u, w)]]
    ensures InRange(adj') && Symmetric(adj')
  {
    forall x, i | 0 <= x < |adj'| && 0 <= i < |adj'[x]|
      ensures Edge(x, adj'[x][i].weight) in adj'[adj'[x][i].to]
    {
      var e := adj'[x][i];
      if i < |adj[x]| {
        assert Edge(x, adj[x][i].weight) in adj[e.to];
        assert adj[e.to] <= adj'[e.to];
      } else {
        assert Edge(v, w) in adj'[u] by { assert adj'[u][|adj[u]|] == Edge(v, w); }
        assert Edge(u, w) in adj'[v] by { assert adj'[v][|adj'[v]| - 1] == Edge(u, w); }
      }
    }
  }

  lemma {:induction false} LoopRepeats(u: int, p: seq<Edge>)
    requires p != [] && End(u, p) == u
    ensures !Simple(u, p)
  {
    var s := [u] + Vertices(p);
    assert s[0] == s[|p|];
  }

  lemma {:induction false} StartIsSound(adj: Adjacency, src: int, d: seq<int>, rt: seq<seq<Edge>>)
    requires WellFormed(adj) && 0 <= src < |adj| && |d| == |rt| == |adj|
    requires forall v :: 0 <= v < |adj| ==> d[v] == (if v == src then 0 else INT_MAX)
    requires forall v :: 0 <= v < |adj| ==> RouteOk(adj, src, v, rt[v])
    ensures Sound(adj, src, d, rt)
    ensures Frontier(adj, d, multiset{Entry(src, 0)}, {}, -1, 0) && Keys(d, multiset{Entry(src, 0)}, 0)
  {
    assert RouteOk(adj, src, src, rt[src]);
    if rt[src] != [] {
      LoopRepeats(src, rt[src]);
    }
  }
}
