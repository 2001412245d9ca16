/** Choosing where to download from: the least loaded node, and of those the nearest. */
module MinLoad {
  import opened Text
  import opened Sorting
  import opened Routing

  const MAX_LOAD: int := 4000

  /** A node and the load it reported. */
  datatype Polled = Polled(id: int, load: int)

  /** What GetLoad makes of the reply, "" after a time-out. */
  function LoadOf(nodes: seq<ServerInfo>, id: int, reply: string): int {
    if AddrOf(nodes, id) == "" then MAX_LOAD else if HasNumber(reply) then Atoi(reply) else MAX_LOAD
  }

  /** A node that prints its load has that load; one without an address, or that does not answer, or answers with
      something that is no number, counts as having 4000. */
  lemma {:induction false} LoadIsRead(nodes: seq<ServerInfo>, id: int, load: int, reply: string)
    ensures AddrOf(nodes, id) != "" ==> LoadOf(nodes, id, IntText(load)) == load && LoadOf(nodes, id, "") == 4000
    ensures AddrOf(nodes, id) == "" || !HasNumber(reply) ==> LoadOf(nodes, id, reply) == 4000
  {
    AtoiText(load);
  }

  /** The loads in list order; polls(i) is the reply to question number i. */
  function LoadsOf(nodes: seq<ServerInfo>, polls: nat -> string): (polled: seq<Polled>)
    ensures |polled| == |nodes|
    ensures forall i :: 0 <= i < |nodes| ==> polled[i] == Polled(nodes[i].id, LoadOf(nodes, nodes[i].id, polls(i)))
  {
    seq(|nodes|, i requires 0 <= i < |nodes| => Polled(nodes[i].id, LoadOf(nodes, nodes[i].id, polls(i))))
  }

  predicate IdsWithin(polled: seq<Polled>, n: int) {
    forall i :: 0 <= i < |polled| ==> 0 <= polled[i].id < n
  }

  /** a comes no later than b when loads decide first and distances second. */
  predicate NoWorse(a: Polled, b: Polled, dist: seq<int>)
    requires 0 <= a.id < |dist| && 0 <= b.id < |dist|
  {
    a.load < b.load || (a.load == b.load && dist[a.id] <= dist[b.id])
  }

  ghost predicate LeastOf(polled: seq<Polled>, dist: seq<int>, x: Polled)
    requires IdsWithin(polled, |dist|)
  {
    x in polled && forall j :: 0 <= j < |polled| ==> NoWorse(x, polled[j], dist)
  }

  /** id belongs to a node that no other node beats. */
  ghost predicate IsMinLoad(polled: seq<Polled>, dist: seq<int>, id: int)
    requires IdsWithin(polled, |dist|)
  {
    exists x :: LeastOf(polled, dist, x) && x.id == id
  }

  /** The reply of a node with this load, or of one that does not answer. */
  predicate Answered(reply: string, load: int) {
    reply == IntText(load) || (reply == "" && load == 4000)
  }

  /** So if all nodes can be addressed and each prints its load or stays silent, the chosen node is one that no other
      beats: none has a smaller load, and none of the same load is nearer. */
  lemma {:induction false} LeastByReplies(nodes: seq<ServerInfo>, polls: nat -> string, dist: seq<int>, id: int,
                                          loads: seq<int>)
    requires IdsWithin(LoadsOf(nodes, polls), |dist|) && IsMinLoad(LoadsOf(nodes, polls), dist, id)
    requires |loads| == |nodes| && forall i :: 0 <= i < |nodes| ==> AddrOf(nodes, nodes[i].id) != ""
    requires forall i :: 0 <= i < |nodes| ==> Answered(polls(i), loads[i])
    ensures exists k :: 0 <= k < |nodes| && nodes[k].id == id && forall j :: 0 <= j < |nodes| ==>
              0 <= nodes[j].id < |dist|
              && (loads[k] < loads[j] || (loads[k] == loads[j] && dist[nodes[k].id] <= dist[nodes[j].id]))
  {
    var polled := LoadsOf(nodes, polls);
    forall i | 0 <= i < |nodes|
      ensures polled[i] == Polled(nodes[i].id, loads[i])
    {
      LoadIsRead(nodes, nodes[i].id, loads[i], polls(i));
    }
    var x :| LeastOf(polled, dist, x) && x.id == id;
    var k :| 0 <= k < |polled| && polled[k] == x;
    forall j | 0 <= j < |nodes|
      ensures 0 <= nodes[j].id < |dist|
      ensures loads[k] < loads[j] || (loads[k] == loads[j] && dist[nodes[k].id] <= dist[nodes[j].id])
    {
      assert NoWorse(polled[k], polled[j], dist);
      assert polled[j] == Polled(nodes[j].id, loads[j]);
    }
    assert nodes[k].id == id;
  }

  const BY_LOAD: Polled -> int := (p: Polled) => p.load

  /** std::lower_bound on loads */
  method LowerBound(v: seq<Polled>, load: int) returns (low: nat)
    requires Sorted(v, BY_LOAD)
    ensures low <= |v|
    ensures forall i :: 0 <= i < low ==> v[i].load < load
    ensures forall i :: low <= i < |v| ==> load <= v[i].load
  {
    low := 0;
    var count := |v|;
    while count > 0
      invariant 0 <= count <= count + low <= |v|
      invariant forall i :: 0 <= i < low ==> v[i].load < load
      invariant forall i :: low + count <= i < |v| ==> load <= v[i].load
    {
      var step := count / 2;
      assert forall i :: 0 <= i < low + step ==> BY_LOAD(v[i]) <= BY_LOAD(v[low + step]);
      assert forall i :: low + step < i < |v| ==> BY_LOAD(v[low + step]) <= BY_LOAD(v[i]);
      if v[low + step].load < load {
        low, count := low + step + 1, count - step - 1;
      } else {
        count := step;
      }
    }
  }

  /** std::upper_bound on loads */
  method UpperBound(v: seq<Polled>, load: int) returns (high: nat)
    requires Sorted(v, BY_LOAD)
    ensures high <= |v|
    ensures forall i :: 0 <= i < high ==> v[i].load <= load
    ensures forall i :: high <= i < |v| ==> load < v[i].load
  {
    high := 0;
    var count := |v|;
    while count > 0
      invariant 0 <= count <= count + high <= |v|
      invariant forall i :: 0 <= i < high ==> v[i].load <= load
      invariant forall i :: high + count <= i < |v| ==> load < v[i].load
    {
      var step := count / 2;
      assert forall i :: 0 <= i < high + step ==> BY_LOAD(v[i]) <= BY_LOAD(v[high + step]);
      assert forall i :: high + step < i < |v| ==> BY_LOAD(v[high + step]) <= BY_LOAD(v[i]);
      if load < v[high + step].load {
        count := step;
      } else {
        high, count := high + step + 1, count - step - 1;
      }
    }
  }

  function DistanceKey(dist: seq<int>): Polled -> int {
    (p: Polled) => if 0 <= p.id < |dist| then dist[p.id] else 0
  }

  /** The front of the ties sorted by distance is a least element of the whole list. */
  lemma FrontOfTies(polled: seq<Polled>, v: seq<Polled>, ties: seq<Polled>, dist: seq<int>, low: nat, high: nat)
    requires IdsWithin(polled, |dist|) && polled != []
    requires IsSortOf(v, polled, BY_LOAD) && low <= high <= |v|
    requires forall i :: 0 <= i < |v| ==> (low <= i < high <==> v[i].load == v[0].load)
    requires IsSortOf(ties, v[low..high], DistanceKey(dist)) && ties != []
    ensures LeastOf(polled, dist, ties[0])
  {
    var x := ties[0];
    SameElements(ties, v[low..high], x);
    SameElements(v, polled, x);
    forall j | 0 <= j < |polled|
      ensures NoWorse(x, polled[j], dist)
    {
      SameElements(v, polled, polled[j]);
      var i :| 0 <= i < |v| && v[i] == polled[j];
      assert BY_LOAD(v[0]) <= BY_LOAD(v[i]);
      if low <= i < high {
        SameElements(ties, v[low..high], v[i]);
        assert v[low..high][i - low] == v[i];
        var t :| 0 <= t < |ties| && ties[t] == v[i];
        assert DistanceKey(dist)(ties[0]) <= DistanceKey(dist)(ties[t]);
      }
    }
  }

  /** The choice: sort by load, cut out the ties, and sort those by distance. */
  method Choose(polled: seq<Polled>, dist: seq<int>) returns (id: int)
    requires polled != [] && IdsWithin(polled, |dist|)
    ensures IsMinLoad(polled, dist, id)
    ensures exists k :: 0 <= k < |polled| && polled[k].id == id && forall j :: 0 <= j < |polled| ==>
              polled[k].load < polled[j].load
              || (polled[k].load == polled[j].load && dist[id] <= dist[polled[j].id])
  {
    var v := Sort(polled, BY_LOAD);
    SameElements(v, polled, polled[0]);
    assert forall i :: 0 <= i < |v| ==> BY_LOAD(v[0]) <= BY_LOAD(v[i]);
    var high := UpperBound(v, v[0].load);
    var low := LowerBound(v, v[0].load);
    if high == low + 1 {
      id := v[0].id;
      assert v[low..high] == [v[0]];
      FrontOfTies(polled, v, v[low..high], dist, low, high);
    } else {
      var ties := [];
      for i := low to high
        invariant ties == v[low..i]
      {
        ties := ties + [v[i]];
      }
      var byDistance := Sort(ties, DistanceKey(dist));
      SameElements(byDistance, ties, v[0]);
      FrontOfTies(polled, v, byDistance, dist, low, high);
      id := byDistance[0].id;
    }
  }
}
