/** The pool of listening ports that concurrent transfers share, and the load they add up to. */
module Ports {
  import opened Routing
  import opened Sequences

  const POOL_START: int := 5000
  const POOL_END: int := 5900
  const POOL_SIZE: nat := POOL_END - POOL_START + 1

  function AllPorts(): (ports: seq<int>)
    ensures |ports| == POOL_SIZE
  {
    seq(POOL_SIZE, i => POOL_START + i)
  }

  datatype Pool = Pool(free: seq<int>, load: int)

  /** GetPort: one more load, and the front port leaves the pool. */
  function Taken(pool: Pool): Pool
    requires pool.free != []
  {
    Pool(pool.free[1..], pool.load + 1)
  }

  function Returned(pool: Pool, port: int): Pool {
    Pool(pool.free + [port], pool.load - 1)
  }

  /** A call of ForwardDownload in some thread: not begun, blocked on a reply, or returned. */
  datatype Transfer = Idle(request: string) | Waiting(port: int, hop: Hop) | Done(reply: string)

  datatype System = System(pool: Pool, transfers: seq<Transfer>)

  /** A new thread; a thread that looks at its request (local is what it packs if it serves the file
      itself); a thread whose reply comes in, "" for a time-out. */
  datatype Event = Spawn(request: string) | Begin(t: nat, local: string) | Finish(t: nat, received: string)

  const START: System := System(Pool(AllPorts(), 0), [])

  predicate Enabled(s: System, e: Event) {
    match e
    case Spawn(_) => true
    case Begin(t, _) => t < |s.transfers| && s.transfers[t].Idle?
    case Finish(t, _) => t < |s.transfers| && s.transfers[t].Waiting?
  }

  /** The steps. Taking a port from an empty list is undefined in C++: then s' is arbitrary. */
  predicate Next(s: System, e: Event, s': System)
    requires Enabled(s, e)
  {
    match e
    case Spawn(request) => s' == s.(transfers := s.transfers + [Idle(request)])
    case Begin(t, local) =>
      var hop := HopOf(s.transfers[t].request);
      if hop.Serve? then s' == s.(transfers := s.transfers[t := Done(local)])
      else s.pool.free != [] ==> s' == System(Taken(s.pool), s.transfers[t := Waiting(s.pool.free[0], hop)])
    case Finish(t, received) =>
      s' == System(Returned(s.pool, s.transfers[t].port), s.transfers[t := Done(received)])
  }

  function PortOf(x: Transfer): multiset<int> {
    if x.Waiting? then multiset{x.port} else multiset{}
  }

  function Held(transfers: seq<Transfer>): multiset<int> {
    if transfers == [] then multiset{} else Held(transfers[..|transfers| - 1]) + PortOf(transfers[|transfers| - 1])
  }

  function Outstanding(transfers: seq<Transfer>): nat {
    if transfers == [] then 0
    else Outstanding(transfers[..|transfers| - 1]) + if transfers[|transfers| - 1].Waiting? then 1 else 0
  }

  /** Free and held ports together are every port once, and the load is the number of transfers. */
  ghost predicate Conserved(s: System) {
    multiset(s.pool.free) + Held(s.transfers) == multiset(AllPorts()) && s.pool.load == |Held(s.transfers)|
  }

  /** A run in which a transfer asks for a port only while fewer than 901 others hold one. */
  ghost predicate Run(states: seq<System>, events: seq<Event>) {
    && |states| == |events| + 1 && states[0] == START
    && forall i :: 0 <= i < |events| ==> RunStep(states[i], events[i], states[i + 1])
  }

  predicate RunStep(s: System, e: Event, s': System) {
    && Enabled(s, e) && Next(s, e, s')
    && (e.Begin? ==> Outstanding(s.transfers) < POOL_SIZE)
  }

  // ---------- what an update of one thread changes ----------

  lemma AddBoth(a: multiset<int>, p: multiset<int>, b: multiset<int>, q: multiset<int>, e: multiset<int>)
    requires a + p == b + q
    ensures (a + e) + p == (b + e) + q
  {
    assert (a + e) + p == (a + p) + e && (b + e) + q == (b + q) + e;
  }

  lemma SliceOfUpdate(ts: seq<Transfer>, t: nat, x: Transfer, n: nat)
    requires t < |ts| == n + 1
    ensures ts[t := x][..n] == (if t < n then ts[..n][t := x] else ts[..n])
    ensures ts[t := x][n] == if t < n then ts[n] else x
  {
  }

  lemma {:induction false} UpdateHeld(ts: seq<Transfer>, t: nat, x: Transfer)
    requires t < |ts|
    ensures Held(ts[t := x]) + PortOf(ts[t]) == Held(ts) + PortOf(x)
  {
    var n := |ts| - 1;
    SliceOfUpdate(ts, t, x, n);
    if t < n {
      UpdateHeld(ts[..n], t, x);
      AddBoth(Held(ts[..n][t := x]), PortOf(ts[t]), Held(ts[..n]), PortOf(x), PortOf(ts[n]));
    } else {
      assert (Held(ts[..n]) + PortOf(x)) + PortOf(ts[n]) == (Held(ts[..n]) + PortOf(ts[n])) + PortOf(x);
    }
  }

  lemma {:induction false} HeldSize(ts: seq<Transfer>)
    ensures Outstanding(ts) == |Held(ts)|
  {
    if ts != [] {
      HeldSize(ts[..|ts| - 1]);
    }
  }

  lemma TakeFirst(free: seq<int>)
    requires free != []
    ensures multiset(free) == multiset(free[1..]) + multiset{free[0]}
  {
    assert free == [free[0]] + free[1..];
  }

  lemma TakeConserves(s: System, t: nat, hop: Hop)
    requires Conserved(s) && t < |s.transfers| && !s.transfers[t].Waiting? && s.pool.free != []
    ensures Conserved(System(Taken(s.pool), s.transfers[t := Waiting(s.pool.free[0], hop)]))
  {
    var x := Waiting(s.pool.free[0], hop);
    TakeFirst(s.pool.free);
    UpdateHeld(s.transfers, t, x);
    var rest, held := multiset(s.pool.free[1..]), Held(s.transfers);
    assert Held(s.transfers[t := x]) == held + PortOf(x);
    assert rest + (held + PortOf(x)) == (rest + PortOf(x)) + held;
  }

  lemma ReturnConserves(s: System, t: nat, reply: string)
    requires Conserved(s) && t < |s.transfers| && s.transfers[t].Waiting?
    ensures Conserved(System(Returned(s.pool, s.transfers[t].port), s.transfers[t := Done(reply)]))
  {
    var p := s.transfers[t].port;
    UpdateHeld(s.transfers, t, Done(reply));
    var held := Held(s.transfers[t := Done(reply)]);
    assert held + multiset{p} == Held(s.transfers);
    assert multiset(s.pool.free + [p]) + held == multiset(s.pool.free) + (held + multiset{p});
  }

  lemma LocalConserves(s: System, t: nat, reply: string)
    requires Conserved(s) && t < |s.transfers| && !s.transfers[t].Waiting?
    ensures Conserved(s.(transfers := s.transfers[t := Done(reply)]))
  {
    UpdateHeld(s.transfers, t, Done(reply));
    var held := Held(s.transfers[t := Done(reply)]);
    assert held + multiset{} == held && Held(s.transfers) + multiset{} == Held(s.transfers);
  }

  lemma StepConserves(s: System, e: Event, s': System)
    requires Conserved(s) && RunStep(s, e, s')
    ensures Conserved(s')
  {
    match e
    case Spawn(request) =>
      assert s'.transfers[..|s.transfers|] == s.transfers;
    case Begin(t, local) =>
      EmptyIff(s);
      if HopOf(s.transfers[t].request).Serve? {
        LocalConserves(s, t, local);
      } else {
        TakeConserves(s, t, HopOf(s.transfers[t].request));
      }
    case Finish(t, received) =>
      ReturnConserves(s, t, received);
  }

  /** The exact condition under which the front of the pool may be read. */
  lemma EmptyIff(s: System)
    requires Conserved(s)
    ensures s.pool.free == [] <==> Outstanding(s.transfers) == POOL_SIZE
    ensures |s.pool.free| + Outstanding(s.transfers) == POOL_SIZE
  {
    HeldSize(s.transfers);
    assert |multiset(s.pool.free)| == |s.pool.free|;
    assert |multiset(s.pool.free) + Held(s.transfers)| == |s.pool.free| + |Held(s.transfers)|;
    assert |multiset(AllPorts())| == |AllPorts()|;
  }

  // ---------- over a whole run ----------

  lemma StepOf(states: seq<System>, events: seq<Event>, i: nat)
    requires Run(states, events) && 0 < i < |states|
    ensures RunStep(states[i - 1], events[i - 1], states[i])
  {
    assert RunStep(states[i - 1], events[i - 1], states[i - 1 + 1]);
  }

  lemma {:induction false} RunConserves(states: seq<System>, events: seq<Event>, i: nat)
    requires Run(states, events) && i < |states|
    ensures Conserved(states[i])
  {
    if i > 0 {
      RunConserves(states, events, i - 1);
      StepOf(states, events, i);
      StepConserves(states[i - 1], events[i - 1], states[i]);
    }
  }

  // ---------- in which order ports are handed out ----------

  function IfReturned(s: System, e: Event): seq<int> {
    if Enabled(s, e) && e.Finish? then [s.transfers[e.t].port] else []
  }

  function Takes(s: System, e: Event): nat {
    if Enabled(s, e) && e.Begin? && HopOf(s.transfers[e.t].request).Forward? then 1 else 0
  }

  /** The ports given back in the first i steps, in that order. */
  function GivenBack(states: seq<System>, events: seq<Event>, i: nat): seq<int>
    requires i <= |events| <= |states|
  {
    if i == 0 then [] else GivenBack(states, events, i - 1) + IfReturned(states[i - 1], events[i - 1])
  }

  /** How many ports have been taken by then. */
  function TakenBy(states: seq<System>, events: seq<Event>, i: nat): nat
    requires i <= |events| <= |states|
  {
    if i == 0 then 0 else TakenBy(states, events, i - 1) + Takes(states[i - 1], events[i - 1])
  }

  lemma QueueTake(all: seq<int>, k: nat)
    requires k < |all|
    ensures all[k..][0] == all[k] && all[k..][1..] == all[k + 1..]
  {
  }

  lemma QueueGive(all: seq<int>, k: nat, p: int)
    requires k <= |all|
    ensures all[k..] + [p] == (all + [p])[k..]
  {
  }

  lemma {:induction false} QueueStep(s: System, e: Event, s': System, all: seq<int>, k: nat)
    requires RunStep(s, e, s') && k <= |all| && s.pool.free == all[k..]
    requires s.pool.free == [] ==> Takes(s, e) == 0
    ensures k + Takes(s, e) <= |all| && s'.pool.free == (all + IfReturned(s, e))[k + Takes(s, e)..]
  {
    if e.Finish? {
      QueueGive(all, k, s.transfers[e.t].port);
    } else {
      assert all + [] == all;
      if Takes(s, e) == 1 {
        QueueTake(all, k);
      }
    }
  }

  lemma {:induction false} MayTake(s: System, e: Event, s': System)
    requires Conserved(s) && RunStep(s, e, s')
    ensures s.pool.free == [] ==> Takes(s, e) == 0
  {
    EmptyIff(s);
  }

  /** The pool is what is left of the given ports and those that came back. */
  ghost predicate QueueLeft(free: seq<int>, ports: seq<int>, back: seq<int>, taken: nat) {
    taken <= |ports| + |back| && free == (ports + back)[taken..]
  }

  lemma {:induction false} QueueMoves(s: System, e: Event, s': System, ports: seq<int>, back: seq<int>, taken: nat)
    requires RunStep(s, e, s') && QueueLeft(s.pool.free, ports, back, taken)
    requires s.pool.free == [] ==> Takes(s, e) == 0
    ensures QueueLeft(s'.pool.free, ports, back + IfReturned(s, e), taken + Takes(s, e))
  {
    QueueStep(s, e, s', ports + back, taken);
    Associate(ports, back, IfReturned(s, e));
  }

  lemma {:induction false} MayTakeAt(states: seq<System>, events: seq<Event>, i: nat)
    requires Run(states, events) && 0 < i < |states|
    ensures states[i - 1].pool.free == [] ==> Takes(states[i - 1], events[i - 1]) == 0
  {
    StepOf(states, events, i);
    RunConserves(states, events, i - 1);
    MayTake(states[i - 1], events[i - 1], states[i]);
  }

  lemma {:induction false} QueueNext(states: seq<System>, events: seq<Event>, i: nat, ports: seq<int>)
    requires Run(states, events) && 0 < i < |states|
    requires QueueLeft(states[i - 1].pool.free, ports, GivenBack(states, events, i - 1), TakenBy(states, events, i - 1))
    ensures QueueLeft(states[i].pool.free, ports, GivenBack(states, events, i), TakenBy(states, events, i))
  {
    MayTakeAt(states, events, i);
    StepOf(states, events, i);
    QueueMoves(states[i - 1], events[i - 1], states[i], ports, GivenBack(states, events, i - 1),
      TakenBy(states, events, i - 1));
  }

  lemma {:induction false} QueueAt(states: seq<System>, events: seq<Event>, i: nat, ports: seq<int>)
    requires Run(states, events) && i < |states| && QueueLeft(states[0].pool.free, ports, [], 0)
    ensures QueueLeft(states[i].pool.free, ports, GivenBack(states, events, i), TakenBy(states, events, i))
  {
    if i > 0 {
      QueueAt(states, events, i - 1, ports);
      QueueNext(states, events, i, ports);
    }
  }

  /** In every interleaving ports are handed out in the order 5000, 5001, ..., 5900, and then in the order in which they
      came back: the pool is what is left of that sequence. */
  lemma {:induction false} PoolIsQueue(states: seq<System>, events: seq<Event>, i: nat)
    requires Run(states, events) && i < |states|
    ensures
      var all, taken := AllPorts() + GivenBack(states, events, i), TakenBy(states, events, i);
      taken <= |all| && states[i].pool.free == all[taken..]
  {
    var none: seq<int> := [];
    assert AllPorts() + none == AllPorts();
    QueueAt(states, events, i, AllPorts());
  }

  lemma {:induction false} HeldAt(ts: seq<Transfer>, t: nat)
    requires t < |ts| && ts[t].Waiting?
    ensures ts[t].port in Held(ts)
  {
    if t < |ts| - 1 {
      HeldAt(ts[..|ts| - 1], t);
    }
  }

  lemma {:induction false} HeldTwice(ts: seq<Transfer>, t: nat, u: nat)
    requires t < u < |ts| && ts[t].Waiting? && ts[u].Waiting? && ts[t].port == ts[u].port
    ensures Held(ts)[ts[t].port] >= 2
  {
    if u < |ts| - 1 {
      HeldTwice(ts[..|ts| - 1], t, u);
    } else {
      HeldAt(ts[..|ts| - 1], t);
    }
  }

  /** Every port number occurs once among the 901. */
  lemma OnePortEach(p: int)
    ensures multiset(AllPorts())[p] == if POOL_START <= p <= POOL_END then 1 else 0
  {
    var ports := AllPorts();
    if POOL_START <= p <= POOL_END {
      var k := p - POOL_START;
      assert ports == ports[..k] + [p] + ports[k + 1..];
      assert p !in ports[..k] && p !in ports[k + 1..];
    } else {
      assert p !in ports;
    }
  }

  /** At every moment of every interleaving, no two transfers listen at the same port, no port in use
      is handed out, all are between 5000 and 5900, and the reported load is the number in use. */
  lemma PortsExclusive(states: seq<System>, events: seq<Event>, i: nat, t: nat)
    requires Run(states, events) && i < |states| && t < |states[i].transfers| && states[i].transfers[t].Waiting?
    ensures
      var s := states[i];
      var p := s.transfers[t].port;
      && 5000 <= p <= 5900 && p !in s.pool.free && s.pool.load == Outstanding(s.transfers)
      && forall u :: 0 <= u < |s.transfers| && u != t && s.transfers[u].Waiting? ==> s.transfers[u].port != p
  {
    RunConserves(states, events, i);
    var s := states[i];
    HeldSize(s.transfers);
    var p := s.transfers[t].port;
    HeldAt(s.transfers, t);
    OnePortEach(p);
    assert (multiset(s.pool.free) + Held(s.transfers))[p] == multiset(s.pool.free)[p] + Held(s.transfers)[p];
    forall u | 0 <= u < |s.transfers| && u != t && s.transfers[u].Waiting?
      ensures s.transfers[u].port != p
    {
      if s.transfers[u].port == p {
        HeldTwice(s.transfers, if t < u then t else u, if t < u then u else t);
      }
    }
  }

  lemma {:induction false} NothingHeld(ts: seq<Transfer>)
    requires forall t :: 0 <= t < |ts| ==> !ts[t].Waiting?
    ensures Held(ts) == multiset{} && Outstanding(ts) == 0
  {
    if ts != [] {
      NothingHeld(ts[..|ts| - 1]);
    }
  }

  /** Once no transfer waits the pool is whole again, in some order, and the load is back at 0. */
  lemma DrainedPoolIsWhole(states: seq<System>, events: seq<Event>, i: nat)
    requires Run(states, events) && i < |states|
    requires forall t :: 0 <= t < |states[i].transfers| ==> !states[i].transfers[t].Waiting?
    ensures multiset(states[i].pool.free) == multiset(AllPorts()) && states[i].pool.load == 0
  {
    RunConserves(states, events, i);
    NothingHeld(states[i].transfers);
  }
}
