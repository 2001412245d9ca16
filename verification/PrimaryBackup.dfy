/** The sequential-consistency servers: a primary numbers the writes and broadcasts them,
    every server applies them and acknowledges, and the primary counts acknowledgements in
    slots it recycles. A run is any sequence of handler steps. */
module PrimaryBackup {
  import opened Articles
  import opened Replication
  import opened Sorting
  import opened Text

  /** Address and port of the server a client talked to. */
  datatype Origin = Origin(ip: string, port: string)

  /** What a backup forwards for a client: reply target, text, and where to send the outcome. */
  datatype Request = Request(repId: int, payload: string, origin: Origin)

  datatype Update = Update(slot: nat, write: Write, origin: Origin)

  datatype Ack = Ack(slot: nat, ok: bool, origin: Origin)

  /** ACK_comp, sent to the server a request came from. */
  datatype Completion = Completion(origin: Origin, ok: bool)

  /** A server's article list, the updates on their way to it, and its acknowledgements on
      their way to the primary. */
  datatype Replica = Replica(articles: seq<Article>, inbox: seq<Update>, acks: seq<Ack>)

  /** id and ackNum are the primary's variables. sent, acked and completions record what was
      broadcast, how many acknowledgements of each server were handled, and what was answered. */
  datatype System = System(id: int, ackNum: seq<nat>, replicas: seq<Replica>,
                           sent: seq<Update>, acked: seq<nat>, completions: seq<Completion>)

  /** A read sorts the server's list in place before it is sent; sorted is how that came out. */
  datatype Event = Forward(request: Request) | Deliver(server: nat) | Collect(server: nat)
                 | Read(server: nat, sorted: seq<Article>)

  // ---------- the primary's handlers on its variables ----------

  /** The slot find(begin, end, 0) gives; the length when every slot is in use. */
  function FirstZero(ackNum: seq<nat>): (k: nat)
    ensures k <= |ackNum|
    ensures k < |ackNum| ==> ackNum[k] == 0
    ensures forall i :: 0 <= i < k ==> ackNum[i] != 0
  {
    if ackNum == [] || ackNum[0] == 0 then 0 else 1 + FirstZero(ackNum[1..])
  }

  /** A full table grows by one slot. */
  function Claim(ackNum: seq<nat>): seq<nat> {
    if FirstZero(ackNum) == |ackNum| then ackNum + [0] else ackNum
  }

  /** The search for a slot, and the growing of a full table. */
  method ClaimSlot(ackNum: seq<nat>) returns (slot: nat, claimed: seq<nat>)
    ensures slot == FirstZero(ackNum) && claimed == Claim(ackNum)
    ensures slot < |claimed| && claimed[slot] == 0 && forall i :: 0 <= i < slot ==> claimed[i] != 0
    ensures claimed == if 0 in ackNum then ackNum else ackNum + [0]
  {
    slot, claimed := 0, ackNum;
    while slot < |ackNum| && ackNum[slot] != 0
      invariant slot <= |ackNum|
      invariant forall i :: 0 <= i < slot ==> ackNum[i] != 0
    {
      slot := slot + 1;
    }
    ghost var first := FirstZero(ackNum);
    assert slot == first;
    if slot == |ackNum| {
      claimed := ackNum + [0];
    }
  }

  /** The text a server ends up storing: cutting the origin off takes one character too many. */
  function Stored(repId: int, payload: string): string {
    if payload == "" then IntText(repId) else payload[..|payload| - 1]
  }

  function UpdateFor(s: System, q: Request): Update {
    Update(FirstZero(s.ackNum), Write(s.id + 1, q.repId, Stored(q.repId, q.payload)), q.origin)
  }

  function CollectStep(id: int, ackNum: seq<nat>, servers: nat, a: Ack): (int, seq<nat>)
    requires a.slot < |ackNum|
  {
    if ackNum[a.slot] + 1 == servers then (if a.ok then id else id - 1, ackNum[a.slot := 0])
    else (id, ackNum[a.slot := ackNum[a.slot] + 1])
  }

  // ---------- the system ----------

  function Init(n: nat): System {
    System(0, seq(100, _ => 0), seq(n, _ => Replica([], [], [])), [], seq(n, _ => 0), [])
  }

  ghost predicate Enabled(s: System, e: Event) {
    match e
    case Forward(_) => true
    case Deliver(r) => r < |s.replicas| && s.replicas[r].inbox != []
    case Collect(r) =>
      r < |s.replicas| && r < |s.acked| && s.replicas[r].acks != [] && s.replicas[r].acks[0].slot < |s.ackNum|
    case Read(r, sorted) => r < |s.replicas| && IsSortOf(sorted, s.replicas[r].articles, BY_ID)
  }

  function Send(replicas: seq<Replica>, u: Update): seq<Replica> {
    seq(|replicas|, r requires 0 <= r < |replicas| => replicas[r].(inbox := replicas[r].inbox + [u]))
  }

  function Delivered(p: Replica): Replica
    requires p.inbox != []
  {
    var u := p.inbox[0];
    Replica(Apply(p.articles, u.write), p.inbox[1..], p.acks + [Ack(u.slot, Accepts(p.articles, u.write), u.origin)])
  }

  /** One handler step; a step that is not enabled changes nothing. */
  ghost function Next(s: System, e: Event): System {
    if !Enabled(s, e) then s
    else
      match e
      case Forward(q) =>
        var u := UpdateFor(s, q);
        s.(id := s.id + 1, ackNum := Claim(s.ackNum), replicas := Send(s.replicas, u), sent := s.sent + [u])
      case Deliver(r) =>
        s.(replicas := s.replicas[r := Delivered(s.replicas[r])])
      case Collect(r) =>
        var a := s.replicas[r].acks[0];
        var (id, ackNum) := CollectStep(s.id, s.ackNum, |s.replicas|, a);
        s.(id := id, ackNum := ackNum,
        replicas := s.replicas[r := s.replicas[r].(acks := s.replicas[r].acks[1..])],
        acked := s.acked[r := s.acked[r] + 1],
        completions := s.completions + if s.ackNum[a.slot] + 1 ==
          |s.replicas| then [Completion(a.origin, a.ok)] else [])
      case Read(r, sorted) =>
        s.(replicas := s.replicas[r := s.replicas[r].(articles := sorted)])
  }

  // ---------- counting acknowledgements ----------

  /** How many servers have acknowledged request j, given how many each has acknowledged. */
  function CountAbove(got: seq<nat>, j: int): (n: nat)
    ensures n <= |got|
  {
    if got == [] then 0 else CountAbove(got[..|got| - 1], j) + if got[|got| - 1] > j then 1 else 0
  }

  function Least(got: seq<nat>): (m: nat)
    requires got != []
    ensures forall r :: 0 <= r < |got| ==> m <= got[r]
    ensures exists r :: 0 <= r < |got| && got[r] == m
  {
    if |got| == 1 then got[0]
    else
      var m := Least(got[..|got| - 1]);
      assert exists r :: 0 <= r < |got| - 1 && got[r] == m by {
        var r :| 0 <= r < |got| - 1 && got[..|got| - 1][r] == m;
        assert got[r] == m;
      }
      if got[|got| - 1] < m then got[|got| - 1] else m
  }

  lemma {:induction false} CountBump(got: seq<nat>, r: nat, j: int)
    requires r < |got|
    ensures CountAbove(got[r := got[r] + 1], j) == CountAbove(got, j) + if j == got[r] then 1 else 0
  {
    var got' := got[r := got[r] + 1];
    var n := |got| - 1;
    if r < n {
      CountBump(got[..n], r, j);
      assert got'[..n] == got[..n][r := got[r] + 1];
    } else {
      assert got'[..n] == got[..n];
    }
  }

  lemma {:induction false} CountAll(got: seq<nat>, j: int)
    ensures CountAbove(got, j) == |got| <==> forall r :: 0 <= r < |got| ==> got[r] > j
    ensures CountAbove(got, j) > 0 <==> exists r :: 0 <= r < |got| && got[r] > j
  {
    if got != [] {
      var n := |got| - 1;
      CountAll(got[..n], j);
      assert forall r :: 0 <= r < n ==> got[..n][r] == got[r];
    }
  }

  // ---------- regimes and runs ----------

  predicate InFlight(s: System, j: int)
    requires s.acked != []
  {
    Least(s.acked) <= j < |s.sent|
  }

  ghost predicate SlotHeld(s: System, k: nat)
    requires s.acked != []
  {
    exists j :: InFlight(s, j) && s.sent[j].slot == k
  }

  /** Every request in flight that nobody has acknowledged sits above a slot nobody holds, so the
      next request will not be given its slot. */
  ghost predicate Gate(s: System)
    requires s.acked != []
  {
    forall j :: InFlight(s, j) && CountAbove(s.acked, j) == 0 ==> exists k: nat :: k < s.sent[j].slot && !SlotHeld(s, k)
  }

  /** Anytime: a FORWARD is handled whenever it comes. Gated: only when no request in flight would lose
      its slot. Serial: only when none is in flight. */
  datatype Regime = Anytime | Gated | Serial

  ghost predicate Allowed(s: System, regime: Regime, e: Event) {
    && s.acked != []
    && (e.Forward? && regime == Gated ==> Gate(s))
    && (e.Forward? && regime == Serial ==> Least(s.acked) == |s.sent|)
  }

  /** The state after the events; one that its regime does not allow is held back for good. */
  ghost function Run(n: nat, regime: Regime, events: seq<Event>): (s: System)
    ensures |s.replicas| == n
  {
    if events == [] then Init(n)
    else
      var s := Run(n, regime, events[..|events| - 1]);
      if Allowed(s, regime, events[|events| - 1]) then Next(s, events[|events| - 1]) else s
  }

  // ---------- first invariant, in every regime: replicas follow the broadcast order ----------

  function Log(sent: seq<Update>): (r: seq<Write>)
    ensures |r| == |sent|
  {
    seq(|sent|, i requires 0 <= i < |sent| => sent[i].write)
  }

  lemma {:induction false} LogStep(sent: seq<Update>, k: nat)
    requires k < |sent|
    ensures Replay(Log(sent[..k + 1])) == Apply(Replay(Log(sent[..k])), sent[k].write)
    ensures Sequential(Log(sent[..k])) && sent[k].write.articleId == |Replay(Log(sent[..k]))| + 1 ==>
            Sequential(Log(sent[..k + 1]))
  {
    var l := Log(sent[..k + 1]);
    assert l[..|l| - 1] == Log(sent[..k]);
  }

  /** Whether request j succeeds, at whichever server it is applied. */
  function Succeeds(sent: seq<Update>, j: nat): bool
    requires j < |sent|
  {
    Accepts(Replay(Log(sent[..j])), sent[j].write)
  }

  function AckOf(sent: seq<Update>, j: nat): Ack
    requires j < |sent|
  {
    Ack(sent[j].slot, Succeeds(sent, j), sent[j].origin)
  }

  /** The list holds what log leads to: the same texts under the same IDs, and if a sort by ID can
      change nothing about it, the same list, order and levels included. */
  ghost predicate Holds(articles: seq<Article>, log: seq<Write>) {
    && SameStems(articles, Replay(log))
    && (Rigid(Replay(log), BY_ID) ==> articles == Replay(log))
  }

  /** How many of the broadcast updates a server has applied. */
  function Applied(p: Replica, sent: seq<Update>): int {
    |sent| - |p.inbox|
  }

  /** Updates not delivered yet are the tail of the broadcast order, the list holds what the rest
      leads to, and the acknowledgements under way are those of the last requests applied. */
  ghost predicate ReplicaFollows(p: Replica, sent: seq<Update>, acked: nat) {
    && |p.inbox| + |p.acks| + acked == |sent|
    && p.inbox == sent[Applied(p, sent)..]
    && Holds(p.articles, Log(sent[..Applied(p, sent)]))
    && forall i :: 0 <= i < |p.acks| ==> p.acks[i] == AckOf(sent, acked + i)
  }

  ghost predicate Follows(s: System) {
    && |s.acked| == |s.replicas| > 0
    && forall r :: 0 <= r < |s.replicas| ==> ReplicaFollows(s.replicas[r], s.sent, s.acked[r])
  }

  lemma {:induction false} AckOfGrows(sent: seq<Update>, u: Update, j: nat)
    requires j < |sent|
    ensures AckOf(sent + [u], j) == AckOf(sent, j)
  {
    assert (sent + [u])[..j] == sent[..j];
  }

  lemma {:induction false} FollowsForward(p: Replica, sent: seq<Update>, acked: nat, u: Update)
    requires ReplicaFollows(p, sent, acked)
    ensures ReplicaFollows(p.(inbox := p.inbox + [u]), sent + [u], acked)
  {
    var k := |sent| - |p.inbox|;
    assert (sent + [u])[..k] == sent[..k];
    assert (sent + [u])[k..] == sent[k..] + [u];
    forall i | 0 <= i < |p.acks|
      ensures p.acks[i] == AckOf(sent + [u], acked + i)
    {
      AckOfGrows(sent, u, acked + i);
    }
  }

  lemma {:induction false} FollowsDeliver(p: Replica, sent: seq<Update>, acked: nat)
    requires ReplicaFollows(p, sent, acked) && p.inbox != []
    ensures ReplicaFollows(Delivered(p), sent, acked)
  {
    var k, q := Applied(p, sent), Delivered(p);
    assert p.inbox[0] == sent[k] && p.inbox[1..] == sent[k + 1..];
    DeliverHolds(p.articles, sent, k);
    assert Applied(q, sent) == k + 1;
    assert forall i :: 0 <= i < |p.acks| ==> q.acks[i] == p.acks[i];
  }

  lemma {:induction false} DeliverHolds(articles: seq<Article>, sent: seq<Update>, k: nat)
    requires k < |sent| && Holds(articles, Log(sent[..k]))
    ensures Holds(Apply(articles, sent[k].write), Log(sent[..k + 1]))
    ensures Accepts(articles, sent[k].write) == Succeeds(sent, k)
  {
    LogStep(sent, k);
    StepHolds(articles, Replay(Log(sent[..k])), sent[k].write);
  }

  /** A write keeps a list in step, and is accepted or refused alike. */
  lemma {:induction false} StepHolds(articles: seq<Article>, replayed: seq<Article>, w: Write)
    requires SameStems(articles, replayed) && (Rigid(replayed, BY_ID) ==> articles == replayed)
    ensures Accepts(articles, w) <==> Accepts(replayed, w)
    ensures SameStems(Apply(articles, w), Apply(replayed, w))
    ensures Rigid(Apply(replayed, w), BY_ID) ==> Apply(articles, w) == Apply(replayed, w)
  {
    StemsAccept(articles, replayed, w);
    if Rigid(Apply(replayed, w), BY_ID) {
      RigidPrefix(Apply(replayed, w), |replayed|, BY_ID);
      assert Apply(replayed, w)[..|replayed|] == replayed;
    }
  }

  lemma {:induction false} FollowsRead(p: Replica, sent: seq<Update>, acked: nat, sorted: seq<Article>)
    requires ReplicaFollows(p, sent, acked) && IsSortOf(sorted, p.articles, BY_ID)
    ensures ReplicaFollows(p.(articles := sorted), sent, acked)
  {
    var replayed := Replay(Log(sent[..Applied(p, sent)]));
    StemsPermute(sorted, p.articles);
    if Rigid(replayed, BY_ID) {
      SortOfRigid(sorted, replayed, BY_ID);
    }
  }

  lemma {:induction false} FollowsCollect(p: Replica, sent: seq<Update>, acked: nat)
    requires ReplicaFollows(p, sent, acked) && p.acks != []
    ensures ReplicaFollows(p.(acks := p.acks[1..]), sent, acked + 1)
  {
  }

  lemma {:induction false} FollowsNext(s: System, e: Event)
    requires Follows(s)
    ensures Follows(Next(s, e)) && s.sent <= Next(s, e).sent
  {
    var s' := Next(s, e);
    if Enabled(s, e) {
      match e
      case Forward(q) =>
        forall r | 0 <= r < |s.replicas|
          ensures ReplicaFollows(s'.replicas[r], s'.sent, s'.acked[r])
        {
          FollowsForward(s.replicas[r], s.sent, s.acked[r], UpdateFor(s, q));
        }
      case Deliver(r) =>
        FollowsDeliver(s.replicas[r], s.sent, s.acked[r]);
      case Collect(r) =>
        FollowsCollect(s.replicas[r], s.sent, s.acked[r]);
      case Read(r, sorted) =>
        FollowsRead(s.replicas[r], s.sent, s.acked[r], sorted);
    }
  }

  /** In every interleaving, reads included, every server holds what a prefix of the broadcast order
      leads to, and each acknowledgement it sends carries the same flag as any other server's. */
  lemma {:induction false} ReplicasFollow(n: nat, regime: Regime, events: seq<Event>)
    requires n > 0
    ensures Follows(Run(n, regime, events))
  {
    if events == [] {
      var s := Init(n);
      assert Log(s.sent[..0]) == [];
    } else {
      ReplicasFollow(n, regime, events[..|events| - 1]);
      FollowsNext(Run(n, regime, events[..|events| - 1]), events[|events| - 1]);
    }
  }
}
