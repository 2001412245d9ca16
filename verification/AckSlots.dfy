/** Acknowledgement counting at the primary: slots are recycled, and a slot is only marked as
    taken by the first acknowledgement that comes in for it. */
module AckSlots {
  import opened PrimaryBackup

  /** The slot each request was given, the counters, and how many acknowledgements of each
      server were handled. Requests are acknowledged by each server in broadcast order. */
  datatype Table = Table(slots: seq<nat>, ackNum: seq<nat>, got: seq<nat>)

  ghost predicate Flying(t: Table, j: int)
    requires t.got != []
  {
    Least(t.got) <= j < |t.slots|
  }

  ghost predicate Distinct(t: Table)
    requires t.got != []
  {
    forall i, j :: Flying(t, i) && Flying(t, j) && i != j ==> t.slots[i] != t.slots[j]
  }

  /** The slot of each request in flight counts exactly that request's acknowledgements. */
  ghost predicate OwnCount(t: Table)
    requires t.got != []
  {
    forall j :: Flying(t, j) ==> t.slots[j] < |t.ackNum| && t.ackNum[t.slots[j]] == CountAbove(t.got, j)
  }

  ghost predicate Held(t: Table, k: nat)
    requires t.got != []
  {
    exists j :: Flying(t, j) && t.slots[j] == k
  }

  /** A slot no request in flight holds counts nothing. */
  ghost predicate OthersZero(t: Table)
    requires t.got != []
  {
    forall k :: 0 <= k < |t.ackNum| && t.ackNum[k] > 0 ==> Held(t, k)
  }

  ghost predicate TableOk(t: Table) {
    && t.got != [] && (forall r :: 0 <= r < |t.got| ==> t.got[r] <= |t.slots|)
    && Distinct(t) && OwnCount(t) && OthersZero(t)
  }

  /** A FORWARD takes the first slot that counts nothing. */
  function Put(t: Table): Table {
    Table(t.slots + [FirstZero(t.ackNum)], Claim(t.ackNum), t.got)
  }

  /** An acknowledgement of server r is counted; the slot is given back at the last one. */
  function Bump(t: Table, r: nat): Table
    requires r < |t.got| && t.got[r] < |t.slots| && t.slots[t.got[r]] < |t.ackNum|
  {
    var k := t.slots[t.got[r]];
    Table(t.slots, t.ackNum[k := if t.ackNum[k] + 1 == |t.got| then 0 else t.ackNum[k] + 1], t.got[r := t.got[r] + 1])
  }

  lemma {:induction false} PutFlying(t: Table)
    requires TableOk(t)
    ensures forall j :: Flying(Put(t), j) <==> Flying(t, j) || j == |t.slots|
    ensures forall j :: Flying(t, j) ==> Put(t).slots[j] == t.slots[j]
    ensures Put(t).slots[|t.slots|] == FirstZero(t.ackNum)
  {
  }

  /** Taking the first zero slot is safe exactly when every request in flight without an
      acknowledgement sits above a slot that nobody holds. */
  lemma {:induction false} PutDistinctIff(t: Table)
    requires TableOk(t)
    ensures Distinct(Put(t)) <==>
            forall j :: Flying(t, j) && CountAbove(t.got, j) == 0 ==> exists k :: 0 <= k < t.slots[j] && !Held(t, k)
  {
    var f, n := FirstZero(t.ackNum), |t.slots|;
    PutFlying(t);
    if j :| Flying(t, j) && t.slots[j] == f {
      assert CountAbove(t.got, j) == 0;
      assert forall k :: 0 <= k < f ==> t.ackNum[k] > 0;
      assert Flying(Put(t), n) && Flying(Put(t), j);
      assert !Distinct(Put(t));
    } else {
      assert !Held(t, f);
      forall j | Flying(t, j) && CountAbove(t.got, j) == 0
        ensures exists k :: 0 <= k < t.slots[j] && !Held(t, k)
      {
        assert t.ackNum[t.slots[j]] == 0;
        assert f < t.slots[j];
      }
    }
  }

  /** And then the table as a whole stays right. */
  lemma {:induction false} PutOk(t: Table)
    requires TableOk(t) && Distinct(Put(t))
    ensures TableOk(Put(t))
  {
    var t' := Put(t);
    PutFlying(t);
    CountAll(t.got, |t.slots|);
    forall k | 0 <= k < |t'.ackNum| && t'.ackNum[k] > 0
      ensures Held(t', k)
    {
      var j :| Flying(t, j) && t.slots[j] == k;
      assert Flying(t', j);
    }
  }

  /** The count reaches the number of servers exactly when the request is the oldest in flight
      and this is the last acknowledgement it was waiting for. */
  lemma {:induction false} LastAckIff(got: seq<nat>, r: nat)
    requires r < |got|
    ensures
      var got' := got[r := got[r] + 1];
      && CountAbove(got', got[r]) == CountAbove(got, got[r]) + 1
      && (CountAbove(got', got[r]) == |got| ==> Least(got) == got[r] && Least(got') == got[r] + 1)
      && (CountAbove(got', got[r]) != |got| ==> Least(got') == Least(got))
  {
    var got' := got[r := got[r] + 1];
    CountAll(got', got[r]);
    CountBump(got, r, got[r]);
    var x :| 0 <= x < |got| && got[x] == Least(got);
    var y :| 0 <= y < |got'| && got'[y] == Least(got');
    assert got'[x] >= got[x] && got'[y] >= got[y];
  }

  lemma {:induction false} InUse(t: Table, r: nat)
    requires TableOk(t) && r < |t.got| && t.got[r] < |t.slots|
    ensures Flying(t, t.got[r]) && t.slots[t.got[r]] < |t.ackNum|
    ensures t.ackNum[t.slots[t.got[r]]] == CountAbove(t.got, t.got[r])
  {
    assert Flying(t, t.got[r]);
  }

  /** Only the request whose last acknowledgement came in stops being in flight. */
  lemma {:induction false} BumpFlying(t: Table, r: nat)
    requires r < |t.got| && t.got[r] < |t.slots| && t.slots[t.got[r]] < |t.ackNum|
    ensures forall j :: Flying(Bump(t, r), j) <==>
              Flying(t, j) && (j == t.got[r] ==> CountAbove(t.got, t.got[r]) + 1 != |t.got|)
  {
    LastAckIff(t.got, r);
  }

  lemma {:induction false} BumpCounts(t: Table, r: nat)
    requires TableOk(t) && r < |t.got| && t.got[r] < |t.slots| && t.slots[t.got[r]] < |t.ackNum|
    ensures OwnCount(Bump(t, r))
  {
    var t' := Bump(t, r);
    InUse(t, r);
    BumpFlying(t, r);
    forall j | Flying(t', j)
      ensures t'.slots[j] < |t'.ackNum| && t'.ackNum[t'.slots[j]] == CountAbove(t'.got, j)
    {
      CountBump(t.got, r, j);
    }
  }

  lemma {:induction false} BumpOk(t: Table, r: nat)
    requires TableOk(t) && r < |t.got| && t.got[r] < |t.slots|
    ensures t.slots[t.got[r]] < |t.ackNum| && t.ackNum[t.slots[t.got[r]]] == CountAbove(t.got, t.got[r])
    ensures TableOk(Bump(t, r))
  {
    InUse(t, r);
    BumpFlying(t, r);
    BumpCounts(t, r);
    var j0, t' := t.got[r], Bump(t, r);
    forall k | 0 <= k < |t'.ackNum| && t'.ackNum[k] > 0
      ensures Held(t', k)
    {
      if k != t.slots[j0] {
        assert t.ackNum[k] > 0;
        var j :| Flying(t, j) && t.slots[j] == k;
        assert Flying(t', j);
      } else {
        assert Flying(t', j0);
      }
    }
  }

  // ---------- the table of a system, and what the primary has answered ----------

  function Slots(sent: seq<Update>): (r: seq<nat>)
    ensures |r| == |sent|
  {
    seq(|sent|, i requires 0 <= i < |sent| => sent[i].slot)
  }

  function TableOf(s: System): Table {
    Table(Slots(s.sent), s.ackNum, s.acked)
  }

  /** The answers sent are those of the first requests, one each, in broadcast order. */
  ghost predicate Answered(sent: seq<Update>, answers: seq<Completion>) {
    && |answers| <= |sent|
    && forall j :: 0 <= j < |answers| ==> answers[j] == Completion(sent[j].origin, Succeeds(sent, j))
  }

  ghost predicate Counted(s: System) {
    Follows(s) && TableOk(TableOf(s)) && Answered(s.sent, s.completions) && |s.completions| == Least(s.acked)
  }

  lemma {:induction false} AnsweredGrows(sent: seq<Update>, u: Update, answers: seq<Completion>)
    requires Answered(sent, answers)
    ensures Answered(sent + [u], answers)
  {
    forall j | 0 <= j < |answers|
      ensures answers[j] == Completion((sent + [u])[j].origin, Succeeds(sent + [u], j))
    {
      AckOfGrows(sent, u, j);
    }
  }

  lemma {:induction false} GateIff(s: System, q: Request)
    requires s.acked != [] && TableOk(TableOf(s))
    ensures TableOf(Next(s, Forward(q))) == Put(TableOf(s))
    ensures Distinct(Put(TableOf(s))) <==> Gate(s)
  {
    var t := TableOf(s);
    assert forall j :: Flying(t, j) <==> InFlight(s, j);
    assert forall k: nat :: Held(t, k) <==> SlotHeld(s, k) by { HeldSame(s); }
    PutDistinctIff(t);
    assert TableOf(Next(s, Forward(q))) == Put(t);
  }

  lemma {:induction false} HeldSame(s: System)
    requires s.acked != []
    ensures forall k: nat :: Held(TableOf(s), k) <==> SlotHeld(s, k)
  {
    forall k: nat
      ensures Held(TableOf(s), k) <==> SlotHeld(s, k)
    {
      if j :| Flying(TableOf(s), j) && TableOf(s).slots[j] == k {
        assert InFlight(s, j) && s.sent[j].slot == k;
      }
      if j :| InFlight(s, j) && s.sent[j].slot == k {
        assert Flying(TableOf(s), j) && TableOf(s).slots[j] == k;
      }
    }
  }

  /** The gate is exactly what a FORWARD must wait for. */
  lemma {:induction false} ForwardCountedIff(s: System, q: Request)
    requires Counted(s)
    ensures Counted(Next(s, Forward(q))) <==> Gate(s)
  {
    GateIff(s, q);
    if Gate(s) {
      FollowsNext(s, Forward(q));
      PutOk(TableOf(s));
      AnsweredGrows(s.sent, UpdateFor(s, q), s.completions);
    }
  }

  /** The acknowledgement a server has under way is for the next request it has not
      acknowledged, so the slot it names is that request's. */
  lemma {:induction false} CollectedRequest(s: System, r: nat)
    requires Counted(s) && r < |s.replicas| && s.replicas[r].acks != []
    ensures s.acked[r] < |s.sent| && s.replicas[r].acks[0] == AckOf(s.sent, s.acked[r])
    ensures Enabled(s, Collect(r))
  {
    assert ReplicaFollows(s.replicas[r], s.sent, s.acked[r]);
    BumpOk(TableOf(s), r);
  }

  lemma {:induction false} CollectEffect(s: System, r: nat)
    requires s.acked != [] && |s.acked| == |s.replicas| && r < |s.replicas|
    requires s.acked[r] < |s.sent| && s.sent[s.acked[r]].slot < |s.ackNum|
    requires s.replicas[r].acks != [] && s.replicas[r].acks[0] == AckOf(s.sent, s.acked[r])
    ensures
      var s', k := Next(s, Collect(r)), s.sent[s.acked[r]].slot;
      && TableOf(s') == Bump(TableOf(s), r) && s'.sent == s.sent
      && (s.ackNum[k] + 1 == |s.acked| ==>
            s'.completions == s.completions + [Completion(s.sent[s.acked[r]].origin, Succeeds(s.sent, s.acked[r]))])
      && (s.ackNum[k] + 1 != |s.acked| ==> s'.completions == s.completions)
      && s'.id == if s.ackNum[k] + 1 == |s.acked| && !Succeeds(s.sent, s.acked[r]) then s.id - 1 else s.id
  {
  }

  lemma {:induction false} CollectTable(s: System, r: nat)
    requires s.acked != [] && |s.acked| == |s.replicas| && TableOk(TableOf(s)) && r < |s.replicas|
    requires s.acked[r] < |s.sent| && s.replicas[r].acks != [] && s.replicas[r].acks[0] == AckOf(s.sent, s.acked[r])
    ensures TableOk(TableOf(Next(s, Collect(r)))) && Next(s, Collect(r)).sent == s.sent
    ensures CollectedAs(s, Next(s, Collect(r)))
  {
    InUse(TableOf(s), r);
    BumpOk(TableOf(s), r);
    LastAckIff(s.acked, r);
    CollectEffect(s, r);
    assert Next(s, Collect(r)).acked == Bump(TableOf(s), r).got;
  }

  /** Either the oldest request in flight still is, or it was answered, and its ID taken back on failure. */
  ghost predicate CollectedAs(s: System, s': System)
    requires s.acked != []
  {
    var m := Least(s.acked);
    && s'.acked != []
    && (Least(s'.acked) == m ==> s'.completions == s.completions && s'.id == s.id)
    && (Least(s'.acked) != m ==>
          && Least(s'.acked) == m + 1 <= |s.sent|
          && s'.completions == s.completions + [Completion(s.sent[m].origin, Succeeds(s.sent, m))]
          && s'.id == if Succeeds(s.sent, m) then s.id else s.id - 1)
  }

  lemma {:induction false} CollectCounted(s: System, r: nat)
    requires Counted(s) && r < |s.replicas| && s.replicas[r].acks != []
    ensures Counted(Next(s, Collect(r)))
  {
    CollectedRequest(s, r);
    CollectTable(s, r);
    FollowsNext(s, Collect(r));
    AnsweredOneMore(s.sent, s.completions);
  }

  lemma {:induction false} AnsweredOneMore(sent: seq<Update>, answers: seq<Completion>)
    requires Answered(sent, answers)
    ensures |answers| < |sent| ==>
              Answered(sent, answers + [Completion(sent[|answers|].origin, Succeeds(sent, |answers|))])
  {
  }

  /** Deliveries and reads leave the table alone. */
  lemma {:induction false} QuietCounted(s: System, e: Event)
    requires Counted(s) && (e.Deliver? || e.Read?)
    ensures Counted(Next(s, e))
  {
    FollowsNext(s, e);
    assert TableOf(Next(s, e)) == TableOf(s);
  }

  lemma {:induction false} EmptyTableOk(ackNum: seq<nat>, got: seq<nat>)
    requires got != [] && (forall r :: 0 <= r < |got| ==> got[r] == 0) && (forall k :: 0 <= k < |ackNum| ==>
             ackNum[k] == 0)
    ensures TableOk(Table([], ackNum, got)) && Least(got) == 0
  {
    var r :| 0 <= r < |got| && got[r] == Least(got);
  }

  lemma {:induction false} InitCounted(n: nat)
    requires n > 0
    ensures Counted(Init(n))
  {
    ReplicasFollow(n, Gated, []);
    EmptyTableOk(Init(n).ackNum, Init(n).acked);
  }

  /** Over every run in which a FORWARD waits for the gate: slots in flight are distinct, each counts
      its own request, and the answers are one per request, in order, each with the flag all
      servers agree on. */
  lemma {:induction false} GatedRunsCount(n: nat, regime: Regime, events: seq<Event>)
    requires n > 0 && regime != Anytime
    ensures Counted(Run(n, regime, events))
  {
    if events == [] {
      InitCounted(n);
    } else {
      var b, e := events[..|events| - 1], events[|events| - 1];
      GatedRunsCount(n, regime, b);
      if Allowed(Run(n, regime, b), regime, e) {
        CountedNext(Run(n, regime, b), regime, e);
      }
    }
  }

  lemma {:induction false} CountedNext(s: System, regime: Regime, e: Event)
    requires Counted(s) && regime != Anytime && Allowed(s, regime, e)
    ensures Counted(Next(s, e))
  {
    assert forall j :: InFlight(s, j) ==> regime != Serial || !e.Forward?;
    if Enabled(s, e) {
      match e
      case Forward(q) => ForwardCountedIff(s, q);
      case Collect(r) => CollectCounted(s, r);
      case _ => QuietCounted(s, e);
    }
  }

  /** No answer goes out before every server has applied the request and all before it. */
  lemma {:induction false} AnswersComeLast(n: nat, regime: Regime, events: seq<Event>, j: nat, r: nat)
    requires n > 0 && regime != Anytime
    requires j < |Run(n, regime, events).completions| && r < |Run(n, regime, events).replicas|
    ensures
      var s := Run(n, regime, events);
      exists m :: j < m <= |s.sent| && Holds(s.replicas[r].articles, Log(s.sent[..m]))
  {
    GatedRunsCount(n, regime, events);
    var s := Run(n, regime, events);
    assert ReplicaFollows(s.replicas[r], s.sent, s.acked[r]);
    var m := Applied(s.replicas[r], s.sent);
    assert j < m && Holds(s.replicas[r].articles, Log(s.sent[..m]));
  }
}
