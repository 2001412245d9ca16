/** Runs of the primary-backup protocol in which something goes wrong. */
module Scenarios {
  import opened PrimaryBackup
  import opened ArticleIds
  import opened ReadOrder
  import opened Articles
  import opened Sorting

  // ---------- an answer before anything is applied elsewhere, and an ID given twice ----------

  function EarlyEvents(q: Request, q': Request): seq<Event> {
    [Forward(q)] + [Forward(q')] + [Deliver(0)] + [Deliver(0)] + [Collect(0)] + [Collect(0)]
  }

  /** Two requests broadcast back to back share slot 0, and server 0's two acknowledgements make
      the primary answer although server 1 has applied nothing. */
  lemma {:induction false} UngatedAnswersEarly(q: Request, q': Request)
    requires q.repId == -1 && q'.repId == -1
    ensures
      var s := Run(2, Anytime, EarlyEvents(q, q'));
      && |s.replicas| == 2 && |s.sent| == 2 && s.sent[0].slot == s.sent[1].slot
      && s.completions == [Completion(q'.origin, true)]
      && s.replicas[1].articles == [] && s.replicas[1].inbox == s.sent
  {
    var e2 := [Forward(q)] + [Forward(q')];
    EarlyHead(q, q');
    EarlyTail(Run(2, Anytime, e2), e2);
  }

  lemma {:induction false} EarlyHead(q: Request, q': Request)
    requires q.repId == -1 && q'.repId == -1
    ensures
      var s := Run(2, Anytime, [Forward(q)] + [Forward(q')]);
      && |s.sent| == 2 && s.sent[0].slot == 0 && s.sent[1].slot == 0 && s.sent[0].write.repId == -1
         && s.sent[1].write.repId == -1
      && s.sent[0].origin == q.origin && s.sent[1].origin == q'.origin
      && s.replicas == [Replica([], s.sent, []), Replica([], s.sent, [])]
      && s.acked == [0, 0] && |s.ackNum| == 100 && s.ackNum[0] == 0 && s.completions == []
  {
    RunStep(2, Anytime, [], Forward(q));
    assert [] + [Forward(q)] == [Forward(q)];
    RunStep(2, Anytime, [Forward(q)], Forward(q'));
  }

  lemma {:induction false} EarlyTail(s2: System, e2: seq<Event>)
    requires s2 == Run(2, Anytime, e2)
    requires |s2.sent| == 2 && s2.sent[0].slot == 0 && s2.sent[1].slot == 0
    requires s2.sent[0].write.repId == -1 && s2.sent[1].write.repId == -1
    requires s2.replicas == [Replica([], s2.sent, []), Replica([], s2.sent, [])]
    requires s2.acked == [0, 0] && |s2.ackNum| == 100 && s2.ackNum[0] == 0 && s2.completions == []
    ensures
      var s := Run(2, Anytime, e2 + [Deliver(0)] + [Deliver(0)] + [Collect(0)] + [Collect(0)]);
      && s.sent == s2.sent && s.completions == [Completion(s2.sent[1].origin, true)]
      && |s.replicas| == 2 && s.replicas[1] == s2.replicas[1]
  {
    RunStep(2, Anytime, e2, Deliver(0));
    var s3 := Next(s2, Deliver(0));
    RunStep(2, Anytime, e2 + [Deliver(0)], Deliver(0));
    var s4 := Next(s3, Deliver(0));
    assert s4.replicas[0].acks == [Ack(0, true, s2.sent[0].origin), Ack(0, true, s2.sent[1].origin)];
    RunStep(2, Anytime, e2 + [Deliver(0)] + [Deliver(0)], Collect(0));
    var s5 := Next(s4, Collect(0));
    assert s5.ackNum[0] == 1 && s5.replicas[0].acks == [Ack(0, true, s2.sent[1].origin)];
    RunStep(2, Anytime, e2 + [Deliver(0)] + [Deliver(0)] + [Collect(0)], Collect(0));
  }

  function ReuseEvents(reply: Request, post: Request): seq<Event> {
    [Forward(reply)] + [Deliver(0)] + [Collect(0)] + [Forward(post)] + [Deliver(1)] + [Collect(1)] + [Deliver(0)]
      + [Collect(0)]
  }

  /** A failing reply overtaken by a post: when the reply is answered the post holds ID 2, the
      counter goes back to 1, and the next request is allowed and will be given ID 2 again. */
  lemma {:induction false} RevocationReusesId(reply: Request, post: Request, q: Request)
    requires reply.repId != -1 && post.repId == -1
    ensures
      var s := Run(2, Gated, ReuseEvents(reply, post));
      && Allowed(s, Gated, Forward(q)) && |s.sent| == 2
      && s.sent[1].write.articleId == 2 && Succeeds(s.sent, 1)
      && UpdateFor(s, q).write.articleId == 2
  {
    var e3 := [Forward(reply)] + [Deliver(0)] + [Collect(0)];
    ReuseHead(reply);
    ReusePost(Run(2, Gated, e3), e3, post);
    ReuseTail(Run(2, Gated, e3 + [Forward(post)]), e3 + [Forward(post)], q);
  }

  lemma {:induction false} ReuseHead(reply: Request)
    requires reply.repId != -1
    ensures
      var s := Run(2, Gated, [Forward(reply)] + [Deliver(0)] + [Collect(0)]);
      && |s.sent| == 1 && s.sent[0].slot == 0 && s.sent[0].write.repId != -1
      && s.acked == [1, 0] && s.id == 1 && |s.ackNum| == 100 && s.ackNum[0] == 1 && s.ackNum[1] == 0
      && s.replicas == [Replica([], [], []), Replica([], s.sent, [])]
  {
    var e1 := [Forward(reply)];
    var s0 := Run(2, Gated, []);
    RunStep(2, Gated, [], Forward(reply));
    assert [] + e1 == e1;
    GateOfTwo(s0, [0, 0]);
    var s1 := Next(s0, Forward(reply));
    var u := UpdateFor(s0, reply);
    assert s1.sent == [u] && s1.replicas == [Replica([], [u], []), Replica([], [u], [])] && u.slot == 0;
    ReuseFirst(s1, e1);
  }

  lemma {:induction false} ReuseFirst(s1: System, e1: seq<Event>)
    requires s1 == Run(2, Gated, e1) && |s1.sent| == 1 && s1.sent[0].slot == 0 && s1.sent[0].write.repId != -1
    requires s1.replicas == [Replica([], s1.sent, []), Replica([], s1.sent, [])]
    requires s1.acked == [0, 0] && s1.id == 1 && |s1.ackNum| == 100 && s1.ackNum[0] == 0 && s1.ackNum[1] == 0
    ensures
      var s := Run(2, Gated, e1 + [Deliver(0)] + [Collect(0)]);
      && s.sent == s1.sent && s.acked == [1, 0] && s.id == 1
      && |s.ackNum| == 100 && s.ackNum[0] == 1 && s.ackNum[1] == 0
      && s.replicas == [Replica([], [], []), Replica([], s1.sent, [])]
  {
    DeliverStep(s1, e1, 0);
    var s2 := Run(2, Gated, e1 + [Deliver(0)]);
    assert s2.replicas[0] == Replica([], [], [Ack(0, false, s1.sent[0].origin)]);
    CollectOne(s2, e1 + [Deliver(0)], 0);
  }

  lemma {:induction false} DeliverStep(s: System, events: seq<Event>, r: nat)
    requires s == Run(2, Gated, events) && s.acked != [] && r < |s.replicas| && s.replicas[r].inbox != []
    ensures Run(2, Gated, events + [Deliver(r)]) == s.(replicas := s.replicas[r := Delivered(s.replicas[r])])
  {
    RunStep(2, Gated, events, Deliver(r));
  }

  lemma {:induction false} CollectOne(s: System, events: seq<Event>, r: nat)
    requires s == Run(2, Gated, events) && |s.acked| == |s.replicas| == 2 && r < 2
    requires |s.replicas[r].acks| == 1 && s.replicas[r].acks[0].slot < |s.ackNum|
    ensures
      var s', a := Run(2, Gated, events + [Collect(r)]), s.replicas[r].acks[0];
      && s'.sent == s.sent && s'.acked == s.acked[r := s.acked[r] + 1]
      && s'.replicas == s.replicas[r := s.replicas[r].(acks := [])]
      && s'.id == (if s.ackNum[a.slot] == 1 && !a.ok then s.id - 1 else s.id)
      && s'.ackNum == s.ackNum[a.slot := if s.ackNum[a.slot] == 1 then 0 else s.ackNum[a.slot] + 1]
  {
    RunStep(2, Gated, events, Collect(r));
    assert s.replicas[r].acks[1..] == [];
  }

  lemma {:induction false} ReusePost(s3: System, e3: seq<Event>, post: Request)
    requires s3 == Run(2, Gated, e3) && post.repId == -1
    requires |s3.sent| == 1 && s3.sent[0].slot == 0 && s3.sent[0].write.repId != -1
    requires s3.acked == [1, 0] && s3.id == 1 && |s3.ackNum| == 100 && s3.ackNum[0] == 1 && s3.ackNum[1] == 0
    requires s3.replicas == [Replica([], [], []), Replica([], s3.sent, [])]
    ensures
      var s := Run(2, Gated, e3 + [Forward(post)]);
      && |s.sent| == 2 && s.acked == [1, 0] && s.id == 2 && |s.ackNum| >= 2 && s.ackNum[0] == 1 && s.ackNum[1] == 0
      && |s.replicas| == 2 && s.sent[0].slot == 0 && s.sent[1].slot == 1
      && s.replicas[1] == Replica([], s.sent, []) && s.replicas[0] == Replica([], s.sent[1..], [])
      && s.sent[0].write.repId != -1 && s.sent[1].write.repId == -1 && s.sent[1].write.articleId == 2
  {
    GateOfTwo(s3, [1, 0]);
    RunStep(2, Gated, e3, Forward(post));
    var k := FirstZero(s3.ackNum);
    assert k <= 1 && k != 0;
  }

  lemma {:induction false} GateOfTwo(s: System, acked: seq<nat>)
    requires s.acked == acked && |acked| == 2 && (acked[0] == |s.sent| || acked[1] == |s.sent|)
    ensures Gate(s)
  {
    forall j | InFlight(s, j)
      ensures CountAbove(s.acked, j) > 0
    {
      CountAll(s.acked, j);
    }
  }

  lemma {:induction false} ReuseTail(s4: System, e4: seq<Event>, q: Request)
    requires s4 == Run(2, Gated, e4)
    requires |s4.sent| == 2 && s4.acked == [1, 0] && s4.id == 2 && |s4.ackNum| >= 2 && s4.ackNum[0] == 1
             && s4.ackNum[1] == 0
    requires |s4.replicas| == 2 && s4.sent[0].slot == 0 && s4.sent[1].slot == 1
    requires s4.replicas[1] == Replica([], s4.sent, []) && s4.replicas[0] == Replica([], s4.sent[1..], [])
    requires s4.sent[0].write.repId != -1 && s4.sent[1].write.repId == -1 && s4.sent[1].write.articleId == 2
    ensures
      var s := Run(2, Gated, e4 + [Deliver(1)] + [Collect(1)] + [Deliver(0)] + [Collect(0)]);
      Allowed(s, Gated, Forward(q)) && s.sent == s4.sent && s.id == 1 && Succeeds(s.sent, 1)
  {
    DeliverStep(s4, e4, 1);
    var s5 := Run(2, Gated, e4 + [Deliver(1)]);
    assert s5.replicas[1].acks == [Ack(0, false, s4.sent[0].origin)];
    CollectOne(s5, e4 + [Deliver(1)], 1);
    var s6 := Run(2, Gated, e4 + [Deliver(1)] + [Collect(1)]);
    assert s6.id == 1 && s6.acked == [1, 1];
    DeliverStep(s6, e4 + [Deliver(1)] + [Collect(1)], 0);
    var s7 := Run(2, Gated, e4 + [Deliver(1)] + [Collect(1)] + [Deliver(0)]);
    assert s7.replicas[0].acks == [Ack(1, true, s4.sent[1].origin)];
    CollectOne(s7, e4 + [Deliver(1)] + [Collect(1)] + [Deliver(0)], 0);
    var s8 := Run(2, Gated, e4 + [Deliver(1)] + [Collect(1)] + [Deliver(0)] + [Collect(0)]);
    assert s8.acked == [2, 1];
    GateOfTwo(s8, [2, 1]);
  }

  // ---------- IDs out of order without any reuse ----------

  function DisorderEvents(a: Request, b: Request, p: Request, q: Request): seq<Event> {
    [Forward(a)] + [Forward(b)] + [Forward(p)] + [Deliver(0)] + [Deliver(0)] + [Deliver(0)]
      + [Collect(0)] + [Collect(0)] + [Collect(0)] + [Forward(q)] + [Deliver(0)]
  }

  /** One server, two failing replies and a post handed in together, and one more post after the answers:
      the posts get the IDs 3 and 2 in this order, each ID once, and two reads of the one server
      disagree: the first shows the post with ID 3, the second puts the other in front. */
  lemma {:induction false} DisorderRun(a: Request, b: Request, p: Request, q: Request)
    requires a.repId == b.repId == 7 && p.repId == q.repId == -1
    ensures
      var sent := Run(1, Anytime, DisorderEvents(a, b, p, q)).sent;
      && |sent| == 4 && !Succeeds(sent, 0) && !Succeeds(sent, 1) && Succeeds(sent, 2) && Succeeds(sent, 3)
      && sent[2].write.articleId == 3 && sent[3].write.articleId == 2
    ensures !AllReadsAgree(1, Anytime, DisorderEvents(a, b, p, q))
  {
    var e3 := [Forward(a)] + [Forward(b)] + [Forward(p)];
    DisorderSent(a, b, p);
    var e6 := e3 + [Deliver(0)] + [Deliver(0)] + [Deliver(0)];
    DisorderApplied(Run(1, Anytime, e3), e3);
    var e9 := e6 + [Collect(0)] + [Collect(0)] + [Collect(0)];
    DisorderAnswered(Run(1, Anytime, e6), e6);
    DisorderLast(Run(1, Anytime, e9), e9, q);
    var events := DisorderEvents(a, b, p, q);
    var s := Run(1, Anytime, events);
    TwoFailures(s.sent);
    ReplicasFollow(1, Anytime, events);
    RigidPairs(s.sent, 4);
    assert !InTurn(StoredAs(s.sent, 2), StoredAs(s.sent, 3), BY_ID);
    assert !RigidAfter(1, Anytime, events, 0);
    ReadsAgreeIff(1, Anytime, events);
  }

  /** Two replies to article 7, a post, and whatever follows. */
  ghost predicate RepliesThenPost(sent: seq<Update>) {
    && |sent| >= 3 && sent[0].slot == 0 && sent[1].slot == 0 && sent[2].slot == 0
    && sent[0].write.repId == sent[1].write.repId == 7 && sent[2].write.repId == -1
    && sent[2].write.articleId == 3
  }

  lemma {:induction false} TwoFailures(sent: seq<Update>)
    requires RepliesThenPost(sent)
    ensures !Succeeds(sent, 0) && !Succeeds(sent, 1) && Succeeds(sent, 2)
  {
    assert Log(sent[..0]) == [];
    LogStep(sent, 0);
  }

  lemma {:induction false} DisorderSent(a: Request, b: Request, p: Request)
    requires a.repId == b.repId == 7 && p.repId == -1
    ensures
      var s := Run(1, Anytime, [Forward(a)] + [Forward(b)] + [Forward(p)]);
      && |s.sent| == 3 && RepliesThenPost(s.sent) && s.replicas == [Replica([], s.sent, [])]
      && s.id == 3 && s.acked == [0] && |s.ackNum| == 100 && s.ackNum[0] == 0 && s.completions == []
  {
    RunStep(1, Anytime, [], Forward(a));
    assert [] + [Forward(a)] == [Forward(a)];
    RunStep(1, Anytime, [Forward(a)], Forward(b));
    RunStep(1, Anytime, [Forward(a)] + [Forward(b)], Forward(p));
  }

  lemma {:induction false} DisorderApplied(s3: System, e3: seq<Event>)
    requires s3 == Run(1, Anytime, e3) && |s3.sent| == 3 && RepliesThenPost(s3.sent)
    requires s3.replicas == [Replica([], s3.sent, [])] && s3.acked == [0]
    ensures
      var s := Run(1, Anytime, e3 + [Deliver(0)] + [Deliver(0)] + [Deliver(0)]);
      && s.(replicas := s3.replicas) == s3
      && |s.replicas| == 1 && s.replicas[0].inbox == [] && |s.replicas[0].acks| == 3
      && (forall i :: 0 <= i < 3 ==> s.replicas[0].acks[i].slot == 0 && s.replicas[0].acks[i].ok == (i == 2))
  {
    DeliverOne(s3, e3);
    DeliverOne(Run(1, Anytime, e3 + [Deliver(0)]), e3 + [Deliver(0)]);
    DeliverOne(Run(1, Anytime, e3 + [Deliver(0)] + [Deliver(0)]), e3 + [Deliver(0)] + [Deliver(0)]);
  }

  lemma {:induction false} DeliverOne(s: System, events: seq<Event>)
    requires s == Run(1, Anytime, events) && s.acked != [] && s.replicas[0].inbox != []
    ensures Run(1, Anytime, events + [Deliver(0)]) == s.(replicas := [Delivered(s.replicas[0])])
  {
    RunStep(1, Anytime, events, Deliver(0));
  }

  lemma {:induction false} DisorderAnswered(s6: System, e6: seq<Event>)
    requires s6 == Run(1, Anytime, e6) && s6.id == 3 && s6.acked == [0]
    requires |s6.replicas| == 1 && |s6.replicas[0].acks| == 3 && |s6.ackNum| == 100 && s6.ackNum[0] == 0
    requires forall i :: 0 <= i < 3 ==> s6.replicas[0].acks[i].slot == 0 && s6.replicas[0].acks[i].ok == (i == 2)
    ensures
      var s := Run(1, Anytime, e6 + [Collect(0)] + [Collect(0)] + [Collect(0)]);
      && s.sent == s6.sent && s.id == 1 && s.acked == [3] && |s.ackNum| == 100 && s.ackNum[0] == 0
      && s.replicas == [s6.replicas[0].(acks := [])]
  {
    AnswerOne(s6, e6);
    AnswerOne(Run(1, Anytime, e6 + [Collect(0)]), e6 + [Collect(0)]);
    AnswerOne(Run(1, Anytime, e6 + [Collect(0)] + [Collect(0)]), e6 + [Collect(0)] + [Collect(0)]);
    assert s6.replicas[0].acks[1..][1..][1..] == [];
  }

  /** With a single server every acknowledgement is the last one. */
  lemma {:induction false} AnswerOne(s: System, events: seq<Event>)
    requires s == Run(1, Anytime, events) && |s.acked| == |s.replicas| == 1 && s.replicas[0].acks != []
    requires s.replicas[0].acks[0].slot == 0 && |s.ackNum| == 100 && s.ackNum[0] == 0
    ensures
      var s', p := Run(1, Anytime, events + [Collect(0)]), s.replicas[0];
      && s'.sent == s.sent && s'.id == (if p.acks[0].ok then s.id else s.id - 1)
      && s'.acked == [s.acked[0] + 1] && s'.replicas == [p.(acks := p.acks[1..])]
      && |s'.ackNum| == 100 && s'.ackNum[0] == 0
  {
    RunStep(1, Anytime, events, Collect(0));
  }

  lemma {:induction false} DisorderLast(s9: System, e9: seq<Event>, q: Request)
    requires s9 == Run(1, Anytime, e9) && |s9.sent| == 3 && RepliesThenPost(s9.sent) && s9.id == 1
    requires q.repId == -1 && s9.acked == [3] && |s9.replicas| == 1 && s9.replicas[0].inbox == []
    ensures
      var s := Run(1, Anytime, e9 + [Forward(q)] + [Deliver(0)]);
      && |s.sent| == 4 && RepliesThenPost(s.sent) && s.replicas[0].inbox == []
      && s.sent[3].write.articleId == 2 && s.sent[3].write.repId == -1
  {
    RunStep(1, Anytime, e9, Forward(q));
    DeliverOne(Run(1, Anytime, e9 + [Forward(q)]), e9 + [Forward(q)]);
  }
}
