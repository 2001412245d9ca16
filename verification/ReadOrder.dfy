/** Reads under the primary-backup protocol: when they agree, and what one request at a time buys. */
module ReadOrder {
  import opened PrimaryBackup
  import opened AckSlots
  import opened ArticleIds
  import opened Articles
  import opened Replication
  import opened Sorting

  // ---------- reads ----------

  lemma {:induction false} SentGrows(n: nat, regime: Regime, events: seq<Event>, k: nat)
    requires n > 0 && k <= |events|
    ensures Run(n, regime, events[..k]).sent <= Run(n, regime, events).sent
    ensures Run(n, regime, events[..k]).completions <= Run(n, regime, events).completions
  {
    if k == |events| {
      assert events[..k] == events;
    } else {
      var b := events[..|events| - 1];
      SentGrows(n, regime, b, k);
      assert b[..k] == events[..k];
      ReplicasFollow(n, regime, b);
      FollowsNext(Run(n, regime, b), events[|events| - 1]);
      CompletionsGrow(Run(n, regime, b), events[|events| - 1]);
    }
  }

  lemma {:induction false} CompletionsGrow(s: System, e: Event)
    ensures s.completions <= Next(s, e).completions
  {
  }

  /** A server applies updates one at a time and never goes back. */
  lemma {:induction false} AppliedGrows(n: nat, regime: Regime, events: seq<Event>, k: nat, r: nat)
    requires n > 0 && k <= |events| && r < n
    ensures AppliedAt(n, regime, events[..k], r) <= AppliedAt(n, regime, events, r)
  {
    if k == |events| {
      assert events[..k] == events;
    } else {
      var b := events[..|events| - 1];
      AppliedGrows(n, regime, b, k, r);
      assert b[..k] == events[..k];
      AppliedNext(Run(n, regime, b), events[|events| - 1], r);
    }
  }

  /** How many updates server r has applied after the events. */
  ghost function AppliedAt(n: nat, regime: Regime, events: seq<Event>, r: nat): int
    requires r < n
  {
    var s := Run(n, regime, events);
    Applied(s.replicas[r], s.sent)
  }

  lemma {:induction false} AppliedNext(s: System, e: Event, r: nat)
    requires r < |s.replicas|
    ensures
      var s' := Next(s, e);
      && |s'.replicas| == |s.replicas|
      && Applied(s.replicas[r], s.sent) <= Applied(s'.replicas[r], s'.sent) <= Applied(s.replicas[r], s.sent) + 1
  {
  }

  /** What the updates that server r has applied lead to. */
  ghost function ListIn(s: System, r: nat): seq<Article>
    requires Follows(s) && r < |s.replicas|
  {
    assert ReplicaFollows(s.replicas[r], s.sent, s.acked[r]);
    Replay(Log(s.sent[..Applied(s.replicas[r], s.sent)]))
  }

  ghost function ListOf(n: nat, regime: Regime, events: seq<Event>, r: nat): seq<Article>
    requires n > 0 && r < n
  {
    ReplicasFollow(n, regime, events);
    ListIn(Run(n, regime, events), r)
  }

  lemma {:induction false} AppliedRange(n: nat, regime: Regime, events: seq<Event>, r: nat)
    requires n > 0 && r < n
    ensures 0 <= AppliedAt(n, regime, events, r) <= |Run(n, regime, events).sent|
    ensures
      var s := Run(n, regime, events);
      Holds(s.replicas[r].articles, Log(s.sent[..AppliedAt(n, regime, events, r)]))
  {
    ReplicasFollow(n, regime, events);
    var s := Run(n, regime, events);
    assert ReplicaFollows(s.replicas[r], s.sent, s.acked[r]);
  }

  /** The lists a server goes through, and those of servers that have applied less, are prefixes. */
  lemma {:induction false} ListsArePrefixes(n: nat, regime: Regime, events: seq<Event>, k: nat, r: nat, r': nat)
    requires n > 0 && k <= |events| && r < n && r' < n
    requires AppliedAt(n, regime, events, r) <= AppliedAt(n, regime, events, r')
    ensures ListOf(n, regime, events[..k], r) <= ListOf(n, regime, events, r')
  {
    var s, t := Run(n, regime, events[..k]), Run(n, regime, events);
    SentGrows(n, regime, events, k);
    AppliedGrows(n, regime, events, k, r);
    AppliedRange(n, regime, events[..k], r);
    AppliedRange(n, regime, events, r');
    PrefixOfPrefix(s.sent, t.sent, AppliedAt(n, regime, events[..k], r), AppliedAt(n, regime, events, r'));
  }

  lemma {:induction false} PrefixOfPrefix(sent: seq<Update>, later: seq<Update>, m: int, m': int)
    requires sent <= later && 0 <= m <= |sent| && m <= m' <= |later|
    ensures Replay(Log(sent[..m])) <= Replay(Log(later[..m']))
  {
    assert sent[..m] == later[..m'][..m];
    ReplayPrefix(Log(later[..m']), m);
    assert Log(later[..m'])[..m] == Log(later[..m'][..m]);
  }

  /** A read at server r after the events may send this. */
  ghost predicate ReadAt(n: nat, regime: Regime, events: seq<Event>, r: nat, read: seq<Article>)
    requires r < n
  {
    IsSortOf(read, Run(n, regime, events).replicas[r].articles, BY_ID)
  }

  /** Whatever is read, and was read before, at r and at a server that has applied no less, is a prefix
      of the list there, if a sort by ID can change nothing about that list; and then no
      read does change anything. */
  lemma {:induction false} ReadsArePrefixes(n: nat, regime: Regime, events: seq<Event>, k: nat, r: nat, r': nat,
                                            read: seq<Article>)
    requires n > 0 && k <= |events| && r < n && r' < n
    requires AppliedAt(n, regime, events, r) <= AppliedAt(n, regime, events, r')
    requires RigidAfter(n, regime, events, r')
    requires ReadAt(n, regime, events[..k], r, read)
    ensures read == Run(n, regime, events[..k]).replicas[r].articles == ListOf(n, regime, events[..k], r)
    ensures read <= ListOf(n, regime, events, r')
  {
    var list, all := ListOf(n, regime, events[..k], r), ListOf(n, regime, events, r');
    ListsArePrefixes(n, regime, events, k, r, r');
    RigidPrefix(all, |list|, BY_ID);
    assert all[..|list|] == list;
    AppliedRange(n, regime, events[..k], r);
    SortOfRigid(read, list, BY_ID);
  }

  /** Any two reads of the run, at whatever servers and moments, agree on the order. */
  ghost predicate AllReadsAgree(n: nat, regime: Regime, events: seq<Event>) {
    forall k, r, read, k', r', read' ::
      0 <= k <= |events| && 0 <= r < n && 0 <= k' <= |events| && 0 <= r' < n
      && ReadAt(n, regime, events[..k], r, read) && ReadAt(n, regime, events[..k'], r', read') ==>
        read <= read' || read' <= read
  }

  ghost predicate AllRigid(n: nat, regime: Regime, events: seq<Event>)
    requires n > 0
  {
    forall r :: 0 <= r < n ==> RigidAfter(n, regime, events, r)
  }

  /** Sequential consistency of reads, exactly: all reads of a run agree, however equal IDs are sorted,
      if and only if at no server the applied updates lead to a list that a sort could change. */
  lemma {:induction false} ReadsAgreeIff(n: nat, regime: Regime, events: seq<Event>)
    requires n > 0
    ensures AllReadsAgree(n, regime, events) <==> AllRigid(n, regime, events)
  {
    if AllRigid(n, regime, events) {
      forall k, r, read, k', r', read' |
        0 <= k <= |events| && 0 <= r < n && 0 <= k' <= |events| && 0 <= r' < n
        && ReadAt(n, regime, events[..k], r, read) && ReadAt(n, regime, events[..k'], r', read')
        ensures read <= read' || read' <= read
      {
        var top := if AppliedAt(n, regime, events, r) <= AppliedAt(n, regime, events, r') then r' else r;
        ReadsArePrefixes(n, regime, events, k, r, top, read);
        ReadsArePrefixes(n, regime, events, k', r', top, read');
      }
    } else {
      var r: nat :| r < n && !RigidAfter(n, regime, events, r);
      var k, read, read' := ReadsDisagree(n, regime, events, r);
      assert ReadAt(n, regime, events[..k], r, read) && ReadAt(n, regime, events[..k + 1], r, read');
    }
  }

  ghost predicate RigidAfter(n: nat, regime: Regime, events: seq<Event>, r: nat)
    requires n > 0 && r < n
  {
    Rigid(ListOf(n, regime, events, r), BY_ID)
  }

  /** The moment at which a server's list ceases to be rigid. */
  lemma {:induction false} CeasesToBeRigid(n: nat, regime: Regime, events: seq<Event>, r: nat) returns (k: nat)
    requires n > 0 && r < n && !RigidAfter(n, regime, events, r)
    ensures k < |events| && RigidAfter(n, regime, events[..k], r) && !RigidAfter(n, regime, events[..k + 1], r)
  {
    k := 0;
    StartIsRigid(n, regime, r);
    assert events[..0] == [] && events[..|events|] == events;
    while RigidAfter(n, regime, events[..k + 1], r)
      invariant k < |events| && RigidAfter(n, regime, events[..k], r)
      decreases |events| - k
    {
      k := k + 1;
    }
  }

  lemma {:induction false} StartIsRigid(n: nat, regime: Regime, r: nat)
    requires n > 0 && r < n
    ensures RigidAfter(n, regime, [], r)
  {
    assert Log(Init(n).sent) == [];
  }

  /** Reads before and after that moment may disagree. */
  lemma {:induction false} ReadsDisagree(n: nat, regime: Regime, events: seq<Event>, r: nat)
    returns (k: nat, read: seq<Article>, read': seq<Article>)
    requires n > 0 && r < n && !RigidAfter(n, regime, events, r)
    ensures k < |events| && ReadAt(n, regime, events[..k], r, read) && ReadAt(n, regime, events[..k + 1], r, read')
    ensures !(read <= read') && !(read' <= read)
  {
    k := CeasesToBeRigid(n, regime, events, r);
    read := ListOf(n, regime, events[..k], r);
    AppliedRange(n, regime, events[..k], r);
    RigidIsSorted(read, BY_ID);
    var x := OneMore(n, regime, events, k, r);
    read' := SortOutOfTurn(read, x, BY_ID);
    assert |multiset(read')| == |multiset(read + [x])|;
  }

  /** A step that changes the list of r applies one update, which is accepted. */
  lemma {:induction false} OneMore(n: nat, regime: Regime, events: seq<Event>, k: nat, r: nat) returns (x: Article)
    requires n > 0 && r < n && k < |events|
    requires RigidAfter(n, regime, events[..k], r) && !RigidAfter(n, regime, events[..k + 1], r)
    ensures !Rigid(ListOf(n, regime, events[..k], r) + [x], BY_ID)
    ensures Run(n, regime, events[..k + 1]).replicas[r].articles == ListOf(n, regime, events[..k], r) + [x]
  {
    var b, e := events[..k], events[k];
    assert events[..k + 1] == b + [e];
    RunStep(n, regime, b, e);
    ReplicasFollow(n, regime, b);
    ReplicasFollow(n, regime, b + [e]);
    x := StepGrows(Run(n, regime, b), e, r);
  }

  lemma {:induction false} StepGrows(s: System, e: Event, r: nat) returns (x: Article)
    requires Follows(s) && Follows(Next(s, e)) && r < |s.replicas| == |Next(s, e).replicas|
    requires Rigid(ListIn(s, r), BY_ID) && !Rigid(ListIn(Next(s, e), r), BY_ID)
    ensures ListIn(Next(s, e), r) == Next(s, e).replicas[r].articles == ListIn(s, r) + [x]
  {
    var p, m := s.replicas[r], Applied(s.replicas[r], s.sent);
    assert ReplicaFollows(p, s.sent, s.acked[r]);
    OthersKeepList(s, e, r);
    DeliveredIsNext(p, s.sent, s.acked[r]);
    LogStep(s.sent, m);
    x := Article(s.sent[m].write.articleId, s.sent[m].write.content, Hierachy(p.articles, s.sent[m].write.repId));
  }

  lemma {:induction false} DeliveredIsNext(p: Replica, sent: seq<Update>, acked: nat)
    requires ReplicaFollows(p, sent, acked) && p.inbox != []
    ensures p.inbox[0] == sent[Applied(p, sent)]
  {
  }

  /** Only the delivery of an update at r takes its list any further. */
  lemma {:induction false} OthersKeepList(s: System, e: Event, r: nat)
    requires Follows(s) && Follows(Next(s, e)) && r < |s.replicas| == |Next(s, e).replicas|
    ensures ListIn(Next(s, e), r) == ListIn(s, r) || (e == Deliver(r) && s.replicas[r].inbox != [])
  {
    var s', m := Next(s, e), Applied(s.replicas[r], s.sent);
    assert ReplicaFollows(s.replicas[r], s.sent, s.acked[r]);
    if e != Deliver(r) {
      OthersApplyNone(s, e, r);
      assert s'.sent[..m] == s.sent[..m];
    }
  }

  lemma {:induction false} OthersApplyNone(s: System, e: Event, r: nat)
    requires r < |s.replicas| == |Next(s, e).replicas| && e != Deliver(r)
    ensures s.sent <= Next(s, e).sent
    ensures Applied(Next(s, e).replicas[r], Next(s, e).sent) == Applied(s.replicas[r], s.sent)
  {
  }

  // ---------- runs in which all reads agree ----------

  /** While no ID was taken back all reads agree. */
  lemma {:induction false} CountingReadsAgree(n: nat, regime: Regime, events: seq<Event>)
    requires n > 0 && NoRevocation(Run(n, regime, events))
    ensures AllReadsAgree(n, regime, events)
  {
    var sent := Run(n, regime, events).sent;
    IdsCountUp(n, regime, events);
    RigidPairs(sent, |sent|);
    assert sent[..|sent|] == sent;
    WholeIsRigid(n, regime, events);
    ReadsAgreeIff(n, regime, events);
  }

  // ---------- one request at a time ----------

  /** IDs have been given to successful requests only; the one in flight holds the latest. */
  ghost predicate SerialIds(s: System)
    requires s.acked != []
  {
    && Sequential(Log(s.sent))
    && |s.sent| - 1 <= Least(s.acked) <= |s.sent|
    && s.id == if Least(s.acked) == |s.sent| then |Replay(Log(s.sent))| else s.sent[|s.sent| - 1].write.articleId
  }

  lemma {:induction false} ForwardSends(s: System, q: Request)
    ensures
      var s' := Next(s, Forward(q));
      s'.sent == s.sent + [UpdateFor(s, q)] && s'.id == s.id + 1 && s'.acked == s.acked
  {
  }

  lemma {:induction false} OneMoreSent(sent: seq<Update>, u: Update)
    requires Sequential(Log(sent)) && u.write.articleId == |Replay(Log(sent))| + 1
    ensures Sequential(Log(sent + [u]))
  {
    var all := sent + [u];
    assert all[..|sent|] == sent && all[..|sent| + 1] == all;
    LogStep(all, |sent|);
  }

  lemma {:induction false} SerialForward(s: System, q: Request)
    requires Counted(s) && SerialIds(s) && Least(s.acked) == |s.sent|
    ensures SerialIds(Next(s, Forward(q)))
  {
    var s', u := Next(s, Forward(q)), UpdateFor(s, q);
    ForwardSends(s, q);
    OneMoreSent(s.sent, u);
  }

  lemma {:induction false} SerialCollect(s: System, r: nat)
    requires Counted(s) && SerialIds(s) && r < |s.replicas| && s.replicas[r].acks != []
    ensures SerialIds(Next(s, Collect(r)))
  {
    CollectedRequest(s, r);
    CollectTable(s, r);
    assert s.acked[r] == |s.sent| - 1;
    SerialLast(s.sent);
  }

  lemma {:induction false} SerialLast(sent: seq<Update>)
    requires sent != [] && Sequential(Log(sent))
    ensures sent[|sent| - 1].write.articleId == |Replay(Log(sent))| + if Succeeds(sent, |sent| - 1) then 0 else 1
  {
    var n := |sent| - 1;
    assert sent[..n + 1] == sent;
    LogStep(sent, n);
    SequentialLast(sent);
  }

  lemma {:induction false} SequentialLast(sent: seq<Update>)
    requires sent != [] && Sequential(Log(sent))
    ensures sent[|sent| - 1].write.articleId == |Replay(Log(sent[..|sent| - 1]))| + 1
  {
    assert Log(sent)[..|sent| - 1] == Log(sent[..|sent| - 1]);
  }

  lemma {:induction false} QuietKeeps(s: System, e: Event)
    requires e.Deliver? || e.Read?
    ensures Next(s, e).sent == s.sent && Next(s, e).acked == s.acked && Next(s, e).id == s.id
  {
  }

  lemma {:induction false} SerialNext(s: System, e: Event)
    requires Counted(s) && SerialIds(s) && Allowed(s, Serial, e)
    ensures SerialIds(Next(s, e))
  {
    if Enabled(s, e) {
      match e
      case Forward(q) => SerialForward(s, q);
      case Collect(r) => SerialCollect(s, r);
      case _ => QuietKeeps(s, e);
    }
  }

  lemma {:induction false} SerialRuns(n: nat, events: seq<Event>)
    requires n > 0
    ensures Counted(Run(n, Serial, events)) && SerialIds(Run(n, Serial, events))
  {
    if events == [] {
      InitCounted(n);
      assert Log(Init(n).sent) == [];
    } else {
      var b, e := events[..|events| - 1], events[|events| - 1];
      SerialRuns(n, b);
      if Allowed(Run(n, Serial, b), Serial, e) {
        CountedNext(Run(n, Serial, b), Serial, e);
        SerialNext(Run(n, Serial, b), e);
      }
    }
  }

  lemma {:induction false} SerialThreads(n: nat, events: seq<Event>)
    requires n > 0
    ensures
      var log := Log(Run(n, Serial, events).sent);
      Threaded(Replay(log), Accepted(log)) && Rigid(Replay(log), BY_ID)
  {
    SerialRuns(n, events);
    var log := Log(Run(n, Serial, events).sent);
    SequentialReplay(log);
    NumberedIncreases(Replay(log));
    IncreasingIsRigid(Replay(log), BY_ID);
  }

  /** If all broadcasts lead to a list that a sort cannot change, so do those applied anywhere. */
  lemma {:induction false} WholeIsRigid(n: nat, regime: Regime, events: seq<Event>)
    requires n > 0 && Rigid(Replay(Log(Run(n, regime, events).sent)), BY_ID)
    ensures AllRigid(n, regime, events)
    ensures forall r :: 0 <= r < n ==> ListOf(n, regime, events, r) <= Replay(Log(Run(n, regime, events).sent))
  {
    var sent := Run(n, regime, events).sent;
    forall r | 0 <= r < n
      ensures RigidAfter(n, regime, events, r)
      ensures ListOf(n, regime, events, r) <= Replay(Log(sent))
    {
      AppliedRange(n, regime, events, r);
      PrefixOfPrefix(sent, sent, AppliedAt(n, regime, events, r), |sent|);
      assert sent[..|sent|] == sent;
      var list, all := ListOf(n, regime, events, r), Replay(Log(sent));
      RigidPrefix(all, |list|, BY_ID);
      assert all[..|list|] == list;
    }
  }

  lemma {:induction false} ListIsThreaded(s: System, r: nat, k: nat)
    requires Follows(s) && r < |s.replicas| && k == Applied(s.replicas[r], s.sent) && Sequential(Log(s.sent))
    ensures k <= |s.sent| && Threaded(ListIn(s, r), Accepted(Log(s.sent[..k])))
  {
    assert ReplicaFollows(s.replicas[r], s.sent, s.acked[r]);
    SequentialPrefix(Log(s.sent), k);
    assert Log(s.sent)[..k] == Log(s.sent[..k]);
    SequentialReplay(Log(s.sent[..k]));
  }

  /** With one request outstanding at a time, at every moment every server's IDs are exactly
      1..n, replies have smaller-numbered targets, and hierachy is the depth of the reply chain. */
  lemma {:induction false} SerialServersThreaded(n: nat, events: seq<Event>, r: nat)
    requires n > 0 && r < n
    ensures
      var s := Run(n, Serial, events);
      exists k :: 0 <= k <= |s.sent| && Threaded(s.replicas[r].articles, Accepted(Log(s.sent[..k])))
  {
    SerialRuns(n, events);
    SerialThreads(n, events);
    WholeIsRigid(n, Serial, events);
    AppliedRange(n, Serial, events, r);
    ListIsThreaded(Run(n, Serial, events), r, AppliedAt(n, Serial, events, r));
    assert RigidAfter(n, Serial, events, r);
  }

  /** The client of each request is told success if and only if it was a post, or a reply to one of the articles
      there were: as many as requests before it less failures. */
  lemma {:induction false} SerialOutcomes(n: nat, events: seq<Event>, j: nat)
    requires n > 0 && j < |Run(n, Serial, events).completions|
    ensures
      var s := Run(n, Serial, events);
      && j < |s.sent|
      && (s.completions[j].ok <==>
            s.sent[j].write.repId == -1 || 1 <= s.sent[j].write.repId <= j - Failures(s.completions[..j]))
  {
    SerialRuns(n, events);
    Outcome(Run(n, Serial, events).sent, Run(n, Serial, events).completions, j);
  }

  lemma {:induction false} Outcome(sent: seq<Update>, answers: seq<Completion>, j: nat)
    requires Answered(sent, answers) && Sequential(Log(sent)) && j < |answers|
    ensures answers[j].ok <==>
            sent[j].write.repId == -1 || 1 <= sent[j].write.repId <= j - Failures(answers[..j])
  {
    SequentialPrefix(Log(sent), j);
    assert Log(sent)[..j] == Log(sent[..j]);
    StoredCount(sent, answers[..j]);
    SequentialReplay(Log(sent[..j]));
    FindNumbered(Replay(Log(sent[..j])), sent[j].write.repId);
  }

  lemma {:induction false} StoredCount(sent: seq<Update>, answers: seq<Completion>)
    requires Answered(sent, answers)
    ensures |Replay(Log(sent[..|answers|]))| + Failures(answers) == |answers|
  {
    if answers == [] {
      assert Log(sent[..0]) == [];
    } else {
      var k := |answers| - 1;
      StoredCount(sent, answers[..k]);
      StoredStep(sent, k);
    }
  }

  lemma {:induction false} StoredStep(sent: seq<Update>, j: nat)
    requires j < |sent|
    ensures |Replay(Log(sent[..j + 1]))| == |Replay(Log(sent[..j]))| + if Succeeds(sent, j) then 1 else 0
  {
    ReplayNext(sent, j);
  }

  /** And all reads agree, with IDs taken back or not. */
  lemma {:induction false} SerialReadsAgree(n: nat, events: seq<Event>)
    requires n > 0
    ensures AllReadsAgree(n, Serial, events)
  {
    SerialThreads(n, events);
    WholeIsRigid(n, Serial, events);
    ReadsAgreeIff(n, Serial, events);
  }

  /** In particular reads change nothing, and are prefixes of one common list. */
  lemma {:induction false} SerialReadsArePrefixes(n: nat, events: seq<Event>, k: nat, r: nat, read: seq<Article>)
    requires n > 0 && k <= |events| && r < n && ReadAt(n, Serial, events[..k], r, read)
    ensures read == Run(n, Serial, events[..k]).replicas[r].articles
    ensures read <= Replay(Log(Run(n, Serial, events).sent))
  {
    SerialThreads(n, events);
    WholeIsRigid(n, Serial, events);
    assert RigidAfter(n, Serial, events, r);
    ReadsArePrefixes(n, Serial, events, k, r, r, read);
  }
}
