/** The article IDs of the primary-backup protocol: what they are in every state of every run, when the
    next one is free, and when they are in order. */
module ArticleIds {
  import opened PrimaryBackup
  import opened AckSlots
  import opened Articles
  import opened Replication
  import opened Sorting

  lemma {:induction false} RunStep(n: nat, regime: Regime, events: seq<Event>, e: Event)
    ensures Run(n, regime, events + [e]) ==
            if Allowed(Run(n, regime, events), regime, e) then Next(Run(n, regime, events), e) else Run(n, regime,
              events)
  {
    assert (events + [e])[..|events|] == events;
  }

  // ---------- IDs while no failed request has been answered ----------

  /** No ID has been taken back so far. */
  ghost predicate NoRevocation(s: System) {
    forall i :: 0 <= i < |s.completions| ==> s.completions[i].ok
  }

  /** Request j went out under ID j + 1. */
  ghost predicate CountingUp(sent: seq<Update>) {
    forall j :: 0 <= j < |sent| ==> sent[j].write.articleId == j + 1
  }

  lemma {:induction false} IdsNext(s: System, e: Event)
    requires NoRevocation(s) ==> s.id == |s.sent| && CountingUp(s.sent)
    ensures NoRevocation(Next(s, e)) ==> NoRevocation(s)
    ensures NoRevocation(Next(s, e)) ==> Next(s, e).id == |Next(s, e).sent| && CountingUp(Next(s, e).sent)
  {
    var s' := Next(s, e);
    assert s.completions <= s'.completions;
    assert forall i :: 0 <= i < |s.completions| ==> s.completions[i] == s'.completions[i];
    if e.Collect? && Enabled(s, e) && s'.completions != s.completions {
      var a := s.replicas[e.server].acks[0];
      assert s'.completions[|s.completions|] == Completion(a.origin, a.ok);
    }
  }

  lemma {:induction false} IdsCountUp(n: nat, regime: Regime, events: seq<Event>)
    ensures var s := Run(n, regime, events); NoRevocation(s) ==> s.id == |s.sent| && CountingUp(s.sent)
  {
    if events != [] {
      IdsCountUp(n, regime, events[..|events| - 1]);
      IdsNext(Run(n, regime, events[..|events| - 1]), events[|events| - 1]);
    }
  }

  // ---------- IDs at any moment of any run ----------

  /** The ID belongs to a request that is stored, or will be. */
  ghost predicate Used(sent: seq<Update>, id: int) {
    exists k :: 0 <= k < |sent| && Succeeds(sent, k) && sent[k].write.articleId == id
  }

  /** How many failed requests were answered. */
  function Failures(answers: seq<Completion>): nat {
    if answers == [] then 0 else Failures(answers[..|answers| - 1]) + if answers[|answers| - 1].ok then 0 else 1
  }

  lemma {:induction false} FailuresNext(s: System, e: Event)
    requires s.id == |s.sent| - Failures(s.completions)
    ensures Next(s, e).id == |Next(s, e).sent| - Failures(Next(s, e).completions)
  {
    if e.Collect? && Enabled(s, e) {
      var a := s.replicas[e.server].acks[0];
      assert (s.completions + [Completion(a.origin, a.ok)])[..|s.completions|] == s.completions;
      assert s.completions + [] == s.completions;
    }
  }

  /** The counter is the number of requests broadcast less the number of failures answered. */
  lemma {:induction false} IdsByFailures(n: nat, regime: Regime, events: seq<Event>)
    ensures var s := Run(n, regime, events); s.id == |s.sent| - Failures(s.completions)
  {
    if events != [] {
      IdsByFailures(n, regime, events[..|events| - 1]);
      FailuresNext(Run(n, regime, events[..|events| - 1]), events[|events| - 1]);
    }
  }

  /** For each request of a run, how many failures had been answered when it was broadcast. */
  ghost function FailuresBefore(n: nat, regime: Regime, events: seq<Event>): (f: seq<nat>)
    ensures |f| == |Run(n, regime, events).sent|
  {
    if events == [] then []
    else
      var b := events[..|events| - 1];
      var s := Run(n, regime, b);
      FailuresBefore(n, regime, b) +
      if |Run(n, regime, events).sent| > |s.sent| then [Failures(s.completions)] else []
  }

  lemma {:induction false} BroadcastIds(n: nat, regime: Regime, events: seq<Event>, k: nat)
    requires k < |Run(n, regime, events).sent|
    ensures Run(n, regime, events).sent[k].write.articleId == k + 1 - FailuresBefore(n, regime, events)[k]
  {
    if events != [] {
      var b := events[..|events| - 1];
      IdsByFailures(n, regime, b);
      if k < |Run(n, regime, b).sent| {
        BroadcastIds(n, regime, b, k);
      }
    }
  }

  /** In every regime and at any moment: the ID the next request will get is unused exactly if, for
      no successful request, as many failures were answered since its broadcast as requests were
      broadcast from it on. */
  lemma {:induction false} NextIdUnusedIff(n: nat, regime: Regime, events: seq<Event>, q: Request)
    ensures
      var s, f := Run(n, regime, events), FailuresBefore(n, regime, events);
      !Used(s.sent, UpdateFor(s, q).write.articleId) <==>
        forall k :: 0 <= k < |s.sent| && Succeeds(s.sent, k) ==> Failures(s.completions) - f[k] != |s.sent| - k
  {
    var s, f := Run(n, regime, events), FailuresBefore(n, regime, events);
    IdsByFailures(n, regime, events);
    forall k: nat | k < |s.sent|
      ensures s.sent[k].write.articleId == k + 1 - f[k]
    {
      BroadcastIds(n, regime, events, k);
    }
  }

  // ---------- when the IDs of a run are in order ----------

  /** What servers store for request k, in front of which they hold what the ones before led to. */
  function StoredAs(sent: seq<Update>, k: nat): Article
    requires k < |sent| && Succeeds(sent, k)
  {
    var w := sent[k].write;
    Article(w.articleId, w.content, Hierachy(Replay(Log(sent[..k])), w.repId))
  }

  lemma {:induction false} ReplayNext(sent: seq<Update>, m: nat)
    requires m < |sent|
    ensures Replay(Log(sent[..m + 1])) ==
            if Succeeds(sent, m) then Replay(Log(sent[..m])) + [StoredAs(sent, m)] else Replay(Log(sent[..m]))
  {
    LogStep(sent, m);
  }

  ghost predicate HasId(articles: seq<Article>, id: int) {
    exists i :: 0 <= i < |articles| && articles[i].id == id
  }

  /** A successful request among the first m carries the ID. */
  ghost predicate Given(sent: seq<Update>, m: nat, id: int)
    requires m <= |sent|
  {
    exists j :: 0 <= j < m && Succeeds(sent, j) && sent[j].write.articleId == id
  }

  lemma {:induction false} HasIdStep(articles: seq<Article>, a: Article, id: int)
    ensures HasId(articles + [a], id) <==> HasId(articles, id) || a.id == id
  {
    var grown := articles + [a];
    assert grown[|articles|] == a;
    if i :| 0 <= i < |articles| && articles[i].id == id {
      assert grown[i].id == id;
    }
  }

  lemma {:induction false} GivenStep(sent: seq<Update>, m: nat, id: int)
    requires m < |sent|
    ensures Given(sent, m + 1, id) <==> Given(sent, m, id) || (Succeeds(sent, m) && sent[m].write.articleId == id)
  {
  }

  /** The IDs in the list are those of the successful requests. */
  lemma {:induction false} StoredIds(sent: seq<Update>, m: nat, id: int)
    requires m <= |sent|
    ensures HasId(Replay(Log(sent[..m])), id) <==> Given(sent, m, id)
  {
    if m == 0 {
      assert Log(sent[..0]) == [];
    } else {
      StoredIds(sent, m - 1, id);
      ReplayNext(sent, m - 1);
      GivenStep(sent, m - 1, id);
      if Succeeds(sent, m - 1) {
        HasIdStep(Replay(Log(sent[..m - 1])), StoredAs(sent, m - 1), id);
      }
    }
  }

  /** In every regime: a request succeeds if and only if it is a post or replies to the ID of a successful
      request broadcast before it. */
  lemma {:induction false} SucceedsIff(sent: seq<Update>, k: nat)
    requires k < |sent|
    ensures Succeeds(sent, k) <==>
            sent[k].write.repId == -1
            || exists j :: 0 <= j < k && Succeeds(sent, j) && sent[j].write.articleId == sent[k].write.repId
  {
    StoredIds(sent, k, sent[k].write.repId);
    var articles := Replay(Log(sent[..k]));
    ApplyAddsIff(articles, sent[k].write);
    assert Succeeds(sent, k) <==> |Apply(articles, sent[k].write)| == |articles| + 1;
    assert HasId(articles, sent[k].write.repId) <==> Given(sent, k, sent[k].write.repId);
  }

  ghost predicate PairsInTurn(sent: seq<Update>, m: nat)
    requires m <= |sent|
  {
    forall k, l :: 0 <= k < l < m && Succeeds(sent, k) && Succeeds(sent, l) ==>
      InTurn(StoredAs(sent, k), StoredAs(sent, l), BY_ID)
  }

  ghost predicate AllInTurn(sent: seq<Update>, m: nat, a: Article)
    requires m <= |sent|
  {
    forall k :: 0 <= k < m && Succeeds(sent, k) ==> InTurn(StoredAs(sent, k), a, BY_ID)
  }

  lemma {:induction false} AllInTurnIff(sent: seq<Update>, m: nat, a: Article)
    requires m <= |sent|
    ensures AllInTurn(sent, m, a) <==> forall x :: x in Replay(Log(sent[..m])) ==> InTurn(x, a, BY_ID)
  {
    if m > 0 {
      AllInTurnIff(sent, m - 1, a);
      ReplayNext(sent, m - 1);
    }
  }

  lemma {:induction false} RigidPairs(sent: seq<Update>, m: nat)
    requires m <= |sent|
    ensures Rigid(Replay(Log(sent[..m])), BY_ID) <==> PairsInTurn(sent, m)
  {
    if m > 0 {
      RigidPairs(sent, m - 1);
      RigidStep(sent, m - 1);
      PairsStep(sent, m - 1);
    }
  }

  lemma {:induction false} RigidStep(sent: seq<Update>, m: nat)
    requires m < |sent|
    ensures Rigid(Replay(Log(sent[..m + 1])), BY_ID) <==>
            Rigid(Replay(Log(sent[..m])), BY_ID) && (Succeeds(sent, m) ==> AllInTurn(sent, m, StoredAs(sent, m)))
  {
    ReplayNext(sent, m);
    if Succeeds(sent, m) {
      RigidGrown(Replay(Log(sent[..m])), StoredAs(sent, m), BY_ID);
      AllInTurnIff(sent, m, StoredAs(sent, m));
    }
  }

  lemma {:induction false} PairsStep(sent: seq<Update>, m: nat)
    requires m < |sent|
    ensures PairsInTurn(sent, m + 1) <==>
            PairsInTurn(sent, m) && (Succeeds(sent, m) ==> AllInTurn(sent, m, StoredAs(sent, m)))
  {
  }

  /** In every regime: the first m broadcasts lead to a list that no sort by ID changes, exactly if
      between any two successful ones fewer failures were answered than requests broadcast, or
      they are stored as the same article. */
  lemma {:induction false} RigidByFailures(n: nat, regime: Regime, events: seq<Event>, m: nat)
    requires m <= |Run(n, regime, events).sent|
    ensures
      var sent, f := Run(n, regime, events).sent, FailuresBefore(n, regime, events);
      Rigid(Replay(Log(sent[..m])), BY_ID) <==>
        forall k, l :: 0 <= k < l < m && Succeeds(sent, k) && Succeeds(sent, l) ==>
          f[l] - f[k] < l - k || StoredAs(sent, k) == StoredAs(sent, l)
  {
    var sent, f := Run(n, regime, events).sent, FailuresBefore(n, regime, events);
    RigidPairs(sent, m);
    forall k: nat | k < |sent|
      ensures sent[k].write.articleId == k + 1 - f[k]
    {
      BroadcastIds(n, regime, events, k);
    }
    assert forall k, l :: 0 <= k < l < m && Succeeds(sent, k) && Succeeds(sent, l) ==>
      (InTurn(StoredAs(sent, k), StoredAs(sent, l), BY_ID) <==>
         (f[l] - f[k] < l - k || StoredAs(sent, k) == StoredAs(sent, l)));
  }

  // ---------- the first time an ID is taken back ----------

  lemma {:induction false} FirstRevocation(s: System, r: nat)
    requires Counted(s) && NoRevocation(s) && s.id == |s.sent| && Enabled(s, Collect(r))
    requires !NoRevocation(Next(s, Collect(r)))
    ensures Next(s, Collect(r)).sent == s.sent != [] && Next(s, Collect(r)).id == |s.sent| - 1
  {
    CollectedRequest(s, r);
    CollectTable(s, r);
  }

  lemma {:induction false} LastIdUsedIff(sent: seq<Update>)
    requires CountingUp(sent) && sent != []
    ensures Used(sent, |sent|) <==> Succeeds(sent, |sent| - 1)
  {
    assert sent[|sent| - 1].write.articleId == |sent|;
  }

  /** Whenever a failed request is answered for the first time, the next request gets the ID the
      last broadcast request has; that ID is unused exactly when the last one fails as well. */
  lemma {:induction false} RevocationSafeIff(n: nat, regime: Regime, events: seq<Event>, r: nat, q: Request)
    requires n > 0 && regime != Anytime
    requires NoRevocation(Run(n, regime, events)) && !NoRevocation(Next(Run(n, regime, events), Collect(r)))
    ensures
      var s := Next(Run(n, regime, events), Collect(r));
      && s.sent != []
      && UpdateFor(s, q).write.articleId == s.sent[|s.sent| - 1].write.articleId
      && (!Used(s.sent, UpdateFor(s, q).write.articleId) <==> !Succeeds(s.sent, |s.sent| - 1))
  {
    GatedRunsCount(n, regime, events);
    IdsCountUp(n, regime, events);
    assert Enabled(Run(n, regime, events), Collect(r));
    FirstRevocation(Run(n, regime, events), r);
    LastIdUsedIff(Run(n, regime, events).sent);
  }
}
