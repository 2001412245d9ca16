/** The bookkeeping of a retry loop over candidates: what each attempt does to the list, and what
    any run of attempts adds up to, whatever the attempts consist of. */
module Attempts {
  import opened Sequences
  import opened Routing

  /** How an attempt ends: the chosen node is the peer itself, nothing came back, what came back
      failed its checksum, or a file was written. */
  datatype Outcome = Local | Failed | Mismatch | Written(content: string)

  /** RemoveNodeInfo: the first entry for id goes. */
  function Removed(nodes: seq<ServerInfo>, id: int): seq<ServerInfo> {
    if nodes == [] then [] else if nodes[0].id == id then nodes[1..] else [nodes[0]] + Removed(nodes[1..], id)
  }

  datatype Attempt = Attempt(chosen: int, outcome: Outcome)

  function Remaining(nodes: seq<ServerInfo>, trace: seq<Attempt>): seq<ServerInfo> {
    if trace == [] then nodes
    else
      var now := Remaining(nodes, trace[..|trace| - 1]);
      if Last(trace).outcome.Local? || Last(trace).outcome.Failed? then Removed(now, Last(trace).chosen) else now
  }

  predicate Succeeded(trace: seq<Attempt>) {
    trace != [] && Last(trace).outcome.Written?
  }

  /** The loop is over: a file was written, or no candidate is left. */
  predicate Finished(nodes: seq<ServerInfo>, trace: seq<Attempt>) {
    Succeeded(trace) || Remaining(nodes, trace) == []
  }

  ghost predicate Listed(nodes: seq<ServerInfo>, id: int) {
    exists k :: 0 <= k < |nodes| && nodes[k].id == id
  }

  /** Each attempt was made while the loop was not over, at a candidate still on the list. */
  ghost predicate WellRun(nodes: seq<ServerInfo>, trace: seq<Attempt>) {
    trace == [] || (
      var before := trace[..|trace| - 1];
      WellRun(nodes, before) && !Finished(nodes, before) && Listed(Remaining(nodes, before), Last(trace).chosen))
  }

  function CountOf(trace: seq<Attempt>, p: Outcome -> bool): nat {
    if trace == [] then 0 else CountOf(trace[..|trace| - 1], p) + if p(Last(trace).outcome) then 1 else 0
  }

  function Removals(trace: seq<Attempt>): nat {
    CountOf(trace, (o: Outcome) => o.Local? || o.Failed?)
  }

  function Mismatches(trace: seq<Attempt>): nat {
    CountOf(trace, (o: Outcome) => o.Mismatch?)
  }

  /** Exactly the first entry for the id goes, and everything else stays in order. */
  lemma {:induction false} RemovedDropsOne(nodes: seq<ServerInfo>, id: int) returns (k: nat)
    requires Listed(nodes, id)
    ensures k < |nodes| && nodes[k].id == id && forall i :: 0 <= i < k ==> nodes[i].id != id
    ensures Removed(nodes, id) == nodes[..k] + nodes[k + 1..]
  {
    if nodes[0].id == id {
      k := 0;
    } else {
      ListedLater(nodes, id);
      k := RemovedDropsOne(nodes[1..], id);
      DropsLater(nodes, k);
      assert forall i :: 0 < i <= k ==> nodes[i] == nodes[1..][i - 1];
      k := k + 1;
    }
  }

  lemma ListedLater(nodes: seq<ServerInfo>, id: int)
    requires Listed(nodes, id) && nodes[0].id != id
    ensures Listed(nodes[1..], id)
  {
    var k :| 0 <= k < |nodes| && nodes[k].id == id;
    assert nodes[1..][k - 1].id == id;
  }

  lemma DropsLater(nodes: seq<ServerInfo>, k: nat)
    requires k < |nodes| - 1
    ensures [nodes[0]] + (nodes[1..][..k] + nodes[1..][k + 1..]) == nodes[..k + 1] + nodes[k + 1 + 1..]
  {
  }

  lemma {:induction false} RemovedNone(nodes: seq<ServerInfo>, id: int)
    requires !Listed(nodes, id)
    ensures Removed(nodes, id) == nodes
  {
    if nodes != [] {
      assert nodes[0].id != id;
      assert forall k :: 0 <= k < |nodes| - 1 ==> nodes[1..][k] == nodes[k + 1];
      RemovedNone(nodes[1..], id);
    }
  }

  /** Each failed or local attempt removes exactly one candidate, and nothing else removes any. */
  lemma {:induction false} EachFailureRemovesOne(nodes: seq<ServerInfo>, trace: seq<Attempt>)
    requires WellRun(nodes, trace)
    ensures |Remaining(nodes, trace)| + Removals(trace) == |nodes|
    decreases |trace|
  {
    if trace != [] {
      var before := trace[..|trace| - 1];
      EachFailureRemovesOne(nodes, before);
      var k := RemovedDropsOne(Remaining(nodes, before), Last(trace).chosen);
    }
  }

  /** An attempt that writes is the last one. */
  lemma {:induction false} WritesLast(nodes: seq<ServerInfo>, trace: seq<Attempt>, i: nat)
    requires WellRun(nodes, trace) && i < |trace| && trace[i].outcome.Written?
    ensures i == |trace| - 1
    decreases |trace|
  {
    if i < |trace| - 1 {
      WritesLast(nodes, trace[..|trace| - 1], i);
    }
  }

  lemma {:induction false} AttemptsAddUp(nodes: seq<ServerInfo>, trace: seq<Attempt>)
    requires WellRun(nodes, trace)
    ensures |trace| == Removals(trace) + Mismatches(trace) + if Succeeded(trace) then 1 else 0
    decreases |trace|
  {
    if trace != [] {
      AttemptsAddUp(nodes, trace[..|trace| - 1]);
    }
  }

  /** The iteration bound: every attempt beyond the number of candidates is a checksum mismatch. */
  lemma {:induction false} AttemptsBound(nodes: seq<ServerInfo>, trace: seq<Attempt>)
    requires WellRun(nodes, trace)
    ensures |trace| <= |nodes| + Mismatches(trace)
  {
    AttemptsAddUp(nodes, trace);
    EachFailureRemovesOne(nodes, trace);
    if Succeeded(trace) {
      EachFailureRemovesOne(nodes, trace[..|trace| - 1]);
      AttemptsAddUp(nodes, trace[..|trace| - 1]);
    }
  }

  /** The loop ends exactly when a write succeeds or as many attempts have failed as there were
      candidates; mismatches alone never end it. */
  lemma {:induction false} FinishedIff(nodes: seq<ServerInfo>, trace: seq<Attempt>)
    requires WellRun(nodes, trace)
    ensures Finished(nodes, trace) <==> Succeeded(trace) || Removals(trace) == |nodes|
    ensures Finished(nodes, trace) <==> Succeeded(trace) || |trace| - Mismatches(trace) == |nodes|
  {
    AttemptsAddUp(nodes, trace);
    EachFailureRemovesOne(nodes, trace);
  }

  /** From a list with candidates, a finished loop has an empty list exactly when no attempt wrote. */
  lemma {:induction false} EmptyIffNoneSucceeded(nodes: seq<ServerInfo>, trace: seq<Attempt>)
    requires WellRun(nodes, trace) && nodes != [] && Finished(nodes, trace)
    ensures Remaining(nodes, trace) == [] <==> forall i :: 0 <= i < |trace| ==> !trace[i].outcome.Written?
  {
    if Succeeded(trace) {
      assert trace[|trace| - 1].outcome.Written?;
    } else if i :| 0 <= i < |trace| && trace[i].outcome.Written? {
      WritesLast(nodes, trace, i);
    }
  }

  // ---------- which candidates are left ----------

  lemma {:induction false} RemovedFrom(nodes: seq<ServerInfo>, id: int, x: ServerInfo)
    requires x in Removed(nodes, id)
    ensures x in nodes
  {
    if nodes[0].id != id && x != nodes[0] {
      RemovedFrom(nodes[1..], id, x);
    }
  }

  lemma {:induction false} RemainingFrom(nodes: seq<ServerInfo>, trace: seq<Attempt>, x: ServerInfo)
    requires x in Remaining(nodes, trace)
    ensures x in nodes
    decreases |trace|
  {
    if trace != [] {
      var before := trace[..|trace| - 1];
      var now := Remaining(nodes, before);
      if x !in now {
        RemovedFrom(now, Last(trace).chosen, x);
      }
      RemainingFrom(nodes, before, x);
    }
  }

  /** How many candidates have this id. */
  function EntriesFor(nodes: seq<ServerInfo>, id: int): nat {
    if nodes == [] then 0 else EntriesFor(nodes[1..], id) + if nodes[0].id == id then 1 else 0
  }

  lemma {:induction false} EntriesForBound(nodes: seq<ServerInfo>, id: int)
    ensures EntriesFor(nodes, id) <= |nodes|
    ensures EntriesFor(nodes, id) == |nodes| ==> forall k :: 0 <= k < |nodes| ==> nodes[k].id == id
  {
    if nodes != [] {
      EntriesForBound(nodes[1..], id);
    }
  }

  lemma {:induction false} RemovedEntry(nodes: seq<ServerInfo>, id: int)
    requires Listed(nodes, id)
    ensures EntriesFor(Removed(nodes, id), id) == EntriesFor(nodes, id) - 1
  {
    if nodes[0].id != id {
      ListedLater(nodes, id);
      RemovedEntry(nodes[1..], id);
      assert Removed(nodes, id)[1..] == Removed(nodes[1..], id);
    }
  }

  predicate AllLocal(trace: seq<Attempt>, id: int) {
    forall i :: 0 <= i < |trace| ==> trace[i].outcome.Local? && trace[i].chosen == id
  }

  lemma AllLocalStep(trace: seq<Attempt>, id: int)
    requires trace != [] && AllLocal(trace[..|trace| - 1], id)
    requires Last(trace).outcome.Local? && Last(trace).chosen == id
    ensures AllLocal(trace, id)
  {
    assert forall i :: 0 <= i < |trace| - 1 ==> trace[i] == trace[..|trace| - 1][i];
  }

  /** While only local attempts were made, one entry for the peer itself went with each. */
  lemma {:induction false} LocalAttempts(nodes: seq<ServerInfo>, trace: seq<Attempt>, id: int)
    requires WellRun(nodes, trace) && AllLocal(trace, id)
    ensures |trace| + EntriesFor(Remaining(nodes, trace), id) == EntriesFor(nodes, id)
    ensures |trace| + |Remaining(nodes, trace)| == |nodes|
    decreases |trace|
  {
    if trace != [] {
      var before := trace[..|trace| - 1];
      LocalAttempts(nodes, before, id);
      RemovedEntry(Remaining(nodes, before), id);
      var k := RemovedDropsOne(Remaining(nodes, before), id);
    }
  }
}
