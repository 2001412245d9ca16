/** The shuffle with which the quorum coordinator picks servers: each place is swapped with a
    strictly lower one, so no draw leaves anything where it was. */
module Shuffle {
  import opened Sequences

  /** rand() % i */
  function Draw(draws: seq<nat>, i: nat): (j: nat)
    requires 0 < i < |draws|
    ensures j < i
  {
    draws[i] % i
  }

  /** What shuffling 0..n-1 yields, by recursion on n: n-1 is put in front of the drawn element
      of the shuffle of 0..n-2, seen as a cycle. */
  function Shuffled(n: nat, draws: seq<nat>): (q: seq<nat>)
    requires n <= |draws|
    ensures |q| == n && forall x :: 0 <= x < n ==> q[x] < n
  {
    if n <= 1 then seq(n, _ => 0)
    else
      var s, j := Shuffled(n - 1, draws), Draw(draws, n - 1);
      seq(n, x requires 0 <= x < n => if x == n - 1 then j else if s[x] == j then n - 1 else s[x])
  }

  /** Following q from place to place runs through around, all of it, and back to its start. */
  ghost predicate IsCycle(q: seq<nat>, around: seq<nat>) {
    && |around| == |q| && NoRepeats(around)
    && (forall t :: 0 <= t < |around| ==> around[t] < |q|)
    && (forall t :: 0 <= t < |around| ==> q[around[t]] == around[if t + 1 < |around| then t + 1 else 0])
  }

  lemma {:induction false} Full(s: seq<nat>, n: nat, x: nat)
    requires NoRepeats(s) && |s| == n && (forall i :: 0 <= i < n ==> s[i] < n) && x < n
    ensures x in s
    decreases n
  {
    if x !in s {
      Crowded(s, n, x);
    }
  }

  /** n places without repeats do not fit below n with one value left out. */
  lemma {:induction false} Crowded(s: seq<nat>, n: nat, x: nat)
    requires NoRepeats(s) && (forall i :: 0 <= i < |s| ==> s[i] < n && s[i] != x) && x < n
    ensures |s| < n
    decreases n
  {
    if s != [] {
      assert s[0] != x && s[0] < n;
      if x == n - 1 {
        Crowded(s[1..], n - 1, s[0]);
      } else if k :| 0 <= k < |s| && s[k] == n - 1 {
        Crowded(s[..k] + s[k + 1..], n - 1, x);
      } else {
        Crowded(s, n - 1, x);
      }
    }
  }

  /** Whatever is drawn, the result is one single cycle through all places. */
  lemma {:induction false} SingleCycle(n: nat, draws: seq<nat>) returns (around: seq<nat>)
    requires n <= |draws|
    ensures IsCycle(Shuffled(n, draws), around)
  {
    if n <= 1 {
      around := seq(n, _ => 0);
    } else {
      var s, j := Shuffled(n - 1, draws), Draw(draws, n - 1);
      var a := SingleCycle(n - 1, draws);
      Full(a, n - 1, j);
      var k :| 0 <= k < |a| && a[k] == j;
      around := a[..k] + [n - 1] + a[k..];
      CycleInsert(s, a, k, Shuffled(n, draws), around);
    }
  }

  lemma CycleInsert(s: seq<nat>, a: seq<nat>, k: nat, q: seq<nat>, around: seq<nat>)
    requires IsCycle(s, a) && k < |a| && |q| == |s| + 1
    requires forall x :: 0 <= x < |q| ==> q[x] == if x == |s| then a[k] else if s[x] == a[k] then |s| else s[x]
    requires around == a[..k] + [|s|] + a[k..]
    ensures IsCycle(q, around)
  {
    forall t | 0 <= t < |around|
      ensures around[t] < |q| && q[around[t]] == around[if t + 1 < |around| then t + 1 else 0]
    {
      if t < k {
        assert s[a[t]] == a[t + 1];
      } else if t > k {
        assert around[t] == a[t - 1] && s[a[t - 1]] == a[if t < |a| then t else 0];
      }
    }
  }

  // ---------- what that means ----------

  function Follow(q: seq<nat>, x: nat, steps: nat): nat
    requires x < |q| && forall y :: 0 <= y < |q| ==> q[y] < |q|
    decreases steps
  {
    if steps == 0 then x else Follow(q, q[x], steps - 1)
  }

  lemma {:induction false} FollowAround(q: seq<nat>, around: seq<nat>, t: nat, steps: nat)
    requires IsCycle(q, around) && t + steps < |around| && (forall y :: 0 <= y < |q| ==> q[y] < |q|)
    ensures Follow(q, around[t], steps) == around[t + steps]
    decreases steps
  {
    if steps > 0 {
      FollowAround(q, around, t + 1, steps - 1);
    }
  }

  lemma {:induction false} FollowSum(q: seq<nat>, x: nat, a: nat, b: nat)
    requires x < |q| && forall y :: 0 <= y < |q| ==> q[y] < |q|
    ensures Follow(q, x, a) < |q| && Follow(q, x, a + b) == Follow(q, Follow(q, x, a), b)
    decreases a
  {
    if a > 0 {
      FollowSum(q, q[x], a - 1, b);
    }
  }

  /** From any place every other is reached by following the shuffle: there is no shorter cycle. */
  lemma EveryPlaceReached(n: nat, draws: seq<nat>, x: nat, y: nat) returns (steps: nat)
    requires n <= |draws| && x < n && y < n
    ensures Follow(Shuffled(n, draws), x, steps) == y
  {
    var around := SingleCycle(n, draws);
    steps := CycleReaches(Shuffled(n, draws), around, x, y);
  }

  lemma CycleReaches(q: seq<nat>, around: seq<nat>, x: nat, y: nat) returns (steps: nat)
    requires IsCycle(q, around) && x < |q| && y < |q| && forall z :: 0 <= z < |q| ==> q[z] < |q|
    ensures Follow(q, x, steps) == y
  {
    var n := |q|;
    Full(around, n, x);
    Full(around, n, y);
    var i :| 0 <= i < n && around[i] == x;
    var j :| 0 <= j < n && around[j] == y;
    FollowAround(q, around, i, n - 1 - i);
    var last := around[n - 1];
    assert q[last] == around[0];
    assert Follow(q, last, 1 + j) == Follow(q, around[0], j);
    FollowAround(q, around, 0, j);
    FollowSum(q, x, n - 1 - i, 1 + j);
    steps := n - 1 - i + (1 + j);
  }

  lemma SuccessorsDiffer(q: seq<nat>, around: seq<nat>, i: nat, j: nat)
    requires IsCycle(q, around) && i < |q| && j < |q| && i != j
    ensures q[i] != q[j]
  {
    Full(around, |q|, i);
    Full(around, |q|, j);
    var a :| 0 <= a < |around| && around[a] == i;
    var b :| 0 <= b < |around| && around[b] == j;
    var a' := if a + 1 < |around| then a + 1 else 0;
    var b' := if b + 1 < |around| then b + 1 else 0;
    assert q[around[a]] == around[a'] && q[around[b]] == around[b'];
    assert a' != b';
  }

  /** It is a permutation, from two servers on nothing keeps its place, and the entries picked
      from the front are distinct servers. */
  lemma ShuffleIsDerangement(n: nat, draws: seq<nat>)
    requires n <= |draws|
    ensures NoRepeats(Shuffled(n, draws)) && forall x :: 0 <= x < n ==> x in Shuffled(n, draws)
    ensures n >= 2 ==> forall x :: 0 <= x < n ==> Shuffled(n, draws)[x] != x
  {
    var q := Shuffled(n, draws);
    var around := SingleCycle(n, draws);
    forall i, j | 0 <= i < j < n
      ensures q[i] != q[j]
    {
      SuccessorsDiffer(q, around, i, j);
    }
    forall x | 0 <= x < n
      ensures x in q
      ensures n >= 2 ==> q[x] != x
    {
      Full(q, n, x);
      Full(around, n, x);
      var a :| 0 <= a < n && around[a] == x;
      assert n >= 2 ==> around[a] != around[if a + 1 < n then a + 1 else 0];
    }
  }

  // ---------- which shuffles there are ----------

  lemma {:induction false} ShuffledPrefix(n: nat, draws: seq<nat>, more: seq<nat>)
    requires n <= |draws|
    ensures Shuffled(n, draws + more) == Shuffled(n, draws)
  {
    if n > 1 {
      ShuffledPrefix(n - 1, draws, more);
    }
  }

  /** The shuffle without its last place: what led there leads on to where that led. */
  function Bypassed(q: seq<nat>): (s: seq<nat>)
    requires |q| >= 2
    ensures |s| == |q| - 1
  {
    var m := |q| - 1;
    seq(m, x requires 0 <= x < m => if q[x] == m then q[m] else q[x])
  }

  lemma BypassedCycle(q: seq<nat>, around: seq<nat>, k: nat)
    requires IsCycle(q, around) && |q| >= 2 && k < |q| && around[k] == |q| - 1
    ensures q[|q| - 1] < |q| - 1 && IsCycle(Bypassed(q), around[..k] + around[k + 1..])
  {
    var m, s, a := |q| - 1, Bypassed(q), around[..k] + around[k + 1..];
    assert q[around[k]] == around[if k + 1 < |q| then k + 1 else 0];
    forall t | 0 <= t < m
      ensures a[t] < m && s[a[t]] == a[if t + 1 < m then t + 1 else 0]
    {
      var u := if t < k then t else t + 1;
      assert a[t] == around[u] != around[k] && q[around[u]] == around[if u + 1 < |q| then u + 1 else 0];
    }
  }

  /** Every single cycle is the shuffle of some draws. */
  lemma {:induction false} EveryCycleDrawn(q: seq<nat>, around: seq<nat>) returns (draws: seq<nat>)
    requires IsCycle(q, around)
    ensures |draws| == |q| && Shuffled(|q|, draws) == q
    decreases |q|
  {
    var n := |q|;
    if n <= 1 {
      draws := seq(n, _ => 0);
      assert n == 1 ==> q[around[0]] == around[0];
    } else {
      var m := n - 1;
      Full(around, n, m);
      var k :| 0 <= k < n && around[k] == m;
      BypassedCycle(q, around, k);
      var before := EveryCycleDrawn(Bypassed(q), around[..k] + around[k + 1..]);
      draws := before + [q[m]];
      Redrawn(q, around, before);
    }
  }

  lemma Redrawn(q: seq<nat>, around: seq<nat>, before: seq<nat>)
    requires IsCycle(q, around) && |q| >= 2 && |before| == |q| - 1 && q[|q| - 1] < |q| - 1
    requires Shuffled(|q| - 1, before) == Bypassed(q)
    ensures Shuffled(|q|, before + [q[|q| - 1]]) == q
  {
    var m := |q| - 1;
    ShuffledPrefix(m, before, [q[m]]);
    SmallModulus(q[m], m);
    assert Draw(before + [q[m]], m) == q[m];
    forall x | 0 <= x < m
      ensures q[x] != q[m]
    {
      SuccessorsDiffer(q, around, x, m);
    }
    PutThrough(q, before + [q[m]]);
  }

  lemma PutThrough(q: seq<nat>, draws: seq<nat>)
    requires 2 <= |q| <= |draws| && Draw(draws, |q| - 1) == q[|q| - 1] < |q| - 1
    requires Shuffled(|q| - 1, draws) == Bypassed(q)
    requires forall x :: 0 <= x < |q| - 1 ==> q[x] != q[|q| - 1]
    ensures Shuffled(|q|, draws) == q
  {
    var n := |q|;
    forall x | 0 <= x < n
      ensures Shuffled(n, draws)[x] == q[x]
    {
      if x < n - 1 {
        assert Bypassed(q)[x] == if q[x] == n - 1 then q[n - 1] else q[x];
      }
    }
  }

  lemma SmallModulus(j: nat, m: nat)
    requires j < m
    ensures j % m == j
  {
  }

  /** And no two draws that differ give the same: the draw for each place counts modulo that place. So each of the
      cycles is as likely as any other. */
  lemma {:induction false} DrawsUnique(n: nat, draws: seq<nat>, draws': seq<nat>)
    requires n <= |draws| && n <= |draws'|
    ensures Shuffled(n, draws) == Shuffled(n, draws') <==> forall i :: 0 < i < n ==> draws[i] % i == draws'[i] % i
  {
    if n > 1 {
      DrawsUnique(n - 1, draws, draws');
      var q, q' := Shuffled(n, draws), Shuffled(n, draws');
      Unshuffled(n, draws);
      Unshuffled(n, draws');
      assert q == q' ==> q[n - 1] == q'[n - 1];
    }
  }

  lemma Unshuffled(n: nat, draws: seq<nat>)
    requires 2 <= n <= |draws|
    ensures Shuffled(n, draws)[n - 1] == draws[n - 1] % (n - 1)
    ensures Bypassed(Shuffled(n, draws)) == Shuffled(n - 1, draws)
  {
  }

  // ---------- the loop ----------

  /** The outcome still to come when places k and above are done. */
  ghost function Ahead(q: seq<nat>, k: nat, draws: seq<nat>): seq<nat>
    requires k <= |q| <= |draws|
  {
    seq(|q|, x requires 0 <= x < |q| => if x < k then q[Shuffled(k, draws)[x]] else q[x])
  }

  lemma SwapStep(q: seq<nat>, i: nat, draws: seq<nat>)
    requires 0 < i < |q| <= |draws|
    ensures Ahead(q[i := q[Draw(draws, i)]][Draw(draws, i) := q[i]], i, draws) == Ahead(q, i + 1, draws)
  {
    var j, s := Draw(draws, i), Shuffled(i, draws);
    var q' := q[i := q[j]][j := q[i]];
    forall x | 0 <= x < |q|
      ensures Ahead(q', i, draws)[x] == Ahead(q, i + 1, draws)[x]
    {
      if x < i {
        assert Shuffled(i + 1, draws)[x] == if s[x] == j then i else s[x];
      } else if x == i {
        assert Shuffled(i + 1, draws)[x] == j;
      }
    }
  }

  method ShuffleInPlace(quorum: array<nat>, draws: seq<nat>)
    requires quorum.Length <= |draws|
    modifies quorum
    ensures quorum[..] == Shuffled(quorum.Length, draws)
  {
    var size := quorum.Length;
    for i := 0 to size
      invariant forall x :: 0 <= x < i ==> quorum[x] == x
    {
      quorum[i] := i;
    }
    AheadOfIdentity(quorum[..], draws);
    var i := size - 1;
    while i > 0
      invariant -1 <= i < size
      invariant Ahead(quorum[..], i + 1, draws) == Shuffled(size, draws)
    {
      ghost var q := quorum[..];
      var j := Draw(draws, i);
      quorum[i], quorum[j] := quorum[j], quorum[i];
      assert quorum[..] == q[i := q[j]][j := q[i]];
      SwapStep(q, i, draws);
      i := i - 1;
    }
    NothingAhead(quorum[..], i + 1, draws);
  }

  lemma AheadOfIdentity(q: seq<nat>, draws: seq<nat>)
    requires |q| <= |draws| && forall x :: 0 <= x < |q| ==> q[x] == x
    ensures Ahead(q, |q|, draws) == Shuffled(|q|, draws)
  {
  }

  lemma NothingAhead(q: seq<nat>, k: nat, draws: seq<nat>)
    requires k <= 1 && k <= |q| <= |draws|
    ensures Ahead(q, k, draws) == q
  {
    forall x | 0 <= x < |q|
      ensures Ahead(q, k, draws)[x] == q[x]
    {
      if x < k {
        assert Shuffled(k, draws)[x] == 0;
      }
    }
  }

  /** selectRandomServer: the first of the shuffled servers; index 0 stands for the first of the
      coordinator's own list, which the callers also pass as ips. */
  method SelectRandomServer(size: nat, select: nat, ips: seq<string>, own: seq<string>, draws: seq<nat>)
    returns (selected: seq<string>)
    requires select <= size <= |ips| && size <= |draws| && own != []
    ensures |selected| == select
    ensures forall i :: 0 <= i < select ==>
              selected[i] == if Shuffled(size, draws)[i] == 0 then own[0] else ips[Shuffled(size, draws)[i]]
    ensures own == ips && NoRepeats(ips) ==> NoRepeats(selected)
  {
    var quorum := new nat[size];
    ShuffleInPlace(quorum, draws);
    ShuffleIsDerangement(size, draws);
    selected := [];
    for i := 0 to select
      invariant |selected| == i
      invariant forall k :: 0 <= k < i ==>
                  selected[k] == if Shuffled(size, draws)[k] == 0 then own[0] else ips[Shuffled(size, draws)[k]]
    {
      assert quorum[i] == quorum[..][i];
      var current := ips[quorum[i]];
      if quorum[i] == 0 {
        current := own[0];
      }
      selected := selected + [current];
    }
  }
}
