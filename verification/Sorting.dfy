/** std::sort, known by its promise alone: the order of elements with equal keys is open. */
module Sorting {

  ghost predicate Sorted<T>(s: seq<T>, key: T -> int) {
    forall i, j :: 0 <= i < j < |s| ==> key(s[i]) <= key(s[j])
  }

  ghost predicate Increasing<T>(s: seq<T>, key: T -> int) {
    forall i, j :: 0 <= i < j < |s| ==> key(s[i]) < key(s[j])
  }

  /** t is one of the results a sort of s by key may have. */
  ghost predicate IsSortOf<T>(t: seq<T>, s: seq<T>, key: T -> int) {
    Sorted(t, key) && multiset(t) == multiset(s)
  }

  method Sort<T>(s: seq<T>, key: T -> int) returns (t: seq<T>)
    ensures IsSortOf(t, s, key)
  {
    t := [];
    for n := 0 to |s|
      invariant IsSortOf(t, s[..n], key)
    {
      t := Insert(t, s[n], key, s[..n]);
      assert s[..n + 1] == s[..n] + [s[n]];
    }
    assert s[..|s|] == s;
  }

  /** x goes in behind all elements with keys up to its own. */
  method Insert<T>(t: seq<T>, x: T, key: T -> int, ghost s: seq<T>) returns (u: seq<T>)
    requires IsSortOf(t, s, key)
    ensures IsSortOf(u, s + [x], key)
  {
    var k := 0;
    while k < |t| && key(t[k]) <= key(x)
      invariant 0 <= k <= |t|
      invariant k > 0 ==> key(t[k - 1]) <= key(x)
    {
      k := k + 1;
    }
    InsertSorted(t, s, k, x, key);
    u := t[..k] + [x] + t[k..];
  }

  lemma InsertSorted<T>(t: seq<T>, s: seq<T>, k: nat, x: T, key: T -> int)
    requires IsSortOf(t, s, key) && k <= |t|
    requires k > 0 ==> key(t[k - 1]) <= key(x)
    requires k < |t| ==> key(x) <= key(t[k])
    ensures IsSortOf(t[..k] + [x] + t[k..], s + [x], key)
  {
    InsertOrder(t, k, x, key);
    InsertBag(t, k, x);
  }

  lemma InsertBag<T>(t: seq<T>, k: nat, x: T)
    requires k <= |t|
    ensures multiset(t[..k] + [x] + t[k..]) == multiset(t) + multiset{x}
  {
    assert t == t[..k] + t[k..];
  }

  lemma InsertOrder<T>(t: seq<T>, k: nat, x: T, key: T -> int)
    requires Sorted(t, key) && k <= |t|
    requires k > 0 ==> key(t[k - 1]) <= key(x)
    requires k < |t| ==> key(x) <= key(t[k])
    ensures Sorted(t[..k] + [x] + t[k..], key)
  {
    var r := t[..k] + [x] + t[k..];
    forall i, j | 0 <= i < j < |r|
      ensures key(r[i]) <= key(r[j])
    {
      if i < k {
        assert key(t[i]) <= key(t[k - 1]);
      }
      if j > k {
        assert key(t[k]) <= key(t[j - 1]);
      }
    }
  }

  lemma SameElements<T>(s: seq<T>, t: seq<T>, x: T)
    requires multiset(s) == multiset(t)
    ensures |s| == |t| && (x in s <==> x in t)
  {
    assert |multiset(s)| == |multiset(t)|;
    assert x in multiset(s) <==> x in multiset(t);
  }

  lemma RemoveFirst<T>(s: seq<T>, t: seq<T>)
    requires s != [] && t != [] && s[0] == t[0] && multiset(s) == multiset(t)
    ensures multiset(s[1..]) == multiset(t[1..])
  {
    assert s == [s[0]] + s[1..] && t == [t[0]] + t[1..];
    assert multiset(s[1..]) == multiset(s) - multiset{s[0]};
  }

  lemma RemoveAt<T>(s: seq<T>, t: seq<T>, i: nat)
    requires s != [] && i < |t| && t[i] == s[0] && multiset(s) == multiset(t)
    ensures multiset(s[1..]) == multiset(t[..i] + t[i + 1..])
  {
    assert s == [s[0]] + s[1..] && t == t[..i] + [t[i]] + t[i + 1..];
    assert multiset(s[1..]) == multiset(s) - multiset{s[0]};
  }

  /** Equal keys belong to equal elements, and the keys are in order. */
  ghost predicate Rigid<T>(s: seq<T>, key: T -> int) {
    forall i, j :: 0 <= i < j < |s| ==> InTurn(s[i], s[j], key)
  }

  predicate InTurn<T(==)>(x: T, y: T, key: T -> int) {
    key(x) < key(y) || x == y
  }

  lemma IncreasingIsRigid<T>(s: seq<T>, key: T -> int)
    requires Increasing(s, key)
    ensures Rigid(s, key)
  {
  }

  lemma RigidPrefix<T>(s: seq<T>, k: nat, key: T -> int)
    requires Rigid(s, key) && k <= |s|
    ensures Rigid(s[..k], key)
  {
    forall i, j | 0 <= i < j < k
      ensures InTurn(s[..k][i], s[..k][j], key)
    {
      assert InTurn(s[i], s[j], key);
    }
  }

  lemma RigidGrown<T>(s: seq<T>, x: T, key: T -> int)
    ensures Rigid(s + [x], key) <==> Rigid(s, key) && forall i :: 0 <= i < |s| ==> InTurn(s[i], x, key)
  {
    var t := s + [x];
    assert t[..|s|] == s && t[|s|] == x;
    assert forall i :: 0 <= i < |s| ==> t[i] == s[i];
    if Rigid(t, key) {
      RigidPrefix(t, |s|, key);
      assert forall i :: 0 <= i < |s| ==> InTurn(t[i], t[|s|], key);
    }
  }

  lemma RigidIsSorted<T>(s: seq<T>, key: T -> int)
    requires Rigid(s, key)
    ensures IsSortOf(s, s, key)
  {
    forall i, j | 0 <= i < j < |s|
      ensures key(s[i]) <= key(s[j])
    {
      assert InTurn(s[i], s[j], key);
    }
  }

  /** Then there is only one result, however equal keys are treated: the input. */
  lemma {:induction false} SortOfRigid<T>(t: seq<T>, s: seq<T>, key: T -> int)
    requires IsSortOf(t, s, key) && Rigid(s, key)
    ensures t == s
    decreases |s|
  {
    assert |multiset(s)| == |multiset(t)|;
    if s != [] {
      FirstOfRigid(t, s, key);
      RemoveFirst(s, t);
      RigidTail(s, key);
      SortOfRigid(t[1..], s[1..], key);
    }
  }

  lemma RigidTail<T>(s: seq<T>, key: T -> int)
    requires Rigid(s, key) && s != []
    ensures Rigid(s[1..], key)
  {
    forall i, j | 0 <= i < j < |s| - 1
      ensures InTurn(s[1..][i], s[1..][j], key)
    {
      assert InTurn(s[i + 1], s[j + 1], key);
    }
  }

  lemma FirstOfRigid<T>(t: seq<T>, s: seq<T>, key: T -> int)
    requires IsSortOf(t, s, key) && Rigid(s, key) && s != [] && t != []
    ensures t[0] == s[0]
  {
    SameElements(s, t, s[0]);
    SameElements(s, t, t[0]);
    var i :| 0 <= i < |t| && t[i] == s[0];
    var j :| 0 <= j < |s| && s[j] == t[0];
    assert key(t[0]) <= key(t[i]) == key(s[0]);
    assert j > 0 ==> InTurn(s[0], s[j], key);
  }

  /** An element that is out of turn goes in before another in some sort. */
  lemma SortOutOfTurn<T>(s: seq<T>, x: T, key: T -> int) returns (t: seq<T>)
    requires Rigid(s, key) && !Rigid(s + [x], key)
    ensures IsSortOf(t, s + [x], key) && !(s <= t)
  {
    RigidGrown(s, x, key);
    RigidIsSorted(s, key);
    var i :| 0 <= i < |s| && !InTurn(s[i], x, key);
    var p := 0;
    while key(s[p]) < key(x)
      invariant 0 <= p <= i
      invariant forall j :: 0 <= j < p ==> key(s[j]) < key(x)
      decreases i - p
    {
      assert p != i;
      p := p + 1;
    }
    InsertSorted(s, s, p, x, key);
    t := s[..p] + [x] + s[p..];
    if s <= t {
      AllLikeInserted(s, x, p, i);
    }
  }

  lemma {:induction false} AllLikeInserted<T>(s: seq<T>, x: T, p: nat, i: nat)
    requires p <= i < |s| && s <= s[..p] + [x] + s[p..]
    ensures s[i] == x
    decreases i
  {
    var t := s[..p] + [x] + s[p..];
    assert s[i] == t[i];
    if i > p {
      AllLikeInserted(s, x, p, i - 1);
      assert t[i] == s[i - 1];
    }
  }

  /** With distinct keys already in order there is only one result: the input. */
  lemma SortOfIncreasing<T>(t: seq<T>, s: seq<T>, key: T -> int)
    requires IsSortOf(t, s, key) && Increasing(s, key)
    ensures t == s
  {
    IncreasingIsRigid(s, key);
    SortOfRigid(t, s, key);
  }

  // ---------- permutations seen through a function ----------

  function Mapped<T, U>(s: seq<T>, f: T -> U): (r: seq<U>)
    ensures |r| == |s|
  {
    seq(|s|, i requires 0 <= i < |s| => f(s[i]))
  }

  lemma MappedSplit<T, U>(t: seq<T>, i: nat, f: T -> U)
    requires i < |t|
    ensures multiset(Mapped(t, f)) == multiset(Mapped(t[..i] + t[i + 1..], f)) + multiset{f(t[i])}
  {
    var p := Mapped(t, f);
    assert p == p[..i] + [p[i]] + p[i + 1..];
    assert Mapped(t[..i] + t[i + 1..], f) == p[..i] + p[i + 1..];
  }

  lemma {:induction false} MappedPermutes<T, U>(s: seq<T>, t: seq<T>, f: T -> U)
    requires multiset(s) == multiset(t)
    ensures multiset(Mapped(s, f)) == multiset(Mapped(t, f))
    decreases |s|
  {
    assert |multiset(s)| == |multiset(t)|;
    if s != [] {
      SameElements(s, t, s[0]);
      var i :| 0 <= i < |t| && t[i] == s[0];
      RemoveAt(s, t, i);
      MappedPermutes(s[1..], t[..i] + t[i + 1..], f);
      MappedSplit(t, i, f);
      MappedSplit(s, 0, f);
      assert s[..0] + s[1..] == s[1..];
    }
  }
}
