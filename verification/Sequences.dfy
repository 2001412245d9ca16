/** Small facts about sequences that several modules regroup their lists with. */
module Sequences {

  ghost predicate NoRepeats<T>(s: seq<T>) {
    forall i, j :: 0 <= i < j < |s| ==> s[i] != s[j]
  }

  function Last<T>(s: seq<T>): T
    requires s != []
  {
    s[|s| - 1]
  }

  lemma ConsAppend<T>(s: seq<T>, t: seq<T>)
    requires s != []
    ensures [s[0]] + (s[1..] + t) == s + t
  {
  }

  lemma SnocAppend<T>(s: seq<T>, x: T, t: seq<T>)
    ensures (s + [x]) + t == s + ([x] + t)
  {
  }

  lemma Associate<T>(s: seq<T>, t: seq<T>, u: seq<T>)
    ensures s + (t + u) == (s + t) + u
  {
  }

  lemma TwoFirst<T>(a: T, b: T, t: seq<T>)
    ensures [a] + ([b] + t) == [a, b] + t
  {
  }

  lemma TwoOf<T>(x: T, y: T)
    ensures [x] + [y] == [x, y]
  {
  }

  lemma ThreeOf<T>(x: T, y: T, z: T)
    ensures [x, y] + [z] == [x, y, z]
  {
  }

  lemma LastApart<T>(s: seq<T>, t: seq<T>)
    requires s != []
    ensures s + t == s[..|s| - 1] + ([s[|s| - 1]] + t)
  {
  }

  lemma SplitLast<T>(s: seq<T>)
    requires s != []
    ensures s[..|s| - 1] + [s[|s| - 1]] == s
  {
  }

  lemma Cancel<T>(s: seq<T>, t: seq<T>, u: seq<T>)
    requires s + t == s + u
    ensures t == u
  {
    assert t == (s + t)[|s|..] && u == (s + u)[|s|..];
  }
}
