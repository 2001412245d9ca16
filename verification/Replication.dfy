/** What a server does with one write, and what a log of writes amounts to. The primary-backup
    and the local-write servers share this. */
module Replication {
  import opened Articles
  import opened Sorting

  /** A write as the primary broadcasts it: the ID it assigned, the article replied to (-1 for
      a new post) and the text to store. */
  datatype Write = Write(articleId: int, repId: int, content: string)

  /** A reply needs its target in the list. */
  predicate Accepts(articles: seq<Article>, w: Write) {
    w.repId == -1 || IndexOf(articles, w.repId) < |articles|
  }

  function Hierachy(articles: seq<Article>, repId: int): int
    requires repId == -1 || IndexOf(articles, repId) < |articles|
  {
    if repId == -1 then 0 else articles[IndexOf(articles, repId)].hierachy + 1
  }

  function Apply(articles: seq<Article>, w: Write): seq<Article> {
    if Accepts(articles, w) then articles + [Article(w.articleId, w.content, Hierachy(articles, w.repId))]
    else articles
  }

  /** A write adds one article if it is a post or some article in the list has the ID it replies to, and
      otherwise nothing. */
  lemma {:induction false} ApplyAddsIff(articles: seq<Article>, w: Write)
    ensures |Apply(articles, w)| == |articles| + 1 <==>
            w.repId == -1 || exists i :: 0 <= i < |articles| && articles[i].id == w.repId
    ensures |Apply(articles, w)| != |articles| + 1 ==> Apply(articles, w) == articles
  {
    if i :| 0 <= i < |articles| && articles[i].id == w.repId {
      assert IndexOf(articles, w.repId) <= i;
    }
  }

  /** A post is added at level 0, a reply one level below the first article with the ID it replies to, both
      under the ID they came with. */
  lemma {:induction false} ApplyAdds(articles: seq<Article>, w: Write)
    ensures w.repId == -1 ==> Apply(articles, w) == articles + [Article(w.articleId, w.content, 0)]
    ensures forall k :: 0 <= k < |articles| && articles[k].id == w.repId != -1
                        && (forall i :: 0 <= i < k ==> articles[i].id != w.repId) ==>
              Apply(articles, w) == articles + [Article(w.articleId, w.content, articles[k].hierachy + 1)]
  {
    forall k | 0 <= k < |articles| && articles[k].id == w.repId && forall i :: 0 <= i < k ==> articles[i].id != w.repId
      ensures IndexOf(articles, w.repId) == k
    {
      IndexUnique(articles, w.repId, k);
    }
  }

  function Replay(log: seq<Write>): seq<Article> {
    if log == [] then [] else Apply(Replay(log[..|log| - 1]), log[|log| - 1])
  }

  /** The writes of the log that found their target. */
  function Accepted(log: seq<Write>): seq<Write> {
    if log == [] then []
    else
      var w := log[|log| - 1];
      Accepted(log[..|log| - 1]) + if Accepts(Replay(log[..|log| - 1]), w) then [w] else []
  }

  /** A shorter log leads to a prefix of the list. */
  lemma {:induction false} ReplayPrefix(log: seq<Write>, k: nat)
    requires k <= |log|
    ensures Replay(log[..k]) <= Replay(log)
  {
    if k < |log| {
      ReplayPrefix(log[..|log| - 1], k);
      assert log[..|log| - 1][..k] == log[..k];
    } else {
      assert log[..k] == log;
    }
  }

  /** The list holds exactly the accepted writes, in log order, under the IDs they came with. */
  lemma {:induction false} ReplayIsAccepted(log: seq<Write>)
    ensures |Replay(log)| == |Accepted(log)| <= |log|
    ensures forall i :: 0 <= i < |Replay(log)| ==>
              Replay(log)[i].id == Accepted(log)[i].articleId && Replay(log)[i].content == Accepted(log)[i].content
  {
    if log != [] {
      ReplayIsAccepted(log[..|log| - 1]);
    }
  }

  // ---------- lists that agree but for order and levels ----------

  /** What an article carries into every server alike. */
  datatype Stem = Stem(id: int, content: string)

  const STEM_OF: Article -> Stem := (a: Article) => Stem(a.id, a.content)

  /** The same texts under the same IDs, in whatever order. */
  ghost predicate SameStems(a: seq<Article>, b: seq<Article>) {
    multiset(Mapped(a, STEM_OF)) == multiset(Mapped(b, STEM_OF))
  }

  lemma {:induction false} StemsPermute(a: seq<Article>, b: seq<Article>)
    requires multiset(a) == multiset(b)
    ensures SameStems(a, b)
  {
    MappedPermutes(a, b, STEM_OF);
  }

  lemma {:induction false} StemsKnow(a: seq<Article>, b: seq<Article>, id: int)
    requires SameStems(a, b) && IndexOf(a, id) < |a|
    ensures IndexOf(b, id) < |b|
  {
    var k := IndexOf(a, id);
    var x := Mapped(a, STEM_OF)[k];
    assert x in multiset(Mapped(a, STEM_OF)) && x in multiset(Mapped(b, STEM_OF));
    var j :| 0 <= j < |b| && Mapped(b, STEM_OF)[j] == x;
    assert b[j].id == id;
  }

  /** Such lists accept the same writes, and stay so. */
  lemma {:induction false} StemsAccept(a: seq<Article>, b: seq<Article>, w: Write)
    requires SameStems(a, b)
    ensures Accepts(a, w) <==> Accepts(b, w)
    ensures SameStems(Apply(a, w), Apply(b, w))
  {
    if w.repId != -1 && IndexOf(a, w.repId) < |a| {
      StemsKnow(a, b, w.repId);
    }
    if w.repId != -1 && IndexOf(b, w.repId) < |b| {
      StemsKnow(b, a, w.repId);
    }
    if Accepts(a, w) {
      var x := Stem(w.articleId, w.content);
      assert Mapped(Apply(a, w), STEM_OF) == Mapped(a, STEM_OF) + [x];
      assert Mapped(Apply(b, w), STEM_OF) == Mapped(b, STEM_OF) + [x];
    }
  }

  // ---------- IDs 1..n and reply chains ----------

  /** Each write came with the number of articles before it plus one. */
  ghost predicate Sequential(log: seq<Write>) {
    log == [] || (Sequential(log[..|log| - 1]) && log[|log| - 1].articleId == |Replay(log[..|log| - 1])| + 1)
  }

  lemma {:induction false} SequentialPrefix(log: seq<Write>, k: nat)
    requires Sequential(log) && k <= |log|
    ensures Sequential(log[..k])
  {
    if k < |log| {
      SequentialPrefix(log[..|log| - 1], k);
      assert log[..|log| - 1][..k] == log[..k];
    } else {
      assert log[..k] == log;
    }
  }

  /** And then the next write is stored if and only if it is a post or replies to one of the articles so far. */
  lemma {:induction false} SequentialAddsIff(log: seq<Write>, w: Write)
    requires Sequential(log)
    ensures |Replay(log + [w])| == |Replay(log)| + 1 <==> w.repId == -1 || 1 <= w.repId <= |Replay(log)|
  {
    assert (log + [w])[..|log|] == log;
    SequentialReplay(log);
    FindNumbered(Replay(log), w.repId);
  }

  /** Article ID of the target of an accepted write is a position before its own. */
  ghost predicate ParentsBefore(acc: seq<Write>) {
    forall i :: 0 <= i < |acc| ==> acc[i].repId == -1 || 1 <= acc[i].repId <= i
  }

  /** The length of the chain of replies from article i + 1 up to a post. */
  ghost function Depth(acc: seq<Write>, i: nat): nat
    requires ParentsBefore(acc) && i < |acc|
    decreases i
  {
    if acc[i].repId == -1 then 0 else 1 + Depth(acc, acc[i].repId - 1)
  }

  lemma {:induction false} DepthPrefix(acc: seq<Write>, w: Write, i: nat)
    requires ParentsBefore(acc) && ParentsBefore(acc + [w]) && i < |acc|
    ensures Depth(acc + [w], i) == Depth(acc, i)
    decreases i
  {
    if acc[i].repId != -1 {
      DepthPrefix(acc, w, acc[i].repId - 1);
    }
  }

  /** IDs are exactly 1..n, replies point backwards, and hierachy is the depth of the chain. */
  ghost predicate Threaded(articles: seq<Article>, acc: seq<Write>) {
    && Numbered(articles) && ParentsBefore(acc) && |acc| == |articles|
    && forall i :: 0 <= i < |articles| ==> articles[i].hierachy == Depth(acc, i)
  }

  lemma {:induction false} ThreadedStep(articles: seq<Article>, acc: seq<Write>, w: Write)
    requires Threaded(articles, acc) && Accepts(articles, w) && w.articleId == |articles| + 1
    ensures Threaded(Apply(articles, w), acc + [w])
  {
    FindNumbered(articles, w.repId);
    var acc' := acc + [w];
    assert ParentsBefore(acc');
    var articles' := Apply(articles, w);
    forall i | 0 <= i < |articles'|
      ensures articles'[i].hierachy == Depth(acc', i)
    {
      if i < |articles| {
        DepthPrefix(acc, w, i);
      } else if w.repId != -1 {
        DepthPrefix(acc, w, w.repId - 1);
      }
    }
  }

  lemma {:induction false} SequentialReplay(log: seq<Write>)
    requires Sequential(log)
    ensures Threaded(Replay(log), Accepted(log))
  {
    if log != [] {
      var b, w := log[..|log| - 1], log[|log| - 1];
      SequentialReplay(b);
      if Accepts(Replay(b), w) {
        ThreadedStep(Replay(b), Accepted(b), w);
      } else {
        assert Accepted(log) == Accepted(b);
      }
    }
  }
}
