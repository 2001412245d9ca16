/** The quorum-consistency servers: the coordinator writes to a random selection, then takes the
    list of the newest of them and loads it into every server. */
module Quorum {
  import opened Tokenizer
  import opened Articles
  import opened Sorting

  /** A server's list, the ID it gave last, and its version counter. */
  datatype Node = Node(articles: seq<Article>, id: int, ver: nat)

  type System = seq<Node>

  // ---------- quorum sizes ----------

  predicate IsValidQR(n: int, nr: int, nw: int) {
    nr + nw > n
  }

  predicate IsValidQW(n: nat, nw: int) {
    nw > n / 2
  }

  predicate IsValidQ(n: nat, nr: int, nw: int) {
    IsValidQR(n, nr, nw) && IsValidQW(n, nw)
  }

  /** k distinct servers out of n. */
  ghost predicate Selection(sel: set<nat>, k: nat, n: nat) {
    |sel| == k && forall i :: i in sel ==> i < n
  }

  /** Any nr and any nw servers share one, and so do any two sets of nw. */
  ghost predicate Overlap(n: nat, nr: nat, nw: nat) {
    && (forall r: set<nat>, w: set<nat> :: Selection(r, nr, n) && Selection(w, nw, n) ==> r * w != {})
    && (forall v: set<nat>, w: set<nat> :: Selection(v, nw, n) && Selection(w, nw, n) ==> v * w != {})
  }

  function Range(lo: nat, hi: nat): (s: set<nat>)
    requires lo <= hi
    ensures |s| == hi - lo && forall i :: i in s <==> lo <= i < hi
  {
    if lo == hi then {} else Range(lo, hi - 1) + {hi - 1}
  }

  lemma {:induction false} DisjointFit(r: set<nat>, w: set<nat>, n: nat)
    requires r * w == {} && (forall i :: i in r || i in w ==> i < n)
    ensures |r| + |w| <= n
  {
    var both := r + w;
    assert |both| == |r| + |w|;
    SubsetSize(both, Range(0, n));
  }

  lemma {:induction false} SubsetSize(a: set<nat>, b: set<nat>)
    requires a <= b
    ensures |a| <= |b|
  {
    if a != {} {
      var x :| x in a;
      SubsetSize(a - {x}, b - {x});
    }
  }

  /** The check accepts exactly the sizes that make selections overlap. */
  lemma {:induction false} ValidIffOverlap(n: nat, nr: nat, nw: nat)
    ensures IsValidQ(n, nr, nw) <==> Overlap(n, nr, nw)
  {
    if IsValidQ(n, nr, nw) {
      forall r: set<nat>, w: set<nat> | Selection(w, nw, n) && (Selection(r, nr, n) || Selection(r, nw, n))
        ensures r * w != {}
      {
        if r * w == {} {
          DisjointFit(r, w, n);
        }
      }
    } else if nr + nw <= n {
      var r, w := Range(0, nr), Range(nr, nr + nw);
      assert Selection(r, nr, n) && Selection(w, nw, n) && r * w == {};
    } else {
      var v, w := Range(0, nw), Range(nw, nw + nw);
      assert Selection(v, nw, n) && Selection(w, nw, n) && v * w == {};
    }
  }

  /** Of the accepted sizes, those up to n can be selected, and then neither is 0; for any other the source
      reads past the end of its shuffled servers. */
  lemma {:induction false} AcceptedIsSelectableIff(n: nat, nr: nat, nw: nat)
    requires IsValidQ(n, nr, nw)
    ensures (exists r: set<nat> :: Selection(r, nr, n)) && (exists w: set<nat> :: Selection(w, nw, n)) <==>
            nr <= n && nw <= n
    ensures nr <= n && nw <= n ==> nr > 0 && nw > 0
  {
    SelectableIff(n, nr);
    SelectableIff(n, nw);
  }

  lemma {:induction false} SelectableIff(n: nat, k: nat)
    ensures (exists s: set<nat> :: Selection(s, k, n)) <==> k <= n
  {
    if k <= n {
      assert Selection(Range(0, k), k, n);
    } else if s: set<nat> :| Selection(s, k, n) {
      SubsetSize(s, Range(0, n));
    }
  }

  /** Sizes that are accepted although one of them cannot be selected. */
  lemma {:induction false} AcceptedTooLarge()
    ensures IsValidQ(3, 4, 3) && !exists r: set<nat> :: Selection(r, 4, 3)
  {
    SelectableIff(3, 4);
  }

  // ---------- getNewestServer ----------

  /** The position in sel of the last server with the highest version. */
  ghost predicate IsNewest(vers: seq<nat>, k: nat) {
    && k < |vers|
    && (forall i :: 0 <= i < |vers| ==> vers[i] <= vers[k])
    && (forall i :: k < i < |vers| ==> vers[i] < vers[k])
  }

  method GetNewestServer(vers: seq<nat>) returns (newest: nat)
    requires vers != []
    ensures IsNewest(vers, newest)
    ensures newest < |vers| && forall i :: 0 <= i < |vers| ==> vers[i] <= vers[newest]
    ensures forall i :: newest < i < |vers| ==> vers[i] < vers[newest]
  {
    var maxVer := 0;
    newest := 0;
    for i := 0 to |vers|
      invariant i == 0 ==> maxVer == 0
      invariant i > 0 ==> newest < i && maxVer == vers[newest]
      invariant forall j :: 0 <= j < i ==> vers[j] <= maxVer
      invariant forall j :: newest < j < i ==> vers[j] < maxVer
    {
      if vers[i] >= maxVer {
        newest := i;
        maxVer := vers[i];
      }
    }
  }

  // ---------- the operations ----------

  /** A client's request at the coordinator. sel are the servers selected; a reply names the ID
      of its target. Heartbeat also stands for SYNCH with a nonempty store. */
  datatype Op = Post(sel: seq<nat>, content: string) | Reply(sel: seq<nat>, target: int, content: string)
              | Read(sel: seq<nat>) | Synch | Heartbeat

  ghost predicate SelOk(sel: seq<nat>, n: nat) {
    && sel != []
    && (forall i :: 0 <= i < |sel| ==> sel[i] < n)
    && (forall i, j :: 0 <= i < j < |sel| ==> sel[i] != sel[j])
  }

  /** writeArticle */
  function Wrote(p: Node, content: string, preHie: int): Node {
    Node(p.articles + [Article(p.id + 1, content, preHie + 1)], p.id + 1, p.ver + 1)
  }

  function WriteSelected(sys: System, sel: seq<nat>, content: string, preHie: int): System {
    seq(|sys|, i requires 0 <= i < |sys| => if i in sel then Wrote(sys[i], content, preHie) else sys[i])
  }

  function Vers(sys: System, sel: seq<nat>): (r: seq<nat>)
    requires forall i :: 0 <= i < |sel| ==> sel[i] < |sys|
    ensures |r| == |sel|
  {
    seq(|sel|, i requires 0 <= i < |sel| => sys[sel[i]].ver)
  }

  function Everyone(n: nat): seq<nat> {
    seq(n, i requires 0 <= i < n => i)
  }

  /** synchSelectedServer on all servers; IDs and versions stay as they are. */
  function LoadAll(sys: System, message: string): System {
    seq(|sys|, i requires 0 <= i < |sys| => sys[i].(articles := Loaded(Tokens(message, {'$'}))))
  }

  /** The newest of the selected servers sends its list, sorted in place first. */
  ghost predicate Sent(sys: System, sel: seq<nat>, k: nat, sorted: seq<Article>)
    requires forall i :: 0 <= i < |sel| ==> sel[i] < |sys|
  {
    IsNewest(Vers(sys, sel), k) && IsSortOf(sorted, sys[sel[k]].articles, BY_ID)
  }

  /** Writing to the selection and synchronising everyone with the newest of it. */
  ghost predicate PostStep(sys: System, sel: seq<nat>, content: string, preHie: int, sys': System) {
    && SelOk(sel, |sys|)
    && var written := WriteSelected(sys, sel, content, preHie);
    exists k: nat, sorted: seq<Article> :: Sent(written, sel, k, sorted) && sys' == Synched(written, sorted)
  }

  /** synchSelectedServer is only called for a message that is not empty. */
  function Synched(sys: System, sorted: seq<Article>): System {
    if Encode(sorted) != "" then LoadAll(sys, Encode(sorted)) else sys
  }

  /** A synchronisation with an empty list is skipped, while the heartbeat empties every server. */
  lemma {:induction false} SynchNeedsArticles(sys: System, sorted: seq<Article>)
    ensures sorted == [] ==> Synched(sys, sorted) == sys
    ensures sorted != [] ==> Synched(sys, sorted) == LoadAll(sys, Encode(sorted))
    ensures sorted == [] ==> forall i :: 0 <= i < |sys| ==> LoadAll(sys, Encode(sorted))[i] == sys[i].(articles := [])
  {
    EncodeEmpty(sorted);
    assert Tokens("", {'$'}) == [];
  }

  /** The hierachy the reply is given is read at the newest server of all. */
  ghost predicate Target(sys: System, target: int, preHie: int) {
    exists k: nat :: IsNewest(Vers(sys, Everyone(|sys|)), k)
                && var a := sys[k].articles;
                IndexOf(a, target) < |a| && preHie == a[IndexOf(a, target)].hierachy
  }

  ghost predicate ReplyStep(sys: System, sel: seq<nat>, target: int, content: string, sys': System) {
    exists preHie: int :: Target(sys, target, preHie) && PostStep(sys, sel, content, preHie, sys')
  }

  ghost predicate ReadStep(sys: System, sel: seq<nat>, sys': System) {
    SelOk(sel, |sys|) && exists k: nat, sorted: seq<Article> ::
      Sent(sys, sel, k, sorted) && sys' == sys[sel[k] := sys[sel[k]].(articles := sorted)]
  }

  ghost predicate SynchStep(sys: System, sys': System) {
    exists k: nat, sorted: seq<Article> :: Sent(sys, Everyone(|sys|), k, sorted) && sys' == Synched(sys, sorted)
  }

  /** The heartbeat loads even an empty message. */
  ghost predicate HeartbeatStep(sys: System, sys': System) {
    exists k: nat, sorted: seq<Article> :: Sent(sys, Everyone(|sys|), k, sorted) && sys' == LoadAll(sys, Encode(sorted))
  }

  ghost predicate Step(sys: System, op: Op, sys': System) {
    match op
    case Post(sel, content) => PostStep(sys, sel, content, -1, sys')
    case Reply(sel, target, content) => ReplyStep(sys, sel, target, content, sys')
    case Read(sel) => ReadStep(sys, sel, sys')
    case Synch => SynchStep(sys, sys')
    case Heartbeat => HeartbeatStep(sys, sys')
  }

  // ---------- what holds between operations ----------

  datatype Posted = Posted(content: string, hierachy: int)

  const PAIR_OF: Article -> Posted := (a: Article) => Posted(a.content, a.hierachy)

  function Pairs(articles: seq<Article>): (r: seq<Posted>)
    ensures |r| == |articles|
  {
    seq(|articles|, i requires 0 <= i < |articles| => Posted(articles[i].content, articles[i].hierachy))
  }

  /** Every server holds this list, with IDs 1..n. */
  ghost predicate AllHold(sys: System, articles: seq<Article>) {
    && Numbered(articles) && WellFormedContents(articles)
    && forall i :: 0 <= i < |sys| ==> sys[i].articles == articles
  }

  lemma {:induction false} PairsPermute(s: seq<Article>, t: seq<Article>)
    requires multiset(s) == multiset(t)
    ensures multiset(Pairs(s)) == multiset(Pairs(t))
  {
    MappedPermutes(s, t, PAIR_OF);
    assert Pairs(s) == Mapped(s, PAIR_OF) && Pairs(t) == Mapped(t, PAIR_OF);
  }

  lemma {:induction false} WellFormedPermute(s: seq<Article>, t: seq<Article>)
    requires multiset(s) == multiset(t) && WellFormedContents(s)
    ensures WellFormedContents(t)
  {
    forall i | 0 <= i < |t|
      ensures ContentAt(t, i)
    {
      SameElements(s, t, t[i]);
      var j :| 0 <= j < |s| && s[j] == t[i];
      assert ContentAt(s, j);
    }
  }

  lemma {:induction false} WellFormedGrow(articles: seq<Article>, a: Article)
    requires WellFormedContents(articles) && FiveFields(a.content)
    ensures WellFormedContents(articles + [a])
  {
    forall i | 0 <= i <= |articles|
      ensures ContentAt(articles + [a], i)
    {
      assert i < |articles| ==> ContentAt(articles, i);
    }
  }

  lemma {:induction false} WellFormedRenumber(articles: seq<Article>)
    requires WellFormedContents(articles)
    ensures WellFormedContents(Renumber(articles))
  {
    forall i | 0 <= i < |articles|
      ensures ContentAt(Renumber(articles), i)
    {
      assert ContentAt(articles, i);
    }
  }

  /** The pairs of articles' are those of articles and the ones posted on top. */
  ghost predicate Adds(articles': seq<Article>, articles: seq<Article>, posted: seq<Posted>) {
    multiset(Pairs(articles')) == multiset(Pairs(articles) + posted)
  }

  /** The newest server's list with the new article, sorted any way, sent and loaded. */
  lemma {:induction false} SyncedList(articles: seq<Article>, a: Article, sorted: seq<Article>)
    requires WellFormedContents(articles) && FiveFields(a.content) && IsSortOf(sorted, articles + [a], BY_ID)
    ensures Encode(sorted) != "" && Loaded(Tokens(Encode(sorted), {'$'})) == Renumber(sorted)
    ensures WellFormedContents(Renumber(sorted))
    ensures Adds(Renumber(sorted), articles, [Posted(a.content, a.hierachy)])
  {
    var grown := articles + [a];
    WellFormedGrow(articles, a);
    WellFormedPermute(grown, sorted);
    assert |multiset(sorted)| == |multiset(grown)|;
    EncodeEmpty(sorted);
    LoadRoundTrip(sorted);
    WellFormedRenumber(sorted);
    PairsPermute(grown, sorted);
    assert Pairs(Renumber(sorted)) == Pairs(sorted);
    assert Pairs(grown) == Pairs(articles) + [Posted(a.content, a.hierachy)];
  }

  lemma {:induction false} SynchedHold(sys: System, sorted: seq<Article>, articles: seq<Article>)
    requires Encode(sorted) != "" && Loaded(Tokens(Encode(sorted), {'$'})) == articles
    requires Numbered(articles) && WellFormedContents(articles)
    ensures AllHold(Synched(sys, sorted), articles) && |Synched(sys, sorted)| == |sys|
  {
  }

  /** The list of a selected server after the write. */
  lemma {:induction false} WrittenList(sys: System, articles: seq<Article>, sel: seq<nat>, content: string,
                                       preHie: int, k: nat, sorted: seq<Article>)
    requires AllHold(sys, articles) && SelOk(sel, |sys|)
    requires Sent(WriteSelected(sys, sel, content, preHie), sel, k, sorted)
    ensures k < |sel| && IsSortOf(sorted, articles + [Article(sys[sel[k]].id + 1, content, preHie + 1)], BY_ID)
  {
    assert sel[k] in sel;
  }

  /** A completed post leaves all servers with one list, numbered 1..n, that holds the old pairs
      and the new one, whatever was selected and whatever the counters were. */
  lemma {:induction false} PostAgrees(sys: System, articles: seq<Article>, sel: seq<nat>, content: string,
                                      preHie: int, posted: seq<Posted>, sys': System)
      returns (articles': seq<Article>)
    requires AllHold(sys, articles) && FiveFields(content) && PostStep(sys, sel, content, preHie, sys')
    requires posted == [Posted(content, preHie + 1)]
    ensures |sys'| == |sys| && AllHold(sys', articles') && Adds(articles', articles, posted)
  {
    var written := WriteSelected(sys, sel, content, preHie);
    var k: nat, sorted: seq<Article> :| Sent(written, sel, k, sorted) && sys' == Synched(written, sorted);
    WrittenList(sys, articles, sel, content, preHie, k, sorted);
    SyncedList(articles, Article(sys[sel[k]].id + 1, content, preHie + 1), sorted);
    articles' := Renumber(sorted);
    SynchedHold(written, sorted, articles');
  }

  lemma {:induction false} SentCommon(sys: System, articles: seq<Article>, sel: seq<nat>, k: nat, sorted: seq<Article>)
    requires AllHold(sys, articles) && (forall i :: 0 <= i < |sel| ==> sel[i] < |sys|) && Sent(sys, sel, k, sorted)
    ensures sorted == articles && LoadAll(sys, Encode(sorted)) == sys
  {
    NumberedIncreases(articles);
    SortOfIncreasing(sorted, articles, BY_ID);
    LoadRoundTrip(articles);
    RenumberNumbered(articles);
  }

  /** Reading, synchronising and the heartbeat change nothing at any server. */
  lemma {:induction false} QuietSteps(sys: System, articles: seq<Article>, op: Op, sys': System)
    requires AllHold(sys, articles) && Step(sys, op, sys') && (op.Read? || op.Synch? || op.Heartbeat?)
    ensures sys' == sys
  {
    match op
    case Read(sel) => ReadQuiet(sys, articles, sel, sys');
    case Synch => SynchQuiet(sys, articles, sys');
    case Heartbeat => HeartbeatQuiet(sys, articles, sys');
  }

  lemma {:induction false} ReadQuiet(sys: System, articles: seq<Article>, sel: seq<nat>, sys': System)
    requires AllHold(sys, articles) && ReadStep(sys, sel, sys')
    ensures sys' == sys
  {
    var k: nat, sorted: seq<Article> :| Sent(sys, sel, k, sorted)
      && sys' == sys[sel[k] := sys[sel[k]].(articles := sorted)];
    SentCommon(sys, articles, sel, k, sorted);
  }

  lemma {:induction false} SynchQuiet(sys: System, articles: seq<Article>, sys': System)
    requires AllHold(sys, articles) && SynchStep(sys, sys')
    ensures sys' == sys
  {
    var k: nat, sorted: seq<Article> :| Sent(sys, Everyone(|sys|), k, sorted) && sys' == Synched(sys, sorted);
    SentCommon(sys, articles, Everyone(|sys|), k, sorted);
  }

  lemma {:induction false} HeartbeatQuiet(sys: System, articles: seq<Article>, sys': System)
    requires AllHold(sys, articles) && HeartbeatStep(sys, sys')
    ensures sys' == sys
  {
    var k: nat, sorted: seq<Article> :| Sent(sys, Everyone(|sys|), k, sorted) && sys' == LoadAll(sys, Encode(sorted));
    SentCommon(sys, articles, Everyone(|sys|), k, sorted);
  }

  /** What a read sends, from whatever selection, is the common list. */
  lemma {:induction false} ReadsCommonList(sys: System, articles: seq<Article>, sel: seq<nat>, k: nat,
                                           sorted: seq<Article>)
    requires AllHold(sys, articles) && SelOk(sel, |sys|) && Sent(sys, sel, k, sorted)
    ensures sorted == articles && Loaded(Tokens(Encode(sorted), {'$'})) == articles
  {
    NumberedIncreases(articles);
    SortOfIncreasing(sorted, articles, BY_ID);
    LoadRoundTrip(articles);
    RenumberNumbered(articles);
  }

  /** Whether the server asked for the level of a target has it: otherwise the source reads through
      the end of its list, and the reply is no step. */
  lemma {:induction false} TargetExistsIff(sys: System, articles: seq<Article>, target: int)
    requires sys != [] && AllHold(sys, articles)
    ensures (exists preHie: int :: Target(sys, target, preHie)) <==> 1 <= target <= |articles|
  {
    FindNumbered(articles, target);
    if 1 <= target <= |articles| {
      var k := SomeNewest(Vers(sys, Everyone(|sys|)));
      assert Target(sys, target, articles[target - 1].hierachy);
    }
  }

  lemma {:induction false} SomeNewest(vers: seq<nat>) returns (k: nat)
    requires vers != []
    ensures IsNewest(vers, k)
  {
    var n := |vers| - 1;
    if n == 0 {
      k := 0;
    } else {
      k := SomeNewest(vers[..n]);
      if vers[n] >= vers[k] {
        k := n;
      }
    }
  }

  /** A post leaves all servers with the list as it was sent if and only if the posted text is made of
      five plain fields. */
  lemma {:induction false} PostLoadsIff(sys: System, articles: seq<Article>, sel: seq<nat>, content: string,
                                        preHie: int,
                                        k: nat, sorted: seq<Article>)
    requires AllHold(sys, articles) && SelOk(sel, |sys|)
    requires Sent(WriteSelected(sys, sel, content, preHie), sel, k, sorted)
    ensures
      var after := Synched(WriteSelected(sys, sel, content, preHie), sorted);
      (forall i :: 0 <= i < |after| ==> after[i].articles == Renumber(sorted)) <==> FiveFields(content)
  {
    var written := WriteSelected(sys, sel, content, preHie);
    WrittenList(sys, articles, sel, content, preHie, k, sorted);
    GrownWellFormedIff(articles, Article(sys[sel[k]].id + 1, content, preHie + 1), sorted);
    LoadRoundTripIff(sorted);
    EncodeEmpty(sorted);
    var after := Synched(written, sorted);
    var loaded := Loaded(Tokens(Encode(sorted), {'$'}));
    assert forall i :: 0 <= i < |after| ==> after[i].articles == loaded;
    assert sel[0] < |after|;
    if !FiveFields(content) {
      assert after[0].articles == loaded != Renumber(sorted);
    }
  }

  lemma {:induction false} GrownWellFormedIff(articles: seq<Article>, a: Article, sorted: seq<Article>)
    requires WellFormedContents(articles) && multiset(sorted) == multiset(articles + [a])
    ensures sorted != [] && (WellFormedContents(sorted) <==> FiveFields(a.content))
  {
    var grown := articles + [a];
    assert |multiset(sorted)| == |multiset(grown)|;
    if FiveFields(a.content) {
      WellFormedGrow(articles, a);
      WellFormedPermute(grown, sorted);
    } else if WellFormedContents(sorted) {
      WellFormedPermute(sorted, grown);
      LastWellFormed(articles, a);
    }
  }

  lemma {:induction false} LastWellFormed(articles: seq<Article>, a: Article)
    requires WellFormedContents(articles + [a])
    ensures FiveFields(a.content)
  {
    assert ContentAt(articles + [a], |articles|);
  }

  // ---------- whole runs ----------

  ghost predicate Behaviour(init: System, ops: seq<Op>, trace: seq<System>) {
    && |trace| == |ops| + 1 && trace[0] == init
    && forall k :: 0 <= k < |ops| ==> Step(trace[k], ops[k], trace[k + 1])
  }

  /** Empty stores; the counters may hold anything. */
  ghost predicate Empty(sys: System) {
    sys != [] && forall i :: 0 <= i < |sys| ==> sys[i].articles == []
  }

  ghost predicate ContentOk(op: Op) {
    (op.Post? || op.Reply?) ==> FiveFields(op.content)
  }

  /** The hierachy the common list shows for an article. */
  function HierachyOf(sys: System, target: int): int
    requires sys != []
  {
    var a := sys[0].articles;
    if IndexOf(a, target) < |a| then a[IndexOf(a, target)].hierachy else -1
  }

  /** What the operations posted, in order: posts at level 0, replies one below their target. */
  ghost function PostedBy(ops: seq<Op>, trace: seq<System>): seq<Posted>
    requires |trace| == |ops| + 1 && forall k :: 0 <= k < |trace| ==> trace[k] != []
  {
    if ops == [] then []
    else
      var k := |ops| - 1;
      PostedBy(ops[..k], trace[..k + 1]) + PostedStep(trace[k], ops[k])
  }

  /** What one operation posts. */
  function PostedStep(sys: System, op: Op): seq<Posted>
    requires sys != []
  {
    match op
    case Post(_, content) => [Posted(content, 0)]
    case Reply(_, target, content) => [Posted(content, HierachyOf(sys, target) + 1)]
    case _ => []
  }

  lemma {:induction false} TargetHierachy(sys: System, articles: seq<Article>, target: int, preHie: int)
    requires sys != [] && AllHold(sys, articles) && Target(sys, target, preHie)
    ensures preHie == HierachyOf(sys, target)
  {
  }

  lemma {:induction false} ReplyPosted(sys: System, articles: seq<Article>, target: int, content: string,
                                       preHie: int, posted: seq<Posted>)
    requires sys != [] && AllHold(sys, articles) && Target(sys, target, preHie)
    requires posted == [Posted(content, HierachyOf(sys, target) + 1)]
    ensures posted == [Posted(content, preHie + 1)]
  {
    TargetHierachy(sys, articles, target, preHie);
  }

  lemma {:induction false} StepHolds(sys: System, articles: seq<Article>, op: Op, sys': System)
    returns (articles': seq<Article>)
    requires sys != [] && AllHold(sys, articles) && ContentOk(op) && Step(sys, op, sys')
    ensures |sys'| == |sys| && AllHold(sys', articles')
    ensures Adds(articles', articles, PostedStep(sys, op))
  {
    if op.Post? {
      articles' := PostAgrees(sys, articles, op.sel, op.content, -1, PostedStep(sys, op), sys');
    } else if op.Reply? {
      articles' := ReplyAgrees(sys, articles, op.sel, op.target, op.content, PostedStep(sys, op), sys');
    } else {
      QuietSteps(sys, articles, op, sys');
      articles' := articles;
      assert Pairs(articles) + [] == Pairs(articles);
    }
  }

  lemma {:induction false} ReplyAgrees(sys: System, articles: seq<Article>, sel: seq<nat>, target: int,
                                       content: string, posted: seq<Posted>, sys': System)
      returns (articles': seq<Article>)
    requires sys != [] && AllHold(sys, articles) && FiveFields(content) && ReplyStep(sys, sel, target, content, sys')
    requires posted == [Posted(content, HierachyOf(sys, target) + 1)]
    ensures |sys'| == |sys| && AllHold(sys', articles') && Adds(articles', articles, posted)
  {
    var preHie: int :| Target(sys, target, preHie) && PostStep(sys, sel, content, preHie, sys');
    ReplyPosted(sys, articles, target, content, preHie, posted);
    articles' := PostAgrees(sys, articles, sel, content, preHie, posted, sys');
  }

  lemma {:induction false} BehaviourPrefix(init: System, ops: seq<Op>, trace: seq<System>)
    requires Behaviour(init, ops, trace) && ops != []
    ensures
      var k := |ops| - 1;
      Behaviour(init, ops[..k], trace[..k + 1]) && trace[..k + 1][k] == trace[k] && Step(trace[k], ops[k], trace[k + 1])
  {
  }

  lemma {:induction false} CommonList(init: System, ops: seq<Op>, trace: seq<System>) returns (articles: seq<Article>)
    requires Empty(init) && Behaviour(init, ops, trace)
    requires forall k :: 0 <= k < |ops| ==> ContentOk(ops[k])
    ensures forall k :: 0 <= k < |trace| ==> |trace[k]| == |init|
    ensures AllHold(trace[|ops|], articles)
    ensures multiset(Pairs(articles)) == multiset(PostedBy(ops, trace))
  {
    forall k | 0 <= k < |trace|
      ensures |trace[k]| == |init|
    {
      SizeAt(init, ops, trace, k);
    }
    if ops == [] {
      articles := [];
    } else {
      var k := |ops| - 1;
      BehaviourPrefix(init, ops, trace);
      var before := CommonList(init, ops[..k], trace[..k + 1]);
      articles := StepHolds(trace[k], before, ops[k], trace[k + 1]);
      AddedStep(before, articles, PostedBy(ops[..k], trace[..k + 1]), PostedStep(trace[k], ops[k]));
    }
  }

  lemma {:induction false} AddedStep(before: seq<Article>, after: seq<Article>, posted: seq<Posted>, more: seq<Posted>)
    requires multiset(Pairs(before)) == multiset(posted) && Adds(after, before, more)
    ensures multiset(Pairs(after)) == multiset(posted + more)
  {
  }

  lemma {:induction false} StepSize(sys: System, op: Op, sys': System)
    requires Step(sys, op, sys')
    ensures |sys'| == |sys|
  {
  }

  lemma {:induction false} SizeAt(init: System, ops: seq<Op>, trace: seq<System>, k: nat)
    requires Behaviour(init, ops, trace) && k <= |ops|
    ensures |trace[k]| == |init|
  {
    if k > 0 {
      SizeAt(init, ops, trace, k - 1);
      StepSize(trace[k - 1], ops[k - 1], trace[k - 1 + 1]);
    }
  }

  /** After any run, all servers hold the same list, numbered 1..n, whose contents and hierachies
      are exactly those posted so far. */
  lemma {:induction false} RunsHold(init: System, ops: seq<Op>, trace: seq<System>)
    requires Empty(init) && Behaviour(init, ops, trace)
    requires forall k :: 0 <= k < |ops| ==> ContentOk(ops[k])
    ensures forall k :: 0 <= k < |trace| ==> |trace[k]| == |init|
    ensures exists articles ::
              AllHold(trace[|ops|], articles) && multiset(Pairs(articles)) == multiset(PostedBy(ops, trace))
  {
    var articles := CommonList(init, ops, trace);
  }

  // ---------- what a post does to the numbers of older articles ----------

  /** Under every sort the older articles keep their order, and the new one comes after those with
      lower IDs and before those with higher ones. */
  lemma {:induction false} SortInserts(articles: seq<Article>, a: Article, sorted: seq<Article>) returns (p: nat)
    requires Numbered(articles) && IsSortOf(sorted, articles + [a], BY_ID)
    ensures p <= |articles| && sorted == articles[..p] + [a] + articles[p..]
    ensures p <= a.id || p == 0
    ensures p < |articles| ==> a.id <= p + 1
  {
    var grown := articles + [a];
    assert grown[|articles|] == a;
    SameElements(grown, sorted, a);
    p :| 0 <= p < |sorted| && sorted[p] == a;
    TakenOut(sorted, articles, p, a);
    StillSorted(sorted, p);
    NumberedIncreases(articles);
    SortOfIncreasing(sorted[..p] + sorted[p + 1..], articles, BY_ID);
    PutBack(sorted, articles, p);
    InsertBounds(articles, a, p);
  }

  lemma {:induction false} PutBack(sorted: seq<Article>, articles: seq<Article>, p: nat)
    requires p < |sorted| && sorted[..p] + sorted[p + 1..] == articles
    ensures p <= |articles| && sorted == articles[..p] + [sorted[p]] + articles[p..]
  {
  }

  lemma {:induction false} InsertBounds(articles: seq<Article>, a: Article, p: nat)
    requires Numbered(articles) && p <= |articles| && Sorted(articles[..p] + [a] + articles[p..], BY_ID)
    ensures p <= a.id || p == 0
    ensures p < |articles| ==> a.id <= p + 1
  {
    var sorted := articles[..p] + [a] + articles[p..];
    assert p > 0 ==> BY_ID(sorted[p - 1]) <= BY_ID(sorted[p]) && sorted[p - 1] == articles[p - 1];
    assert p < |articles| ==> BY_ID(sorted[p]) <= BY_ID(sorted[p + 1]) && sorted[p + 1] == articles[p];
  }

  lemma {:induction false} TakenOut(sorted: seq<Article>, articles: seq<Article>, p: nat, a: Article)
    requires multiset(sorted) == multiset(articles + [a]) && p < |sorted| && sorted[p] == a
    ensures multiset(sorted[..p] + sorted[p + 1..]) == multiset(articles)
  {
    assert sorted == sorted[..p] + [a] + sorted[p + 1..];
    assert multiset(articles) == multiset(articles + [a]) - multiset{a};
    assert multiset(sorted[..p] + sorted[p + 1..]) == multiset(sorted) - multiset{a};
  }

  lemma {:induction false} StillSorted(sorted: seq<Article>, p: nat)
    requires Sorted(sorted, BY_ID) && p < |sorted|
    ensures Sorted(sorted[..p] + sorted[p + 1..], BY_ID)
  {
    var rest := sorted[..p] + sorted[p + 1..];
    forall i, j | 0 <= i < j < |rest|
      ensures BY_ID(rest[i]) <= BY_ID(rest[j])
    {
      assert BY_ID(sorted[if i < p then i else i + 1]) <= BY_ID(sorted[if j < p then j else j + 1]);
    }
  }

  /** Content and level of an article agree with those posted. */
  predicate SameText(a: Article, content: string, hierachy: int) {
    a.content == content && a.hierachy == hierachy
  }

  /** The counter has passed the articles, or those above it cannot be told from the new one. */
  ghost predicate PastOrSame(articles: seq<Article>, id: int, content: string, hierachy: int) {
    forall j :: 0 <= j < |articles| && id <= j ==> SameText(articles[j], content, hierachy)
  }

  /** Every older article has the ID it had, at every server, however equal IDs are sorted. */
  ghost predicate OldKept(sys: System, articles: seq<Article>, sel: seq<nat>, content: string, preHie: int) {
    forall sys': System :: PostStep(sys, sel, content, preHie, sys') ==>
      forall i :: 0 <= i < |sys'| ==> articles <= sys'[i].articles
  }

  lemma {:induction false} VersRise(sys: System, sel: seq<nat>, content: string, preHie: int, k: nat)
    requires SelOk(sel, |sys|)
    ensures IsNewest(Vers(WriteSelected(sys, sel, content, preHie), sel), k) <==> IsNewest(Vers(sys, sel), k)
  {
    var before, after := Vers(sys, sel), Vers(WriteSelected(sys, sel, content, preHie), sel);
    forall i | 0 <= i < |sel|
      ensures after[i] == before[i] + 1
    {
      assert sel[i] in sel;
    }
  }

  /** A post leaves the IDs of all older articles alone if and only if the ID counter of the newest
      selected server has caught up with the list, or every article above it has the very text
      and level that are posted. */
  lemma {:induction false} OldIdsKeptIff(sys: System, articles: seq<Article>, sel: seq<nat>, k: nat, content: string,
                                         preHie: int)
    requires AllHold(sys, articles) && SelOk(sel, |sys|) && FiveFields(content)
    requires IsNewest(Vers(sys, sel), k)
    ensures OldKept(sys, articles, sel, content, preHie) <==> PastOrSame(articles, sys[sel[k]].id, content, preHie + 1)
  {
    if PastOrSame(articles, sys[sel[k]].id, content, preHie + 1) {
      forall sys': System | PostStep(sys, sel, content, preHie, sys')
        ensures forall i :: 0 <= i < |sys'| ==> articles <= sys'[i].articles
      {
        PostKeeps(sys, articles, sel, k, content, preHie, sys');
      }
    } else {
      OldIdLost(sys, articles, sel, k, content, preHie);
    }
  }

  lemma {:induction false} OldIdLost(sys: System, articles: seq<Article>, sel: seq<nat>, k: nat, content: string,
                                     preHie: int)
    requires AllHold(sys, articles) && SelOk(sel, |sys|) && FiveFields(content)
    requires IsNewest(Vers(sys, sel), k) && !PastOrSame(articles, sys[sel[k]].id, content, preHie + 1)
    ensures !OldKept(sys, articles, sel, content, preHie)
  {
    var id := sys[sel[k]].id;
    FirstLoses(articles, id, content, preHie + 1);
    var grown := WithFirst(articles, id, content, preHie + 1);
    var sys' := PostFirst(sys, articles, sel, k, content, preHie, grown);
    assert sys'[0].articles == grown;
  }

  /** A completed post leaves all servers with the list of the newest selected one and the new
      article, in some sorted order and renumbered. */
  lemma {:induction false} PostSorts(sys: System, articles: seq<Article>, sel: seq<nat>, k: nat, content: string,
                                     preHie: int, sys': System)
      returns (sorted: seq<Article>)
    requires AllHold(sys, articles) && FiveFields(content) && PostStep(sys, sel, content, preHie, sys')
    requires IsNewest(Vers(sys, sel), k)
    ensures IsSortOf(sorted, articles + [Article(sys[sel[k]].id + 1, content, preHie + 1)], BY_ID)
    ensures AllHold(sys', Renumber(sorted))
  {
    var written := WriteSelected(sys, sel, content, preHie);
    var m: nat;
    m, sorted :| Sent(written, sel, m, sorted) && sys' == Synched(written, sorted);
    SentSorts(sys, articles, sel, k, content, preHie, m, sorted);
  }

  lemma {:induction false} SentSorts(sys: System, articles: seq<Article>, sel: seq<nat>, k: nat, content: string,
                                     preHie: int,
                                     m: nat, sorted: seq<Article>)
    requires AllHold(sys, articles) && SelOk(sel, |sys|) && FiveFields(content) && IsNewest(Vers(sys, sel), k)
    requires Sent(WriteSelected(sys, sel, content, preHie), sel, m, sorted)
    ensures IsSortOf(sorted, articles + [Article(sys[sel[k]].id + 1, content, preHie + 1)], BY_ID)
    ensures AllHold(Synched(WriteSelected(sys, sel, content, preHie), sorted), Renumber(sorted))
  {
    NewestSame(sys, sel, content, preHie, k, m);
    WrittenList(sys, articles, sel, content, preHie, m, sorted);
    SyncedList(articles, Article(sys[sel[k]].id + 1, content, preHie + 1), sorted);
    SynchedHold(WriteSelected(sys, sel, content, preHie), sorted, Renumber(sorted));
  }

  /** The write raises all versions alike, so the newest server is the same afterwards. */
  lemma {:induction false} NewestSame(sys: System, sel: seq<nat>, content: string, preHie: int, k: nat, m: nat)
    requires SelOk(sel, |sys|) && IsNewest(Vers(sys, sel), k)
    requires IsNewest(Vers(WriteSelected(sys, sel, content, preHie), sel), m)
    ensures k == m
  {
    VersRise(sys, sel, content, preHie, m);
    var vers := Vers(sys, sel);
    assert vers[k] <= vers[m] <= vers[k];
  }

  lemma {:induction false} PostKeeps(sys: System, articles: seq<Article>, sel: seq<nat>, k: nat, content: string,
                                     preHie: int, sys': System)
    requires AllHold(sys, articles) && FiveFields(content) && PostStep(sys, sel, content, preHie, sys')
    requires IsNewest(Vers(sys, sel), k) && PastOrSame(articles, sys[sel[k]].id, content, preHie + 1)
    ensures forall i :: 0 <= i < |sys'| ==> articles <= sys'[i].articles
  {
    var a := Article(sys[sel[k]].id + 1, content, preHie + 1);
    var sorted := PostSorts(sys, articles, sel, k, content, preHie, sys');
    var p := SortInserts(articles, a, sorted);
    KeepsPrefix(articles, a, p);
    assert articles <= Renumber(sorted);
  }

  lemma {:induction false} KeepsPrefix(articles: seq<Article>, a: Article, p: nat)
    requires Numbered(articles) && p <= |articles|
    requires forall j :: p <= j < |articles| ==> SameText(articles[j], a.content, a.hierachy)
    ensures articles <= Renumber(articles[..p] + [a] + articles[p..])
  {
    var list := articles[..p] + [a] + articles[p..];
    forall i | 0 <= i < |articles|
      ensures Renumber(list)[i] == articles[i]
    {
      if i > p {
        assert list[i] == articles[i - 1] && SameText(articles[i - 1], a.content, a.hierachy);
      }
      assert i >= p ==> SameText(articles[i], a.content, a.hierachy);
    }
  }

  /** The new article under ID id + 1 in front of all articles it does not have to follow. */
  function WithFirst(articles: seq<Article>, id: int, content: string, hierachy: int): seq<Article>
    requires id < |articles|
  {
    var p := if id < 0 then 0 else id;
    Renumber(articles[..p] + [Article(id + 1, content, hierachy)] + articles[p..])
  }

  lemma {:induction false} FirstLoses(articles: seq<Article>, id: int, content: string, hierachy: int)
    requires !PastOrSame(articles, id, content, hierachy)
    ensures id < |articles| && !(articles <= WithFirst(articles, id, content, hierachy))
  {
    var j :| 0 <= j < |articles| && id <= j && !SameText(articles[j], content, hierachy);
    FirstShifts(articles, Article(id + 1, content, hierachy), if id < 0 then 0 else id, j);
  }

  /** One of the results a post may have. */
  lemma {:induction false} PostFirst(sys: System, articles: seq<Article>, sel: seq<nat>, k: nat, content: string,
                                     preHie: int,
                                     grown: seq<Article>) returns (sys': System)
    requires AllHold(sys, articles) && SelOk(sel, |sys|) && FiveFields(content)
    requires IsNewest(Vers(sys, sel), k) && sys[sel[k]].id < |articles|
    requires grown == WithFirst(articles, sys[sel[k]].id, content, preHie + 1)
    ensures PostStep(sys, sel, content, preHie, sys') && AllHold(sys', grown) && |sys'| == |sys|
  {
    var written, id := WriteSelected(sys, sel, content, preHie), sys[sel[k]].id;
    var a, p := Article(id + 1, content, preHie + 1), if id < 0 then 0 else id;
    var sorted := articles[..p] + [a] + articles[p..];
    VersRise(sys, sel, content, preHie, k);
    assert sel[k] in sel && written[sel[k]].articles == articles + [a];
    SelfSort(articles);
    InsertSorted(articles, articles, p, a, BY_ID);
    assert Sent(written, sel, k, sorted);
    SyncedList(articles, a, sorted);
    SynchedHold(written, sorted, grown);
    sys' := Synched(written, sorted);
    assert PostStep(sys, sel, content, preHie, sys');
  }

  lemma {:induction false} SelfSort(articles: seq<Article>)
    requires Numbered(articles)
    ensures IsSortOf(articles, articles, BY_ID)
  {
  }

  /** An article above the insertion that differs from the new one makes some article change its ID. */
  lemma {:induction false} FirstShifts(articles: seq<Article>, a: Article, p: nat, j: nat)
    requires p <= j < |articles| && !SameText(articles[j], a.content, a.hierachy)
    ensures !(articles <= Renumber(articles[..p] + [a] + articles[p..]))
    decreases j
  {
    var list := Renumber(articles[..p] + [a] + articles[p..]);
    if articles <= list {
      assert articles[j] == list[j];
      if j > p {
        assert SameText(list[j], articles[j - 1].content, articles[j - 1].hierachy);
        FirstShifts(articles, a, p, j - 1);
      }
    }
  }

  // ---------- the same over a whole run ----------

  /** Whether server i takes part in writing. */
  predicate WritesAt(op: Op, i: nat) {
    (op.Post? || op.Reply?) && i in op.sel
  }

  /** In how many posts of a run server i took part. */
  function Taken(ops: seq<Op>, i: nat): nat {
    if ops == [] then 0
    else Taken(ops[..|ops| - 1], i) + if WritesAt(ops[|ops| - 1], i) then 1 else 0
  }

  function PostsIn(ops: seq<Op>): nat {
    if ops == [] then 0
    else PostsIn(ops[..|ops| - 1]) + if ops[|ops| - 1].Post? || ops[|ops| - 1].Reply? then 1 else 0
  }

  lemma {:induction false} StepCounts(sys: System, op: Op, sys': System, i: nat)
    requires Step(sys, op, sys') && i < |sys|
    ensures |sys'| == |sys|
    ensures sys'[i].id == sys[i].id + if WritesAt(op, i) then 1 else 0
    ensures sys'[i].ver == sys[i].ver + if WritesAt(op, i) then 1 else 0
  {
  }

  /** Empty servers with both counters at 0. */
  ghost predicate Fresh(sys: System) {
    sys != [] && forall i :: 0 <= i < |sys| ==> sys[i] == Node([], 0, 0)
  }

  /** From zero counters, a server's ID and version both count the posts it took part in. */
  lemma {:induction false} CountersCount(init: System, ops: seq<Op>, trace: seq<System>, i: nat)
    requires Fresh(init) && Behaviour(init, ops, trace) && i < |init|
    ensures |trace[|ops|]| == |init|
    ensures trace[|ops|][i].id == trace[|ops|][i].ver == Taken(ops, i)
  {
    if ops != [] {
      var k := |ops| - 1;
      BehaviourPrefix(init, ops, trace);
      CountersCount(init, ops[..k], trace[..k + 1], i);
      StepCounts(trace[k], ops[k], trace[k + 1], i);
    }
  }

  lemma {:induction false} PostedCount(ops: seq<Op>, trace: seq<System>)
    requires |trace| == |ops| + 1 && forall k :: 0 <= k < |trace| ==> trace[k] != []
    ensures |PostedBy(ops, trace)| == PostsIn(ops)
    decreases |ops|
  {
    if ops != [] {
      PostedCount(ops[..|ops| - 1], trace[..|ops|]);
    }
  }

  /** Over a run from fresh servers, the server whose list is taken is one that took part in the most posts. */
  lemma {:induction false} NewestTookMost(init: System, ops: seq<Op>, trace: seq<System>, sel: seq<nat>, k: nat)
    requires Fresh(init) && Behaviour(init, ops, trace) && SelOk(sel, |init|) && |trace[|ops|]| == |init|
    requires IsNewest(Vers(trace[|ops|], sel), k)
    ensures k < |sel| && forall i :: 0 <= i < |sel| ==> Taken(ops, sel[i]) <= Taken(ops, sel[k])
  {
    forall i | 0 <= i < |sel|
      ensures Vers(trace[|ops|], sel)[i] == Taken(ops, sel[i])
    {
      CountersCount(init, ops, trace, sel[i]);
    }
  }

  /** Over a run from fresh servers there are as many articles as posts, and the next post leaves all older
      IDs alone if and only if each of them is within the posts that some selected server took part in, or cannot
      be told from the new article: so always if some selected server took part in every earlier post. */
  lemma {:induction false} OldIdsKeptInRunIff(init: System, ops: seq<Op>, trace: seq<System>, sel: seq<nat>,
                                              content: string, preHie: int) returns (articles: seq<Article>)
    requires Fresh(init) && Behaviour(init, ops, trace)
    requires forall j :: 0 <= j < |ops| ==> ContentOk(ops[j])
    requires SelOk(sel, |init|) && FiveFields(content)
    ensures AllHold(trace[|ops|], articles) && |articles| == PostsIn(ops)
    ensures OldKept(trace[|ops|], articles, sel, content, preHie) <==>
            forall j :: 0 <= j < |articles| ==>
              (exists i :: 0 <= i < |sel| && j < Taken(ops, sel[i]))
              || (articles[j].content == content && articles[j].hierachy == preHie + 1)
  {
    articles := CommonList(init, ops, trace);
    SizeOfCommon(articles, ops, trace);
    var k := SomeNewest(Vers(trace[|ops|], sel));
    NewestTookMost(init, ops, trace, sel, k);
    CountersCount(init, ops, trace, sel[k]);
    OldIdsKeptIff(trace[|ops|], articles, sel, k, content, preHie);
    WithinMost(articles, ops, sel, k, content, preHie + 1);
  }

  lemma {:induction false} WithinMost(articles: seq<Article>, ops: seq<Op>, sel: seq<nat>, k: nat, content: string,
                                      hierachy: int)
    requires k < |sel| && forall i :: 0 <= i < |sel| ==> Taken(ops, sel[i]) <= Taken(ops, sel[k])
    ensures PastOrSame(articles, Taken(ops, sel[k]), content, hierachy) <==>
            forall j :: 0 <= j < |articles| ==>
              (exists i :: 0 <= i < |sel| && j < Taken(ops, sel[i]))
              || (articles[j].content == content && articles[j].hierachy == hierachy)
  {
    forall j | 0 <= j < |articles|
      ensures Taken(ops, sel[k]) <= j ==> !exists i :: 0 <= i < |sel| && j < Taken(ops, sel[i])
      ensures SameText(articles[j], content, hierachy) <==>
              articles[j].content == content && articles[j].hierachy == hierachy
    {
    }
  }

  lemma {:induction false} SizeOfCommon(articles: seq<Article>, ops: seq<Op>, trace: seq<System>)
    requires |trace| == |ops| + 1 && forall k :: 0 <= k < |trace| ==> trace[k] != []
    requires multiset(Pairs(articles)) == multiset(PostedBy(ops, trace))
    ensures |articles| == PostsIn(ops)
  {
    PostedCount(ops, trace);
    assert |multiset(Pairs(articles))| == |articles| && |multiset(PostedBy(ops, trace))| == |PostedBy(ops, trace)|;
  }

  // ---------- a run in which it happens ----------

  function TwoServers(): System {
    [Node([], 0, 0), Node([], 0, 0)]
  }

  /** A run from empty stores and counters: two posts to server 0, and one to server 1 whose counter
      is still at 0. The article with ID 2 comes out of it with ID 3, and that with ID 1 with ID 2. */
  lemma {:induction false} RenumberingRun(x: string, y: string, z: string) returns (s1: System, s2: System, s3: System)
    requires FiveFields(x) && FiveFields(y) && FiveFields(z)
    ensures Fresh(TwoServers()) && |TwoServers()| == 2
    ensures Step(TwoServers(), Post([0], x), s1) && Step(s1, Post([0], y), s2) && Step(s2, Post([1], z), s3)
    ensures |s2| == 2 && s2[0].articles == s2[1].articles == [Article(1, x, 0), Article(2, y, 0)]
    ensures |s3| == 2 && s3[0].articles == s3[1].articles == [Article(1, z, 0), Article(2, x, 0), Article(3, y, 0)]
  {
    s1, s2 := TwoPosts(x, y);
    s3 := LaggingPost(s2, x, y, z);
  }

  lemma {:induction false} TwoPosts(x: string, y: string) returns (s1: System, s2: System)
    requires FiveFields(x) && FiveFields(y)
    ensures Fresh(TwoServers()) && Step(TwoServers(), Post([0], x), s1) && Step(s1, Post([0], y), s2)
    ensures AllHold(s2, [Article(1, x, 0), Article(2, y, 0)]) && |s2| == 2 && s2[1].id == 0
  {
    var none: seq<Article> := [];
    assert AllHold(TwoServers(), none);
    s1 := PostLast(TwoServers(), none, 0, x, [Article(1, x, 0)]);
    s2 := PostLast(s1, [Article(1, x, 0)], 0, y, [Article(1, x, 0), Article(2, y, 0)]);
  }

  lemma {:induction false} LaggingPost(s2: System, x: string, y: string, z: string) returns (s3: System)
    requires |s2| == 2 && s2[1].id == 0 && FiveFields(z)
    requires AllHold(s2, [Article(1, x, 0), Article(2, y, 0)])
    ensures Step(s2, Post([1], z), s3)
    ensures |s3| == 2 && s3[0].articles == s3[1].articles == [Article(1, z, 0), Article(2, x, 0), Article(3, y, 0)]
  {
    var two, sel := [Article(1, x, 0), Article(2, y, 0)], [1];
    OneNewest(s2, 1);
    LaggingList(x, y, z);
    assert s2[sel[0]].id == 0;
    s3 := PostFirst(s2, two, sel, 0, z, -1, [Article(1, z, 0), Article(2, x, 0), Article(3, y, 0)]);
  }

  lemma {:induction false} LaggingList(x: string, y: string, z: string)
    ensures WithFirst([Article(1, x, 0), Article(2, y, 0)], 0, z, 0) ==
            [Article(1, z, 0), Article(2, x, 0), Article(3, y, 0)]
  {
    var two := [Article(1, x, 0), Article(2, y, 0)];
    assert two[..0] + [Article(1, z, 0)] + two[0..] == [Article(1, z, 0), Article(1, x, 0), Article(2, y, 0)];
  }

  lemma {:induction false} OneNewest(sys: System, s: nat)
    requires s < |sys|
    ensures SelOk([s], |sys|) && IsNewest(Vers(sys, [s]), 0)
  {
  }

  /** A post to a server whose counter is at the length of the list appends. */
  lemma {:induction false} PostLast(sys: System, articles: seq<Article>, s: nat, content: string, grown: seq<Article>)
    returns (sys': System)
    requires AllHold(sys, articles) && s < |sys| && FiveFields(content) && sys[s].id == |articles|
    requires grown == articles + [Article(|articles| + 1, content, 0)]
    ensures PostStep(sys, [s], content, -1, sys') && |sys'| == |sys|
    ensures AllHold(sys', grown)
    ensures forall i :: 0 <= i < |sys| ==> sys'[i].id == if i == s then sys[i].id + 1 else sys[i].id
  {
    var a := Article(|articles| + 1, content, 0);
    var written, sorted := WriteSelected(sys, [s], content, -1), grown;
    OneNewest(sys, s);
    VersRise(sys, [s], content, -1, 0);
    assert s in [s] && written[s].articles == sorted;
    SelfSort(sorted);
    assert Sent(written, [s], 0, sorted);
    SyncedList(articles, a, sorted);
    RenumberNumbered(sorted);
    SynchedHold(written, sorted, sorted);
    sys' := Synched(written, sorted);
    assert PostStep(sys, [s], content, -1, sys');
  }
}
