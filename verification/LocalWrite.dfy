/** The read-your-writes servers: the server a client writes to first makes itself the primary,
    fetching the article list from the old one, and then numbers the write and broadcasts it.
    An operation is run until its messages are used up before the next one starts. */
module LocalWrite {
  import opened Sequences
  import opened Text
  import opened Tokenizer
  import opened Articles
  import opened Replication
  import opened Sorting
  import opened Answers
  import PrimaryBackup
  import SeqServer

  /** A server: its list, whether it takes itself for the primary, and whom it names. */
  datatype Node = Node(articles: seq<Article>, isCoordinator: bool, coordinator: nat)

  type System = seq<Node>

  /** A post (repId -1) or reply sent to a server, or a read at a server. */
  datatype Op = Post(server: nat, repId: int, content: string) | Read(server: nat)

  function Init(n: nat): System {
    seq(n, i => Node([], i == 0, 0))
  }

  // ---------- what the handlers do to a system ----------

  /** MoveItemX: the list decoded from the old primary's message, unless that is empty. */
  function Installed(articles: seq<Article>, message: string): seq<Article> {
    if message != "" then Moved(Tokens(message, {'$'})) else articles
  }

  /** After MoveItemX at server s and the broadcast of its address; sorted is the old primary's
      list as sendArticle left it. */
  function Migrate(sys: System, s: nat, sorted: seq<Article>): System
    requires s < |sys|
  {
    if sys[s].isCoordinator then sys
    else
      var c := sys[s].coordinator;
      seq(|sys|, i requires 0 <= i < |sys| =>
        Node(if i == s then Installed(sys[s].articles, Encode(sorted)) else if i == c then sorted else sys[i].articles,
             i == s, s))
  }

  /** FORWARD at the primary s, and UPDATE at the others. */
  function Broadcast(sys: System, s: nat, repId: int, content: string): System
    requires s < |sys|
  {
    var w := Write(|sys[s].articles| + 1, repId, content);
    seq(|sys|, i requires 0 <= i < |sys| => sys[i].(articles := Apply(sys[i].articles, w)))
  }

  /** The old primary must answer as the primary, or the operation never gets its articles. */
  predicate CanMove(sys: System, s: nat)
    requires s < |sys|
  {
    sys[s].isCoordinator || (sys[s].coordinator < |sys| && sys[sys[s].coordinator].isCoordinator)
  }

  ghost predicate Step(sys: System, op: Op, sys': System) {
    && op.server < |sys|
    && match op
       case Post(s, repId, content) =>
         && CanMove(sys, s)
         && exists sorted :: Sorts(sorted, sys, if sys[s].isCoordinator then s else sys[s].coordinator)
                             && sys' == Broadcast(Migrate(sys, s, sorted), s, repId, content)
       case Read(s) =>
         exists sorted :: Sorts(sorted, sys, s) && sys' == sys[s := sys[s].(articles := sorted)]
  }

  ghost predicate Sorts(sorted: seq<Article>, sys: System, s: nat)
    requires s < |sys|
  {
    IsSortOf(sorted, sys[s].articles, BY_ID)
  }

  /** trace[k] is the system after the first k operations. */
  ghost predicate Behaviour(n: nat, ops: seq<Op>, trace: seq<System>) {
    && |trace| == |ops| + 1 && trace[0] == Init(n)
    && forall k :: 0 <= k < |ops| ==> Step(trace[k], ops[k], trace[k + 1])
  }

  ghost predicate ContentsOk(ops: seq<Op>) {
    forall k :: 0 <= k < |ops| && ops[k].Post? ==> Free(ops[k].content, {'$'})
  }

  // ---------- what a run should amount to: the operations alone decide it ----------

  /** The writes of the operations, each numbered one above the articles there are. */
  ghost function LogOf(ops: seq<Op>): seq<Write> {
    if ops == [] then []
    else
      var before, op := LogOf(ops[..|ops| - 1]), ops[|ops| - 1];
      if op.Post? then before + [Write(|Replay(before)| + 1, op.repId, op.content)] else before
  }

  lemma {:induction false} LogOk(ops: seq<Op>)
    requires ContentsOk(ops)
    ensures Sequential(LogOf(ops)) && DollarFree(Replay(LogOf(ops)))
  {
    if ops != [] {
      var b, op := ops[..|ops| - 1], ops[|ops| - 1];
      LogOk(b);
      if op.Post? {
        var w := Write(|Replay(LogOf(b))| + 1, op.repId, op.content);
        assert LogOf(ops)[..|LogOf(ops)| - 1] == LogOf(b);
        assert Replay(LogOf(ops)) == Apply(Replay(LogOf(b)), w);
      }
    }
  }

  /** Exactly one primary, everybody names it, and every list is the given one. */
  ghost predicate Agreed(sys: System, c: nat, articles: seq<Article>) {
    && c < |sys|
    && forall i :: 0 <= i < |sys| ==> sys[i] == Node(articles, i == c, c)
  }

  /** Moving the list to another server changes neither an ID nor anything else in it, if and only if no
      text holds a '$'. */
  lemma {:induction false} MigrationKeepsIff(articles: seq<Article>, sorted: seq<Article>)
    requires Numbered(articles) && IsSortOf(sorted, articles, BY_ID)
    ensures sorted == articles
    ensures Installed(articles, Encode(sorted)) == articles <==> DollarFree(articles)
  {
    NumberedIncreases(articles);
    SortOfIncreasing(sorted, articles, BY_ID);
    MoveRoundTripIff(articles);
    RenumberNumbered(articles);
    EncodeEmpty(articles);
  }

  lemma {:induction false} MigrateAgreed(sys: System, c: nat, articles: seq<Article>, s: nat, sorted: seq<Article>)
    requires Agreed(sys, c, articles) && s < |sys| && Numbered(articles) && DollarFree(articles)
    requires IsSortOf(sorted, articles, BY_ID)
    ensures Agreed(Migrate(sys, s, sorted), s, articles)
  {
    MigrationKeepsIff(articles, sorted);
  }

  lemma {:induction false} BroadcastAgreed(sys: System, s: nat, articles: seq<Article>, repId: int, content: string)
    requires Agreed(sys, s, articles)
    ensures Agreed(Broadcast(sys, s, repId, content), s, Apply(articles, Write(|articles| + 1, repId, content)))
  {
  }

  lemma {:induction false} PostAgreed(sys: System, c: nat, articles: seq<Article>, s: nat, repId: int,
                                      content: string, sys': System)
    requires Agreed(sys, c, articles) && Numbered(articles) && DollarFree(articles)
    requires Step(sys, Post(s, repId, content), sys')
    ensures Agreed(sys', s, Apply(articles, Write(|articles| + 1, repId, content)))
  {
    var sorted :| Sorts(sorted, sys, if sys[s].isCoordinator then s else sys[s].coordinator)
                  && sys' == Broadcast(Migrate(sys, s, sorted), s, repId, content);
    MigrateAgreed(sys, c, articles, s, sorted);
    BroadcastAgreed(Migrate(sys, s, sorted), s, articles, repId, content);
  }

  lemma {:induction false} ReadAgreed(sys: System, c: nat, articles: seq<Article>, s: nat, sys': System)
    requires Agreed(sys, c, articles) && Numbered(articles) && Step(sys, Read(s), sys')
    ensures sys' == sys
  {
    var sorted :| Sorts(sorted, sys, s) && sys' == sys[s := sys[s].(articles := sorted)];
    NumberedIncreases(articles);
    SortOfIncreasing(sorted, articles, BY_ID);
  }

  ghost function Coordinator(c: nat, op: Op): nat {
    if op.Post? then op.server else c
  }

  lemma {:induction false} StepAgreed(sys: System, c: nat, op: Op, sys': System, ops: seq<Op>)
    requires Agreed(sys, c, Replay(LogOf(ops))) && ContentsOk(ops) && Step(sys, op, sys')
    ensures Agreed(sys', Coordinator(c, op), Replay(LogOf(ops + [op]))) && |sys'| == |sys|
  {
    LogOk(ops);
    SequentialReplay(LogOf(ops));
    LogStep(ops, op);
    OpAgreed(sys, c, Replay(LogOf(ops)), op, sys');
  }

  /** The list after an operation on a given one. */
  function Grown(articles: seq<Article>, op: Op): seq<Article> {
    if op.Post? then Apply(articles, Write(|articles| + 1, op.repId, op.content)) else articles
  }

  lemma {:induction false} OpAgreed(sys: System, c: nat, articles: seq<Article>, op: Op, sys': System)
    requires Agreed(sys, c, articles) && Numbered(articles) && DollarFree(articles) && Step(sys, op, sys')
    ensures Agreed(sys', Coordinator(c, op), Grown(articles, op)) && |sys'| == |sys|
  {
    match op
    case Post(s, repId, content) => PostAgreed(sys, c, articles, s, repId, content, sys');
    case Read(s) => ReadAgreed(sys, c, articles, s, sys');
  }

  lemma {:induction false} LogStep(ops: seq<Op>, op: Op)
    ensures Replay(LogOf(ops + [op])) == Grown(Replay(LogOf(ops)), op)
  {
    assert (ops + [op])[..|ops|] == ops;
    if op.Post? {
      assert LogOf(ops + [op])[..|LogOf(ops)|] == LogOf(ops);
    }
  }

  /** Over any run there is exactly one primary and all servers name it, all lists are equal and
      hold exactly what the operations so far wrote, with IDs 1..n and hierachy the depth of the
      reply chain; and every operation finds a primary to turn to. */
  lemma {:induction false} RunsAgree(n: nat, ops: seq<Op>, trace: seq<System>)
    requires n > 0 && Behaviour(n, ops, trace) && ContentsOk(ops)
    ensures exists c :: Agreed(trace[|ops|], c, Replay(LogOf(ops)))
    ensures Threaded(Replay(LogOf(ops)), Accepted(LogOf(ops)))
    ensures |trace[|ops|]| == n && forall s :: 0 <= s < n ==> CanMove(trace[|ops|], s)
  {
    var c := CoordinatorOf(n, ops, trace);
    LogOk(ops);
    SequentialReplay(LogOf(ops));
  }

  lemma {:induction false} BehaviourPrefix(n: nat, ops: seq<Op>, trace: seq<System>)
    requires Behaviour(n, ops, trace) && ops != []
    ensures
      var k := |ops| - 1;
      Behaviour(n, ops[..k], trace[..k + 1]) && trace[..k + 1][k] == trace[k] && Step(trace[k], ops[k], trace[k + 1])
  {
  }

  lemma {:induction false} ContentsPrefix(ops: seq<Op>)
    requires ContentsOk(ops) && ops != []
    ensures ContentsOk(ops[..|ops| - 1])
  {
  }

  lemma {:induction false} CoordinatorOf(n: nat, ops: seq<Op>, trace: seq<System>) returns (c: nat)
    requires n > 0 && Behaviour(n, ops, trace) && ContentsOk(ops)
    ensures Agreed(trace[|ops|], c, Replay(LogOf(ops))) && |trace[|ops|]| == n
  {
    if ops == [] {
      c := 0;
    } else {
      var k := |ops| - 1;
      BehaviourPrefix(n, ops, trace);
      ContentsPrefix(ops);
      var before := CoordinatorOf(n, ops[..k], trace[..k + 1]);
      c := Coordinator(before, ops[k]);
      StepAgreed(trace[k], before, ops[k], trace[k + 1], ops[..k]);
      SplitLast(ops);
    }
  }

  /** Read your writes: after an operation a read at any server shows the list the operations
      so far amount to, and the message it sends decodes to that list. */
  lemma {:induction false} ReadsEverywhere(n: nat, ops: seq<Op>, trace: seq<System>, s: nat, sorted: seq<Article>)
    requires n > 0 && Behaviour(n, ops, trace) && ContentsOk(ops)
    requires s < |trace[|ops|]| && Sorts(sorted, trace[|ops|], s)
    ensures sorted == Replay(LogOf(ops))
    ensures Moved(Tokens(Encode(sorted), {'$'})) == Replay(LogOf(ops))
  {
    var c := CoordinatorOf(n, ops, trace);
    LogOk(ops);
    SequentialReplay(LogOf(ops));
    MigrationKeepsIff(Replay(LogOf(ops)), sorted);
    MoveRoundTripIff(sorted);
    RenumberNumbered(sorted);
  }

  // ---------- whatever the texts hold ----------

  /** c is the one primary, and everybody names it. */
  ghost predicate OnePrimary(sys: System, c: nat) {
    c < |sys| && forall i :: 0 <= i < |sys| ==> sys[i].isCoordinator == (i == c) && sys[i].coordinator == c
  }

  lemma {:induction false} StepOnePrimary(sys: System, c: nat, op: Op, sys': System)
    requires OnePrimary(sys, c) && Step(sys, op, sys')
    ensures OnePrimary(sys', Coordinator(c, op)) && |sys'| == |sys|
  {
  }

  /** Over any run whatever, with any texts, there is one primary, all servers name it, and every
      operation finds it. */
  lemma {:induction false} RunsHaveOnePrimary(n: nat, ops: seq<Op>, trace: seq<System>) returns (c: nat)
    requires n > 0 && Behaviour(n, ops, trace)
    ensures OnePrimary(trace[|ops|], c) && |trace[|ops|]| == n
    ensures forall s :: 0 <= s < n ==> CanMove(trace[|ops|], s)
  {
    if ops == [] {
      c := 0;
    } else {
      var k := |ops| - 1;
      BehaviourPrefix(n, ops, trace);
      var before := RunsHaveOnePrimary(n, ops[..k], trace[..k + 1]);
      c := Coordinator(before, ops[k]);
      StepOnePrimary(trace[k], before, ops[k], trace[k + 1]);
    }
  }

  /** A migration leaves the servers with equal lists if and only if no text holds a '$'. */
  lemma {:induction false} MigrateAgreedIff(sys: System, c: nat, articles: seq<Article>, s: nat, sorted: seq<Article>)
    requires Agreed(sys, c, articles) && s < |sys| && s != c && Numbered(articles)
    requires IsSortOf(sorted, articles, BY_ID)
    ensures (exists a :: Agreed(Migrate(sys, s, sorted), s, a)) <==> DollarFree(articles)
  {
    MigrationKeepsIff(articles, sorted);
    var sys' := Migrate(sys, s, sorted);
    if DollarFree(articles) {
      assert Agreed(sys', s, articles);
    } else {
      assert sys'[c].articles == articles != sys'[s].articles;
    }
  }

  /** A post with a '$' at server 0, and one at server 1: it takes the one article for two, so its own
      gets ID 3 everywhere, and server 0 is left without an article 2. */
  lemma {:induction false} DollarRun() returns (s1: System, s2: System)
    ensures Step(Init(2), Post(0, -1, "a$b"), s1) && Step(s1, Post(1, -1, "c"), s2)
    ensures |s2| == 2 && s2[0].articles == [Article(1, "a$b", 0), Article(3, "c", 0)]
    ensures s2[1].articles == [Article(1, "a", 0), Article(2, "b", 0), Article(3, "c", 0)]
  {
    s1 := DollarPosted();
    s2 := DollarSecond(s1);
  }

  lemma {:induction false} DollarPosted() returns (s1: System)
    ensures Step(Init(2), Post(0, -1, "a$b"), s1)
    ensures s1 == [Node([Article(1, "a$b", 0)], true, 0), Node([Article(1, "a$b", 0)], false, 0)]
  {
    var none: seq<Article> := [];
    s1 := Broadcast(Migrate(Init(2), 0, none), 0, -1, "a$b");
    assert Sorts(none, Init(2), 0);
    assert Apply(none, Write(1, -1, "a$b")) == [Article(1, "a$b", 0)];
    assert s1[0] == Node([Article(1, "a$b", 0)], true, 0) && s1[1] == Node([Article(1, "a$b", 0)], false, 0);
  }

  lemma {:induction false} DollarEncoded()
    ensures Encode([Article(1, "a$b", 0)]) == "a$b;0"
  {
    var one := [Article(1, "a$b", 0)];
    assert IntText(0) == "0";
    assert Texts(one)[0] == "a$b" + ";" + "0" == "a$b;0";
  }

  lemma {:induction false} DollarTokens()
    ensures Tokens("a$b;0", {'$'}) == ["a", "b;0"]
  {
    assert "a$b;0" == "a" + ['$'] + "b;0";
    TokenFirst("a", '$', "b;0", {'$'});
    TokenAlone("b;0", {'$'});
  }

  lemma {:induction false} DollarMoved()
    ensures MovedArticle("a", 1) == Article(1, "a", 0) && MovedArticle("b;0", 2) == Article(2, "b", 0)
  {
    assert IntText(0) == "0";
    MoveOne(Article(0, "b", 0), 2);
    assert "b" + ";" + "0" == "b;0";
    assert FindLast("a"[..0], ';') == NPOS;
    assert "a"[0..] == "a";
  }

  lemma {:induction false} DollarInstalled(one: seq<Article>)
    requires one == [Article(1, "a$b", 0)]
    ensures Installed(one, Encode(one)) == [Article(1, "a", 0), Article(2, "b", 0)]
  {
    DollarEncoded();
    DollarTokens();
    DollarMoved();
  }

  lemma {:induction false} DollarSecond(s1: System) returns (s2: System)
    requires s1 == [Node([Article(1, "a$b", 0)], true, 0), Node([Article(1, "a$b", 0)], false, 0)]
    ensures Step(s1, Post(1, -1, "c"), s2)
    ensures |s2| == 2 && s2[0].articles == [Article(1, "a$b", 0), Article(3, "c", 0)]
    ensures s2[1].articles == [Article(1, "a", 0), Article(2, "b", 0), Article(3, "c", 0)]
  {
    var one, two := [Article(1, "a$b", 0)], [Article(1, "a", 0), Article(2, "b", 0)];
    DollarInstalled(one);
    s2 := PostElsewhere(s1, one, two, "c");
    TwoOf(one[0], Article(3, "c", 0));
    ThreeOf(two[0], two[1], Article(3, "c", 0));
  }

  /** A post at server 1 of two, with what it installs. */
  lemma {:induction false} PostElsewhere(s1: System, one: seq<Article>, two: seq<Article>, content: string)
    returns (s2: System)
    requires s1 == [Node(one, true, 0), Node(one, false, 0)] && IsSortOf(one, one, BY_ID)
    requires Installed(one, Encode(one)) == two
    ensures Step(s1, Post(1, -1, content), s2)
    ensures |s2| == 2 && s2[0].articles == one + [Article(|two| + 1, content, 0)]
    ensures s2[1].articles == two + [Article(|two| + 1, content, 0)]
  {
    s2 := Broadcast(Migrate(s1, 1, one), 1, -1, content);
    MovedTo(s1, one, two);
    PostsEverywhere(Migrate(s1, 1, one), 1, content);
    assert Sorts(one, s1, 0);
  }

  lemma {:induction false} MovedTo(s1: System, one: seq<Article>, two: seq<Article>)
    requires s1 == [Node(one, true, 0), Node(one, false, 0)] && Installed(one, Encode(one)) == two
    ensures
      var m := Migrate(s1, 1, one);
      |m| == 2 && m[0].articles == one && m[1].articles == two
  {
  }

  lemma {:induction false} PostsEverywhere(sys: System, s: nat, content: string)
    requires s < |sys|
    ensures |Broadcast(sys, s, -1, content)| == |sys|
    ensures forall i :: 0 <= i < |sys| ==>
              Broadcast(sys, s, -1, content)[i].articles ==
                sys[i].articles + [Article(|sys[s].articles| + 1, content, 0)]
  {
  }

  // ---------- the handlers on the texts they receive ----------

  /** What a client's request is turned into before the primary handles it. */
  function RequestText(repId: int, content: string): string {
    IntText(repId) + ";" + content
  }

  function UpdateBody(slot: nat, articleId: int, request: string): string {
    IntText(slot) + ";" + (IntText(articleId) + ";" + request)
  }

  function UpdateText(ip: string, slot: nat, articleId: int, request: string): string {
    Closed(["update", ip, SeqServer.PRIMARY_PORT]) + UpdateBody(slot, articleId, request)
  }

  function ParseLocal(request: string, articleId: int): Write {
    Write(articleId, Atoi(TokenAt(Tokens(request, {';'}), 0)), DropField(request))
  }

  /** The write the primary makes of a request: its ID is the next number. */
  function NextWrite(articles: seq<Article>, request: string): Write {
    ParseLocal(request, |articles| + 1)
  }

  function ParseBackup(body: string): Write {
    Write(Atoi(FirstField(DropField(body))), Atoi(TokenAt(Tokens(body, {';'}), 2)), DropFields(body, 3))
  }

  lemma {:induction false} LocalRoundTrip(articleId: int, repId: int, content: string)
    ensures ParseLocal(RequestText(repId, content), articleId) == Write(articleId, repId, content)
  {
    var r := IntText(repId);
    TextFree(repId);
    AtoiText(repId);
    DropOne(r, content);
    TokenFirst(r, ';', content, {';'});
  }

  lemma {:induction false} BackupFields(slot: nat, articleId: int, request: string)
    ensures
      var body := UpdateBody(slot, articleId, request);
      Atoi(FirstField(DropField(body))) == articleId && DropFields(body, 3) == DropField(request)
  {
    TextFree(slot);
    TextFree(articleId);
    AtoiText(articleId);
    DropOne(IntText(articleId), request);
    DropOne(IntText(slot), IntText(articleId) + ";" + request);
    ThreeDrops(UpdateBody(slot, articleId, request));
  }

  /** The primary and every backup read the same write out of the request, whatever its text. */
  lemma {:induction false} WriteRoundTrip(slot: nat, articleId: int, repId: int, content: string)
    ensures ParseLocal(RequestText(repId, content), articleId) == Write(articleId, repId, content)
    ensures ParseBackup(UpdateBody(slot, articleId, RequestText(repId, content))) == Write(articleId, repId, content)
  {
    LocalRoundTrip(articleId, repId, content);
    BackupFields(slot, articleId, RequestText(repId, content));
    TextFree(slot);
    TextFree(articleId);
    TextFree(repId);
    TargetToken(IntText(slot), IntText(articleId), IntText(repId), content);
    AtoiText(repId);
    DropOne(IntText(repId), content);
  }

  /** What the primary stores for a client's request is the write under the next number, and what every other server
      reads in the update it sends is that same write. */
  lemma {:induction false} PrimaryWrites(articles: seq<Article>, slot: nat, repId: int, content: string)
    ensures
      var request, w := RequestText(repId, content), Write(|articles| + 1, repId, content);
      NextWrite(articles, request) == w && ParseBackup(UpdateBody(slot, |articles| + 1, request)) == w
  {
    WriteRoundTrip(slot, |articles| + 1, repId, content);
  }

  /** So FORWARD at server s and UPDATE at the others together are the broadcast of the model. */
  lemma {:induction false} HandlersBroadcast(sys: System, s: nat, slot: nat, repId: int, content: string, i: nat)
    requires s < |sys| && i < |sys|
    ensures
      var request := RequestText(repId, content);
      var update := UpdateBody(slot, |sys[s].articles| + 1, request);
      Broadcast(sys, s, repId, content)[i].articles ==
        Apply(sys[i].articles, if i == s then NextWrite(sys[s].articles, request) else ParseBackup(update))
  {
    PrimaryWrites(sys[s].articles, slot, repId, content);
  }

  /** The acknowledgement of an update, behind its command, address and port. */
  function AckBody(body: string, ok: bool): string {
    FirstField(body) + ";" + if ok then "1" else "0"
  }

  function AckText(ip: string, body: string, ok: bool): string {
    Closed(["ACK_up", ip, SeqServer.PRIMARY_PORT]) + AckBody(body, ok)
  }

  /** The update, and its acknowledgement, are taken for what they are. */
  lemma {:induction false} CommandsAreRead(ip: string, slot: nat, articleId: int, request: string, ok: bool)
    requires ip != "" && Free(ip, {';'})
    ensures
      var text, body := UpdateText(ip, slot, articleId, request), UpdateBody(slot, articleId, request);
      TokenAt(Tokens(text, {';'}), 0) == "update" && TokenAt(Tokens(text, {';'}), 1) == ip
      && DropFields(text, 3) == body
    ensures
      var ack := AckText(ip, UpdateBody(slot, articleId, request), ok);
      TokenAt(Tokens(ack, {';'}), 0) == "ACK_up"
      && DropFields(ack, 3) == AckBody(UpdateBody(slot, articleId, request), ok)
  {
    var body := UpdateBody(slot, articleId, request);
    SeqServer.HeaderTokens("update", ip, SeqServer.PRIMARY_PORT);
    SeqServer.HeaderIsRead("update", ip, SeqServer.PRIMARY_PORT, body);
    SeqServer.HeaderTokens("ACK_up", ip, SeqServer.PRIMARY_PORT);
    SeqServer.HeaderIsRead("ACK_up", ip, SeqServer.PRIMARY_PORT, AckBody(body, ok));
  }

  /** It names the slot and the outcome of the update it is for. */
  lemma {:induction false} AckIsRead(slot: nat, articleId: int, request: string, ok: bool)
    ensures
      var ack := AckBody(UpdateBody(slot, articleId, request), ok);
      Atoi(FirstField(ack)) == slot && (Atoi(DropField(ack)) == if ok then 1 else 0)
  {
    var flag := if ok then "1" else "0";
    TextFree(slot);
    AtoiText(slot);
    DropOne(IntText(slot), IntText(articleId) + ";" + request);
    DropOne(IntText(slot), flag);
    assert IntText(1) == "1" && IntText(0) == "0";
    AtoiText(if ok then 1 else 0);
  }

  lemma {:induction false} TargetToken(s: string, a: string, r: string, content: string)
    requires TokenList([s, a, r], {';'})
    ensures TokenAt(Tokens(s + ";" + (a + ";" + (r + ";" + content)), {';'}), 2) == r
  {
    assert [s, a, r][0] == s && [s, a, r][1] == a && [s, a, r][2] == r;
    TokenFirst(r, ';', content, {';'});
    TokenFirst(a, ';', r + ";" + content, {';'});
    TokenFirst(s, ';', a + ";" + (r + ";" + content), {';'});
  }

  lemma {:induction false} ThreeDrops(s: string)
    ensures DropFields(s, 3) == DropField(DropField(DropField(s)))
  {
    assert DropFields(s, 3) == DropFields(DropField(s), 2) == DropFields(DropField(DropField(s)), 1);
  }

  lemma {:induction false} MovedStep(all: seq<string>, n: nat)
    requires 0 < n && TokenAt(all, n - 1) != ""
    ensures n <= |all| && Moved(all)[..n] == Moved(all)[..n - 1] + [MovedArticle(TokenAt(all, n - 1), n)]
  {
  }

  lemma {:induction false} MovedEnd(all: seq<string>, n: nat)
    requires 0 < n <= |all| + 1 && TokenAt(all, n - 1) == "" && TokenList(all, {'$'})
    ensures n == |all| + 1 && Moved(all)[..n - 1] == Moved(all)
  {
  }

  lemma {:induction false} InstalledSent(articles: seq<Article>, message: string)
    ensures forall sent :: message == Encode(sent) && sent != [] && DollarFree(sent) ==>
              Installed(articles, message) == Renumber(sent)
  {
    forall sent | message == Encode(sent) && sent != [] && DollarFree(sent)
      ensures Installed(articles, message) == Renumber(sent)
    {
      MoveRoundTripIff(sent);
      EncodeEmpty(sent);
    }
  }

  lemma {:induction false} ForwardedWrite(articles: seq<Article>, ip: string, slot: nat, request: string)
    ensures forall repId, content :: request == RequestText(repId, content) ==>
              NextWrite(articles, request) == Write(|articles| + 1, repId, content)
              && ParseBackup(UpdateBody(slot, |articles| + 1, request)) == Write(|articles| + 1, repId, content)
    ensures Free(ip, {';'}) ==>
              DropFields(UpdateText(ip, slot, |articles| + 1, request), 3) == UpdateBody(slot, |articles| + 1, request)
    ensures
      var w := NextWrite(articles, request);
      FeedbackOf(AnswerText(Accepts(articles, w))) ==
        if |Apply(articles, w)| == |articles| + 1 then Success else Failure
  {
    forall repId, content | request == RequestText(repId, content)
      ensures NextWrite(articles, request) == Write(|articles| + 1, repId, content)
      ensures ParseBackup(UpdateBody(slot, |articles| + 1, request)) == Write(|articles| + 1, repId, content)
    {
      PrimaryWrites(articles, slot, repId, content);
    }
    if Free(ip, {';'}) {
      SeqServer.UpdateHeader(ip, UpdateBody(slot, |articles| + 1, request));
    }
    AnswerIsRead(Accepts(articles, NextWrite(articles, request)));
  }

  class Server {
    const localIp: string
    var articles: seq<Article>
    var isCoordinator: bool
    var coordinatorIp: string
    var ackNum: seq<nat>

    constructor (ip: string, coordinator: string)
      ensures localIp == ip && articles == [] && isCoordinator == (ip == coordinator) && coordinatorIp == coordinator
      ensures |ackNum| == 100 && forall k :: 0 <= k < 100 ==> ackNum[k] == 0
    {
      ackNum := seq(100, _ => 0);
      localIp := ip;
      articles := [];
      isCoordinator := ip == coordinator;
      coordinatorIp := coordinator;
    }

    /** The second half of MoveItemX: the old primary's message has arrived. */
    method TakeOver(message: string)
      modifies this`articles, this`isCoordinator, this`coordinatorIp
      ensures articles == Installed(old(articles), message)
      ensures isCoordinator && coordinatorIp == localIp
      ensures message == "" ==> articles == old(articles)
      ensures forall sent :: message == Encode(sent) && sent != [] && DollarFree(sent) ==> articles == Renumber(sent)
    {
      InstalledSent(articles, message);
      if message != "" {
        LoadMoved(message);
      }
      isCoordinator := true;
      coordinatorIp := localIp;
    }

    method LoadMoved(message: string)
      modifies this`articles
      ensures articles == Moved(Tokens(message, {'$'}))
    {
      articles := [];
      var tokenizer := new StringTokenizer();
      tokenizer.Split(message, {'$'});
      ghost var all := tokenizer.Rest();
      TokensNonEmpty(message, {'$'});
      LeftAll(all);
      LeftNext(all, 0);
      var tmpId := 1;
      var article := tokenizer.GetNext();
      while article != ""
        invariant tokenizer.Valid() && 1 <= tmpId <= |all| + 1 && articles == Moved(all)[..tmpId - 1]
        invariant article == TokenAt(all, tmpId - 1) && tokenizer.Rest() == Left(all, tmpId)
        decreases |all| + 1 - tmpId
        modifies this`articles, tokenizer
      {
        MovedStep(all, tmpId);
        articles := articles + [MovedArticle(article, tmpId)];
        LeftNext(all, tmpId);
        tmpId := tmpId + 1;
        article := tokenizer.GetNext();
      }
      MovedEnd(all, tmpId);
    }

    /** A read, and the sending of the list to a server that makes itself the primary: sorted in place, and sent. */
    method SendList() returns (message: string)
      modifies this`articles
      ensures IsSortOf(articles, old(articles), BY_ID) && message == Encode(articles)
    {
      articles, message := SendArticle(articles);
    }

    /** PRIMCHAN: another server has made itself the primary. */
    method HandlePrimaryChanged(ip: string)
      modifies this`isCoordinator, this`coordinatorIp
      ensures !isCoordinator && coordinatorIp == ip
    {
      coordinatorIp := ip;
      isCoordinator := false;
    }

    /** The target lookup and the append that both updates share. */
    method Store(w: Write) returns (ok: bool)
      modifies this`articles
      ensures articles == Apply(old(articles), w)
      ensures ok <==> w.repId == -1 || exists i :: 0 <= i < |old(articles)| && old(articles)[i].id == w.repId
      ensures ok == Accepts(old(articles), w)
    {
      ApplyAddsIff(articles, w);
      var hierachy := 0;
      if w.repId != -1 {
        var k := FindArticleById(articles, w.repId);
        if k == |articles| {
          return false;
        }
        hierachy := articles[k].hierachy + 1;
      }
      articles := articles + [Article(w.articleId, w.content, hierachy)];
      ok := true;
    }

    /** FORWARD at the primary: claim a slot, store under the next number, answer, and make the update
        whether or not the target was found. */
    method HandleForward(request: string) returns (answer: string, update: string)
      modifies this`articles, this`ackNum
      ensures articles == Apply(old(articles), NextWrite(old(articles), request))
      ensures answer == AnswerText(Accepts(old(articles), NextWrite(old(articles), request)))
      ensures update == UpdateText(localIp, PrimaryBackup.FirstZero(old(ackNum)), |old(articles)| + 1, request)
      ensures ackNum == PrimaryBackup.Claim(old(ackNum))
      ensures forall repId, content :: request == RequestText(repId, content) ==>
                articles == Apply(old(articles), Write(|old(articles)| + 1, repId, content))
                && (Free(localIp, {';'}) ==>
                      ParseBackup(DropFields(update, 3)) == Write(|old(articles)| + 1, repId, content))
                && (FeedbackOf(answer) == if |articles| == |old(articles)| + 1 then Success else Failure)
    {
      ForwardedWrite(articles, localIp, PrimaryBackup.FirstZero(ackNum), request);
      var slot;
      slot, ackNum := PrimaryBackup.ClaimSlot(ackNum);
      var articleId := |articles| + 1;
      var ok := Store(NextWrite(articles, request));
      answer := AnswerText(ok);
      update := UpdateText(localIp, slot, articleId, request);
    }

    /** ACK_up at the primary: a success is counted, and nothing else; no slot is ever given back. */
    method HandleAckUp(body: string)
      requires 0 <= Atoi(FirstField(body)) < |ackNum|
      modifies this`ackNum
      ensures var slot := Atoi(FirstField(body));
              ackNum == if Atoi(DropField(body)) == 0 then old(ackNum) else old(ackNum)[slot := old(ackNum)[slot] + 1]
      ensures |ackNum| == |old(ackNum)| && forall k :: 0 <= k < |ackNum| && old(ackNum)[k] != 0 ==> ackNum[k] != 0
    {
      var slot := Atoi(FirstField(body));
      if Atoi(DropField(body)) != 0 {
        ackNum := ackNum[slot := ackNum[slot] + 1];
      }
    }

    /** UPDATE at a backup: apply it and acknowledge to the primary. */
    method HandleUpdate(body: string) returns (ok: bool, message: string)
      modifies this`articles
      ensures articles == Apply(old(articles), ParseBackup(body))
      ensures ok <==> |articles| == |old(articles)| + 1
      ensures message == AckText(localIp, body, ok)
      ensures forall slot: nat, articleId, repId, content ::
                body == UpdateBody(slot, articleId, RequestText(repId, content)) ==>
                  articles == Apply(old(articles), Write(articleId, repId, content))
    {
      UpdatedWrite(body);
      ok := Store(ParseBackup(body));
      message := AckText(localIp, body, ok);
    }
  }

  lemma {:induction false} UpdatedWrite(body: string)
    ensures forall slot: nat, articleId, repId, content ::
              body == UpdateBody(slot, articleId, RequestText(repId, content)) ==>
                ParseBackup(body) == Write(articleId, repId, content)
  {
    forall slot: nat, articleId, repId, content | body == UpdateBody(slot, articleId, RequestText(repId, content))
      ensures ParseBackup(body) == Write(articleId, repId, content)
    {
      WriteRoundTrip(slot, articleId, repId, content);
    }
  }
}
