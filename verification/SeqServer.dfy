/** The handlers of seq_server on the texts they receive, tied to the steps of the system model. */
module SeqServer {
  import opened Sequences
  import opened Text
  import opened Tokenizer
  import opened Articles
  import opened Replication
  import opened PrimaryBackup
  import opened Sorting
  import opened Answers

  const PRIMARY_PORT: string := "5100"
  const BACKUP_PORT: string := "5101"

  /** substr(0, k), which is the whole string when k is npos or has wrapped around. */
  function Before(s: string, k: int): string {
    if 0 <= k <= |s| then s[..k] else s
  }

  function Rest(s: string, k: int): string
    requires NPOS <= k < |s|
  {
    s[k + 1..]
  }

  // ---------- texts ----------

  /** What a backup forwards, as the primary passes it on: reply target, text, origin. */
  function RequestText(q: Request): string {
    IntText(q.repId) + ";" + (q.payload + ";" + OriginText(q.origin))
  }

  function OriginText(o: Origin): string {
    o.ip + ";" + o.port
  }

  /** The update without its command, address and port. */
  function UpdateBody(slot: nat, articleId: int, request: string): string {
    Closed([IntText(slot), IntText(articleId)]) + request
  }

  /** The message with which a backup hands a request to the primary. */
  function ForwardText(ip: string, q: Request): string {
    Closed(["forward_req", ip, BACKUP_PORT]) + RequestText(q)
  }

  function UpdateText(ip: string, slot: nat, articleId: int, request: string): string {
    Closed(["update", ip, PRIMARY_PORT]) + UpdateBody(slot, articleId, request)
  }

  function AckBody(a: Ack): string {
    Closed([IntText(a.slot), if a.ok then "1" else "0"]) + OriginText(a.origin)
  }

  function AckText(ip: string, a: Ack): string {
    Closed(["ACK_up", ip, PRIMARY_PORT]) + AckBody(a)
  }

  predicate IsOrigin(o: Origin) {
    Free(o.ip, {';'}) && Free(o.port, {';'})
  }

  // ---------- reading them ----------

  function NoPort(tail: string): string {
    Before(tail, FindLast(tail, ';'))
  }

  function NoIp(tail: string): string {
    Before(tail, FindLast(tail, ';') - 1)
  }

  /** update_backup's cutting of "repID;text;ip;port": the port, the address, the reply target. */
  function CutContent(tail: string): string {
    DropField(NoIp(NoPort(tail)))
  }

  function ParseTarget(body: string): int {
    Atoi(TokenAt(Tokens(body, {';'}), 2))
  }

  /** The write an update body stands for. */
  function ParseWrite(body: string): Write {
    Write(Atoi(FirstField(DropField(body))), ParseTarget(body), CutContent(DropField(DropField(body))))
  }

  /** The origin as it is copied from the update into the acknowledgement. */
  function ParseOrigin(body: string): Origin {
    var noPort := Before(body, FindLast(body, ';'));
    Origin(Rest(noPort, FindLast(noPort, ';')), Rest(body, FindLast(body, ';')))
  }

  function ParseAck(body: string): Ack
    requires 0 <= Atoi(FirstField(body))
  {
    var origin := DropField(DropField(body));
    Ack(Atoi(FirstField(body)), Atoi(FirstField(DropField(body))) != 0, Origin(FirstField(origin), DropField(origin)))
  }

  /** Every server reads out of an update exactly the write that the system model applies; the
      text it stores has lost its last character, or is the reply target if it was empty. */
  lemma {:induction false} UpdateRoundTrip(ip: string, slot: nat, articleId: int, q: Request)
    requires Free(ip, {';'}) && IsOrigin(q.origin)
    ensures DropFields(UpdateText(ip, slot, articleId, RequestText(q)), 3) ==
            UpdateBody(slot, articleId, RequestText(q))
    ensures FirstField(UpdateBody(slot, articleId, RequestText(q))) == IntText(slot)
    ensures ParseWrite(UpdateBody(slot, articleId, RequestText(q))) ==
            Write(articleId, q.repId, Stored(q.repId, q.payload))
    ensures q.payload != "" ==>
              ParseWrite(UpdateBody(slot, articleId, RequestText(q))) ==
                Write(articleId, q.repId, q.payload[..|q.payload| - 1])
    ensures ParseOrigin(UpdateBody(slot, articleId, RequestText(q))) == q.origin
  {
    UpdateHeader(ip, UpdateBody(slot, articleId, RequestText(q)));
    HeadOfBody(slot, articleId, q);
    TargetOfBody(slot, articleId, q);
    ContentOfBody(q);
    OriginOfBody(slot, articleId, q);
  }

  /** The listener reads the command of a message from its first token, and the address and port to answer to from
      the next two; what it hands to the handler is the rest. */
  lemma {:induction false} HeaderIsRead(command: string, ip: string, port: string, body: string)
    requires TokenList([command, ip, port], {';'})
    ensures
      var text := Closed([command, ip, port]) + body;
      && TokenAt(Tokens(text, {';'}), 0) == command && TokenAt(Tokens(text, {';'}), 1) == ip
      && TokenAt(Tokens(text, {';'}), 2) == port && DropFields(text, 3) == body
  {
    var fields := [command, ip, port];
    HeaderRoundTrip(fields, body);
    assert |fields| == 3 && fields[0] == command && fields[1] == ip && fields[2] == port;
  }

  lemma {:induction false} HeaderTokens(command: string, ip: string, port: string)
    requires command != "" && ip != "" && port != "" && Free(command, {';'}) && Free(ip, {';'}) && Free(port, {';'})
    ensures TokenList([command, ip, port], {';'})
  {
    var fields := [command, ip, port];
    assert fields[0] == command && fields[1] == ip && fields[2] == port;
  }

  /** So a request goes to FORWARD, to be answered at the backup's port, */
  lemma {:induction false} RequestIsRead(ip: string, q: Request)
    requires ip != "" && Free(ip, {';'})
    ensures
      var text := ForwardText(ip, q);
      && TokenAt(Tokens(text, {';'}), 0) == "forward_req" && TokenAt(Tokens(text, {';'}), 1) == ip
      && Atoi(TokenAt(Tokens(text, {';'}), 2)) == 5101 && DropFields(text, 3) == RequestText(q)
  {
    HeaderTokens("forward_req", ip, BACKUP_PORT);
    HeaderIsRead("forward_req", ip, BACKUP_PORT, RequestText(q));
    PortTexts();
  }

  /** an update to UPDATE, to be acknowledged at the primary's address, */
  lemma {:induction false} UpdateIsRead(ip: string, slot: nat, articleId: int, q: Request)
    requires ip != "" && Free(ip, {';'})
    ensures
      var text := UpdateText(ip, slot, articleId, RequestText(q));
      && TokenAt(Tokens(text, {';'}), 0) == "update" && TokenAt(Tokens(text, {';'}), 1) == ip
      && Atoi(TokenAt(Tokens(text, {';'}), 2)) == 5100
      && DropFields(text, 3) == UpdateBody(slot, articleId, RequestText(q))
  {
    HeaderTokens("update", ip, PRIMARY_PORT);
    HeaderIsRead("update", ip, PRIMARY_PORT, UpdateBody(slot, articleId, RequestText(q)));
    PortTexts();
  }

  /** and an acknowledgement to ACK_up. */
  lemma {:induction false} AckIsRead(ip: string, a: Ack)
    requires ip != "" && Free(ip, {';'})
    ensures
      var text := AckText(ip, a);
      && TokenAt(Tokens(text, {';'}), 0) == "ACK_up" && TokenAt(Tokens(text, {';'}), 1) == ip
      && Atoi(TokenAt(Tokens(text, {';'}), 2)) == 5100 && DropFields(text, 3) == AckBody(a)
  {
    HeaderTokens("ACK_up", ip, PRIMARY_PORT);
    HeaderIsRead("ACK_up", ip, PRIMARY_PORT, AckBody(a));
    PortTexts();
  }

  /** Ports are printed numbers. */
  lemma {:induction false} PortTexts()
    ensures Atoi(PRIMARY_PORT) == 5100 && Atoi(BACKUP_PORT) == 5101
  {
    assert NatText(5) == "5" && NatText(51) == "51";
    assert NatText(510) == "510";
    assert IntText(5100) == PRIMARY_PORT && IntText(5101) == BACKUP_PORT;
    AtoiText(5100);
    AtoiText(5101);
  }

  lemma {:induction false} UpdateHeader(ip: string, body: string)
    requires Free(ip, {';'})
    ensures DropFields(Closed(["update", ip, PRIMARY_PORT]) + body, 3) == body
  {
    DropHeader(["update", ip, PRIMARY_PORT], body);
  }

  lemma {:induction false} BodyFields(slot: nat, articleId: int, q: Request)
    ensures UpdateBody(slot, articleId, RequestText(q)) ==
            IntText(slot) + ";" + (IntText(articleId) + ";" + RequestText(q))
    ensures Free(IntText(slot), {';'}) && Free(IntText(articleId), {';'}) && Free(IntText(q.repId), {';'})
  {
    ClosedTwo(IntText(slot), IntText(articleId));
    TextFree(slot);
    TextFree(articleId);
    TextFree(q.repId);
  }

  lemma {:induction false} HeadOfBody(slot: nat, articleId: int, q: Request)
    ensures
      var body := UpdateBody(slot, articleId, RequestText(q));
      && FirstField(body) == IntText(slot)
      && Atoi(FirstField(DropField(body))) == articleId
      && DropField(DropField(body)) == RequestText(q)
  {
    BodyFields(slot, articleId, q);
    AtoiText(articleId);
    DropOne(IntText(slot), IntText(articleId) + ";" + RequestText(q));
    DropOne(IntText(articleId), RequestText(q));
  }

  lemma {:induction false} TargetOfBody(slot: nat, articleId: int, q: Request)
    ensures ParseTarget(UpdateBody(slot, articleId, RequestText(q))) == q.repId
  {
    BodyFields(slot, articleId, q);
    AtoiText(q.repId);
    TokenFirst(IntText(slot), ';', IntText(articleId) + ";" + RequestText(q), {';'});
    TokenFirst(IntText(articleId), ';', RequestText(q), {';'});
    TokenFirst(IntText(q.repId), ';', q.payload + ";" + OriginText(q.origin), {';'});
  }

  lemma {:induction false} OriginOfBody(slot: nat, articleId: int, q: Request)
    requires IsOrigin(q.origin)
    ensures ParseOrigin(UpdateBody(slot, articleId, RequestText(q))) == q.origin
  {
    BodyFields(slot, articleId, q);
    var s, a, r := IntText(slot), IntText(articleId), IntText(q.repId);
    OriginCopied(s + ";" + (a + ";" + (r + ";" + q.payload)), q.origin);
    Regroup(s, a, r, q.payload, OriginText(q.origin));
  }

  lemma {:induction false} Regroup(a: string, b: string, c: string, d: string, e: string)
    ensures a + ";" + (b + ";" + (c + ";" + (d + ";" + e))) == a + ";" + (b + ";" + (c + ";" + d)) + ";" + e
  {
  }

  lemma {:induction false} ClosedTwo(a: string, b: string)
    ensures Closed([a, b]) == a + ";" + (b + ";")
    ensures forall rest :: Closed([a, b]) + rest == a + ";" + (b + ";" + rest)
  {
    assert [a, b][1..] == [b] && [b][1..] == [];
    assert Closed([b]) == b + ";" + "";
    assert b + ";" + "" == b + ";";
    assert forall rest :: a + ";" + (b + ";") + rest == a + ";" + (b + ";" + rest);
  }

  lemma {:induction false} ClosedThree(a: string, b: string, c: string, rest: string)
    ensures Closed([a, b, c]) + rest == a + ";" + b + ";" + c + ";" + rest
  {
    ClosedTwo(b, c);
    assert [a, b, c][1..] == [b, c];
    assert Closed([a, b, c]) == a + ";" + Closed([b, c]);
  }

  lemma {:induction false} ContentOfBody(q: Request)
    requires IsOrigin(q.origin)
    ensures CutContent(RequestText(q)) == Stored(q.repId, q.payload)
  {
    var rep := IntText(q.repId);
    CutPort(rep, q.payload, q.origin);
    CutIp(rep, q.payload, q.origin.ip);
    CutTarget(q.repId, q.payload);
  }

  lemma {:induction false} CutPort(rep: string, payload: string, o: Origin)
    requires IsOrigin(o)
    ensures NoPort(rep + ";" + (payload + ";" + OriginText(o))) == rep + ";" + payload + ";" + o.ip
  {
    var tail := rep + ";" + (payload + ";" + OriginText(o));
    var kept := rep + ";" + payload + ";" + o.ip;
    assert tail == kept + ";" + o.port;
    LastSeparator(kept, o.port, ';');
  }

  /** Cutting the address off leaves one character too few. */
  lemma {:induction false} CutIp(rep: string, payload: string, ip: string)
    requires Free(ip, {';'})
    ensures NoIp(rep + ";" + payload + ";" + ip) == (rep + ";" + payload)[..|rep| + |payload|]
  {
    var kept := rep + ";" + payload;
    LastSeparator(kept, ip, ';');
    assert (kept + ";" + ip)[..|kept| - 1] == kept[..|kept| - 1];
  }

  lemma {:induction false} CutTarget(repId: int, payload: string)
    ensures DropField((IntText(repId) + ";" + payload)[..|IntText(repId)| + |payload|]) == Stored(repId, payload)
  {
    var rep := IntText(repId);
    TextFree(repId);
    CutLast(rep, payload);
    if payload == "" {
      OneField(rep);
    } else {
      DropOne(rep, payload[..|payload| - 1]);
    }
  }

  lemma {:induction false} CutLast(rep: string, payload: string)
    ensures (rep + ";" + payload)[..|rep| + |payload|] ==
            if payload == "" then rep else rep + ";" + payload[..|payload| - 1]
  {
  }

  lemma {:induction false} OriginCopied(pre: string, o: Origin)
    requires IsOrigin(o)
    ensures ParseOrigin(pre + ";" + OriginText(o)) == o
  {
    var body, kept := pre + ";" + OriginText(o), pre + ";" + o.ip;
    assert body == kept + ";" + o.port;
    LastSeparator(kept, o.port, ';');
    assert body[..|kept|] == kept && body[|kept| + 1..] == o.port;
    LastSeparator(pre, o.ip, ';');
    assert kept[|pre| + 1..] == o.ip;
  }

  /** The primary reads out of an acknowledgement the slot, the flag and the origin it was made of. */
  lemma {:induction false} AckRoundTrip(ip: string, a: Ack)
    requires Free(ip, {';'}) && IsOrigin(a.origin)
    ensures
      && DropFields(AckText(ip, a), 3) == AckBody(a)
      && Atoi(FirstField(AckBody(a))) == a.slot && ParseAck(AckBody(a)) == a
  {
    var flag := if a.ok then "1" else "0";
    var slot := IntText(a.slot);
    DropHeader(["ACK_up", ip, PRIMARY_PORT], AckBody(a));
    TextFree(a.slot);
    AtoiText(a.slot);
    ClosedTwo(slot, flag);
    assert AckBody(a) == slot + ";" + (flag + ";" + OriginText(a.origin));
    DropOne(slot, flag + ";" + OriginText(a.origin));
    DropOne(flag, OriginText(a.origin));
    DropOne(a.origin.ip, a.origin.port);
    assert IntText(1) == "1" && IntText(0) == "0";
    AtoiText(if a.ok then 1 else 0);
  }

  // ---------- the server ----------

  class Server {
    const localIp: string
    var articles: seq<Article>
    // the next two are used by the primary only
    var id: int
    var ackNum: seq<nat>

    constructor (ip: string)
      ensures localIp == ip && articles == [] && id == 0
      ensures |ackNum| == 100 && forall k :: 0 <= k < 100 ==> ackNum[k] == 0
    {
      localIp := ip;
      articles := [];
      id := 0;
      ackNum := seq(100, _ => 0);
    }

    /** A client's post at a backup, and what goes to the primary. */
    method HandlePost(content: string) returns (message: string)
      ensures message == ForwardText(localIp, Request(-1, content, Origin(localIp, BACKUP_PORT)))
    {
      assert IntText(-1) == "-1";
      message := Forwarded("-1;" + (content + ";" + (localIp + ";" + BACKUP_PORT)));
    }

    /** A client's reply, which comes with its target in front. */
    method HandleReply(request: string) returns (message: string)
      ensures forall repId, content :: request == IntText(repId) + (";" + content) ==>
                message == ForwardText(localIp, Request(repId, content, Origin(localIp, BACKUP_PORT)))
    {
      message := Forwarded(request + (";" + (localIp + ";" + BACKUP_PORT)));
      forall repId, content | request == IntText(repId) + (";" + content)
        ensures message == ForwardText(localIp, Request(repId, content, Origin(localIp, BACKUP_PORT)))
      {
        Associate(IntText(repId), ";" + content, ";" + (localIp + ";" + BACKUP_PORT));
        assert (";" + content) + (";" + (localIp + ";" + BACKUP_PORT)) ==
               ";" + (content + ";" + (localIp + ";" + BACKUP_PORT));
      }
    }

    method Forwarded(request: string) returns (message: string)
      ensures message == Closed(["forward_req", localIp, BACKUP_PORT]) + request
    {
      message := "forward_req;" + localIp + ";" + BACKUP_PORT + ";" + request;
      ClosedThree("forward_req", localIp, BACKUP_PORT, request);
    }

    /** FORWARD at the primary: claim a slot, take the next ID, and make the update to broadcast. */
    method HandleForward(request: string) returns (message: string)
      modifies this`id, this`ackNum
      ensures id == old(id) + 1 && ackNum == Claim(old(ackNum))
      ensures message == UpdateText(localIp, FirstZero(old(ackNum)), id, request)
      ensures ackNum == if 0 in old(ackNum) then old(ackNum) else old(ackNum) + [0]
    {
      var slot;
      slot, ackNum := ClaimSlot(ackNum);
      id := id + 1;
      message := UpdateText(localIp, slot, id, request);
    }

    /** The third token of the update. */
    method ReadTarget(body: string) returns (repId: int)
      ensures repId == ParseTarget(body)
    {
      var tokenizer := new StringTokenizer();
      tokenizer.Split(body, {';'});
      ghost var all := tokenizer.Rest();
      LeftAll(all);
      LeftNext(all, 0);
      LeftNext(all, 1);
      LeftNext(all, 2);
      var reqId := tokenizer.GetNext();
      var contentId := tokenizer.GetNext();
      var repText := tokenizer.GetNext();
      repId := Atoi(repText);
    }

    method UpdateBackup(body: string) returns (ok: bool)
      modifies this`articles
      ensures articles == Apply(old(articles), ParseWrite(body))
      ensures ok <==> ParseWrite(body).repId == -1
                      || exists i :: 0 <= i < |old(articles)| && old(articles)[i].id == ParseWrite(body).repId
      ensures ok == Accepts(old(articles), ParseWrite(body)) && (ok <==> |articles| == |old(articles)| + 1)
    {
      ApplyAddsIff(articles, ParseWrite(body));
      var repId := ReadTarget(body);
      var hierachy := 0;
      if repId != -1 {
        var k := FindArticleById(articles, repId);
        if k != |articles| {
          hierachy := articles[k].hierachy + 1;
        } else {
          return false;
        }
      }
      var content := DropField(body);
      var articleId := Atoi(FirstField(content));
      articles := articles + [Article(articleId, CutContent(DropField(content)), hierachy)];
      ok := true;
    }

    /** UPDATE at any server: apply it and acknowledge to the primary. */
    method HandleUpdate(body: string) returns (message: string)
      modifies this`articles
      ensures articles == Apply(old(articles), ParseWrite(body))
      ensures message == Closed(["ACK_up", localIp, PRIMARY_PORT]) + AnswerTo(old(articles), body)
    {
      var exist := UpdateBackup(body);
      var port := Rest(body, FindLast(body, ';'));
      var noPort := Before(body, FindLast(body, ';'));
      var ip := Rest(noPort, FindLast(noPort, ';'));
      message := Closed(["ACK_up", localIp, PRIMARY_PORT]) +
                 (Closed([FirstField(body), if exist then "1" else "0"]) + (ip + ";" + port));
    }

    /** A read: the list is sorted in place and sent. */
    method HandleRead() returns (message: string)
      modifies this`articles
      ensures IsSortOf(articles, old(articles), BY_ID) && message == Encode(articles)
    {
      articles, message := SendArticle(articles);
    }

    /** ACK_up at the primary: count it, and answer the origin when it is the last one. */
    method HandleAckUp(body: string, servers: nat) returns (answer: string, origin: Origin)
      requires 0 <= Atoi(FirstField(body)) < |ackNum|
      modifies this`id, this`ackNum
      ensures (id, ackNum) == CollectStep(old(id), old(ackNum), servers, ParseAck(body))
      ensures answer != "" <==> old(ackNum)[ParseAck(body).slot] + 1 == servers
      ensures answer != "" ==> answer == "ACK_comp;" + FirstField(DropField(body)) && origin == ParseAck(body).origin
    {
      answer, origin := "", Origin("", "");
      var slot := Atoi(FirstField(body));
      var request := DropField(body);
      ackNum := ackNum[slot := ackNum[slot] + 1];
      if ackNum[slot] == servers {
        var succ := FirstField(request);
        answer := "ACK_comp;" + succ;
        if Atoi(succ) == 0 {
          id := id - 1;
        }
        request := DropField(request);
        origin := Origin(FirstField(request), DropField(request));
        ackNum := ackNum[slot := 0];
        assert ackNum == old(ackNum)[slot := 0];
        assert |answer| > 0;
      }
    }
  }

  /** A FORWARD by text: the counters of the primary, and the update as every server will read it, are those of
      the step of the system. */
  lemma {:induction false} ForwardByText(s: System, q: Request, ip: string)
    requires Free(ip, {';'}) && IsOrigin(q.origin)
    ensures
      var s', u := Next(s, Forward(q)), UpdateFor(s, q);
      var body := DropFields(UpdateText(ip, FirstZero(s.ackNum), s.id + 1, RequestText(q)), 3);
      && s'.id == s.id + 1 && s'.ackNum == Claim(s.ackNum) && s'.sent == s.sent + [u]
      && body == UpdateBody(u.slot, u.write.articleId, RequestText(q))
      && Atoi(FirstField(body)) == u.slot && ParseWrite(body) == u.write && ParseOrigin(body) == u.origin
  {
    UpdateRoundTrip(ip, FirstZero(s.ackNum), s.id + 1, q);
    AtoiText(FirstZero(s.ackNum));
  }

  /** The texts carry the steps of the system: what a server does with the text of a broadcast
      request, and the text it answers with, are what Delivered does. */
  lemma {:induction false} DeliveredByText(s: System, q: Request, p: Replica)
    requires IsOrigin(q.origin) && p.inbox != [] && p.inbox[0] == UpdateFor(s, q)
    ensures
      var u := UpdateFor(s, q);
      var body := UpdateBody(u.slot, u.write.articleId, RequestText(q));
      && Apply(p.articles, ParseWrite(body)) == Delivered(p).articles
      && AnswerTo(p.articles, body) == AckBody(Delivered(p).acks[|p.acks|])
  {
    var u := UpdateFor(s, q);
    UpdateRoundTrip("", u.slot, u.write.articleId, q);
    assert AnswerTo(p.articles, UpdateBody(u.slot, u.write.articleId, RequestText(q)))
        == AckBody(Ack(u.slot, Accepts(p.articles, u.write), u.origin));
    assert Delivered(p).acks[|p.acks|] == Ack(u.slot, Accepts(p.articles, u.write), u.origin);
  }

  /** Counting the text of an acknowledgement is the collecting step. */
  lemma {:induction false} CollectedByText(s: System, r: nat)
    requires Enabled(s, Collect(r)) && IsOrigin(s.replicas[r].acks[0].origin)
    ensures
      var s', a := Next(s, Collect(r)), s.replicas[r].acks[0];
      && Atoi(FirstField(AckBody(a))) == a.slot && ParseAck(AckBody(a)) == a
      && (s'.id, s'.ackNum) == CollectStep(s.id, s.ackNum, |s.replicas|, ParseAck(AckBody(a)))
      && s'.completions == s.completions + if s.ackNum[a.slot] + 1 == |s.replicas| then [Completion(a.origin, a.ok)]
         else []
  {
    var a := s.replicas[r].acks[0];
    AckRoundTrip("", a);
    AtoiText(a.slot);
  }

  /** What the primary answers at the last acknowledgement is read by the client as what the server said. */
  lemma {:induction false} OutcomeIsTold(a: Ack)
    ensures FeedbackOf("ACK_comp;" + FirstField(DropField(AckBody(a)))) == if a.ok then Success else Failure
  {
    AckFlag(a);
    AnswerIsRead(a.ok);
  }

  lemma {:induction false} AckFlag(a: Ack)
    ensures FirstField(DropField(AckBody(a))) == if a.ok then "1" else "0"
  {
    var flag := if a.ok then "1" else "0";
    TextFree(a.slot);
    ClosedTwo(IntText(a.slot), flag);
    DropOne(IntText(a.slot), flag + ";" + OriginText(a.origin));
    DropOne(flag, OriginText(a.origin));
  }

  /** The acknowledgement made out of an update by a server that holds articles. */
  function AnswerTo(articles: seq<Article>, body: string): string {
    Closed([FirstField(body), if Accepts(articles, ParseWrite(body)) then "1" else "0"]) + OriginText(ParseOrigin(body))
  }
}
