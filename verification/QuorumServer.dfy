/** The handlers of qum_server on the texts they receive, tied to the operations of the
    quorum model. */
module QuorumServer {
  import opened Text
  import opened Tokenizer
  import opened Articles
  import opened Sorting
  import Shuffle
  import Quorum

  // ---------- texts: a header of fields and a body that may hold separators ----------

  function WriteText(ip: string, port: string, preHie: int, content: string): string {
    Closed(["OPERATION_WRITE", "WRITE", ip, port, IntText(preHie)]) + content
  }

  function SynchText(ip: string, port: string, message: string): string {
    Closed(["OPERATION_SYNCH", "SYNCH", ip, port]) + message
  }

  function ForwardText(host: string, port: string, preHie: int, content: string): string {
    Closed(["FORWARD_QUM", "POST", host, port, IntText(preHie)]) + content
  }

  predicate Field(s: string) {
    s != [] && Free(s, {';'})
  }

  lemma {:induction false} FiveHeader(a: string, b: string, c: string, d: string, n: int, body: string)
    requires Field(a) && Field(b) && Field(c) && Field(d)
    ensures
      var text := Closed([a, b, c, d, IntText(n)]) + body;
      && DropFields(text, 5) == body && Atoi(TokenAt(Tokens(text, {';'}), 4)) == n
      && TokenAt(Tokens(text, {';'}), 0) == a && TokenAt(Tokens(text, {';'}), 1) == b
      && TokenAt(Tokens(text, {';'}), 2) == c && TokenAt(Tokens(text, {';'}), 3) == d
      && TokenAt(Tokens(text, {';'}), 4) == IntText(n)
  {
    TextFree(n);
    AtoiText(n);
    var fields := [a, b, c, d, IntText(n)];
    assert TokenList(fields, {';'}) by {
      assert fields[0] == a && fields[1] == b && fields[2] == c && fields[3] == d && fields[4] == IntText(n);
    }
    HeaderRoundTrip(fields, body);
    assert |fields| == 5;
  }

  /** A write is taken for one by a selected server, which gets the level of its target and its text as they were
      when the coordinator got them, */
  lemma {:induction false} WriteRoundTrip(ip: string, port: string, preHie: int, content: string)
    requires Field(ip) && Field(port)
    ensures
      var text := WriteText(ip, port, preHie, content);
      && TokenAt(Tokens(text, {';'}), 0) == "OPERATION_WRITE" && TokenAt(Tokens(text, {';'}), 2) == ip
      && DropFields(text, 5) == content
      && HasNumber(TokenAt(Tokens(text, {';'}), 4)) && Atoi(TokenAt(Tokens(text, {';'}), 4)) == preHie
  {
    AtoiText(preHie);
    FiveHeader("OPERATION_WRITE", "WRITE", ip, port, preHie, content);
  }

  /** and the coordinator got what the first server forwarded. */
  lemma {:induction false} ForwardRoundTrip(ip: string, port: string, preHie: int, content: string)
    requires Field(ip) && Field(port)
    ensures
      var text := ForwardText(ip, port, preHie, content);
      && TokenAt(Tokens(text, {';'}), 0) == "FORWARD_QUM" && TokenAt(Tokens(text, {';'}), 1) == "POST"
      && TokenAt(Tokens(text, {';'}), 2) == ip && DropFields(text, 5) == content
      && HasNumber(TokenAt(Tokens(text, {';'}), 4)) && Atoi(TokenAt(Tokens(text, {';'}), 4)) == preHie
  {
    AtoiText(preHie);
    FiveHeader("FORWARD_QUM", "POST", ip, port, preHie, content);
  }

  lemma {:induction false} SynchRoundTrip(ip: string, port: string, message: string)
    requires Field(ip) && Field(port)
    ensures DropFields(SynchText(ip, port, message), 4) == message
    ensures TokenAt(Tokens(SynchText(ip, port, message), {';'}), 0) == "OPERATION_SYNCH"
  {
    var fields := ["OPERATION_SYNCH", "SYNCH", ip, port];
    assert fields[0] == "OPERATION_SYNCH" && fields[1] == "SYNCH" && fields[2] == ip && fields[3] == port;
    HeaderRoundTrip(fields, message);
    assert |fields| == 4;
  }

  // ---------- which articles of a message can be loaded ----------

  /** stoi finds the level of an article: it has a sixth field, and that starts with a number. */
  predicate LevelReads(token: string) {
    HasNumber(TokenAt(Tokens(token, {';'}), 5))
  }

  /** Whatever list is sent, its articles can all be loaded if their contents have five plain fields. */
  lemma {:induction false} SentLoads(message: string)
    ensures forall sent :: message == Encode(sent) && WellFormedContents(sent) ==>
              Loaded(Tokens(message, {'$'})) == Renumber(sent)
              && forall t :: t in Tokens(message, {'$'}) ==> LevelReads(t)
  {
    forall sent | message == Encode(sent) && WellFormedContents(sent)
      ensures Loaded(Tokens(message, {'$'})) == Renumber(sent)
      ensures forall t :: t in Tokens(message, {'$'}) ==> LevelReads(t)
    {
      LoadRoundTrip(sent);
      SentLevels(sent);
    }
  }

  lemma {:induction false} SentLevels(sent: seq<Article>)
    requires WellFormedContents(sent)
    ensures forall t :: t in Tokens(Encode(sent), {'$'}) ==> LevelReads(t)
  {
    Articles.LoadAll(sent);
    TextsAreTokens(sent);
    forall i | 0 <= i < |sent|
      ensures LevelReads(Texts(sent)[i])
    {
      SentLevel(sent, i);
    }
  }

  lemma {:induction false} SentLevel(sent: seq<Article>, i: nat)
    requires WellFormedContents(sent) && i < |sent|
    ensures LevelReads(Texts(sent)[i])
  {
    assert ContentAt(sent, i);
    LoadOne(sent[i].content, sent[i].hierachy, i + 1);
    LevelIsLast(sent[i].content, sent[i].hierachy);
    assert Texts(sent)[i] == ArticleText(sent[i]);
  }

  lemma {:induction false} LevelIsLast(content: string, hierachy: int)
    requires |Tokens(content + ";" + IntText(hierachy), {';'})| == 6
    ensures LevelReads(content + ";" + IntText(hierachy))
  {
    var h := IntText(hierachy);
    TextFree(hierachy);
    TokenAlone(h, {';'});
    TokensConcat(content, ';', h, {';'});
    AtoiText(hierachy);
  }

  lemma {:induction false} LoadedLength(tokens: seq<string>, n: nat)
    requires n <= |tokens|
    ensures |Loaded(tokens)| == |tokens| && (n == |tokens| ==> Loaded(tokens)[..n] == Loaded(tokens))
    ensures n > 0 ==> Loaded(tokens)[..n] == Loaded(tokens)[..n - 1] + [LoadedArticle(tokens[n - 1], n)]
  {
  }

  lemma {:induction false} WriteIsRead(message: string)
    ensures forall ip, port, preHie, content ::
              message == WriteText(ip, port, preHie, content) && Field(ip) && Field(port) ==>
                && HasNumber(TokenAt(Tokens(message, {';'}), 4)) && Atoi(TokenAt(Tokens(message, {';'}), 4)) == preHie
                && DropFields(message, 5) == content
  {
    forall ip, port, preHie, content | message == WriteText(ip, port, preHie, content) && Field(ip) && Field(port)
      ensures HasNumber(TokenAt(Tokens(message, {';'}), 4)) && Atoi(TokenAt(Tokens(message, {';'}), 4)) == preHie
      ensures DropFields(message, 5) == content
    {
      WriteRoundTrip(ip, port, preHie, content);
    }
  }

  lemma {:induction false} SynchIsRead(message: string)
    ensures forall ip, port, sent :: message == SynchText(ip, port, Encode(sent)) && Field(ip) && Field(port) ==>
              DropFields(message, 4) == Encode(sent)
  {
    forall ip, port, sent | message == SynchText(ip, port, Encode(sent)) && Field(ip) && Field(port)
      ensures DropFields(message, 4) == Encode(sent)
    {
      SynchRoundTrip(ip, port, Encode(sent));
    }
  }

  // ---------- the server ----------

  class Server {
    var articles: seq<Article>
    var id: int
    var ver: nat

    ghost function State(): Quorum.Node
      reads this
    {
      Quorum.Node(articles, id, ver)
    }

    constructor ()
      ensures State() == Quorum.Node([], 0, 0)
    {
      articles, id, ver := [], 0, 0;
    }

    method WriteArticle(content: string, preHierarchy: int)
      modifies this
      ensures State() == Quorum.Wrote(old(State()), content, preHierarchy)
    {
      id := id + 1;
      articles := articles + [Article(id, content, preHierarchy + 1)];
      ver := ver + 1;
    }

    /** OPERATION_WRITE; ok is false where stoi throws on the level of the target. */
    method HandleWrite(message: string) returns (ok: bool, reply: string)
      modifies this
      ensures ok == HasNumber(TokenAt(Tokens(message, {';'}), 4)) && reply == if ok then IntText(ver) else ""
      ensures State() == if !ok then old(State()) else
                Quorum.Wrote(old(State()), DropFields(message, 5), Atoi(TokenAt(Tokens(message, {';'}), 4)))
      ensures forall ip, port, preHie, content ::
                message == WriteText(ip, port, preHie, content) && Field(ip) && Field(port) ==>
                  && ok && articles == old(articles) + [Article(old(id) + 1, content, preHie + 1)]
                  && id == old(id) + 1 && ver == old(ver) + 1
    {
      WriteIsRead(message);
      var preHie := ReadFifth(message);
      ok, reply := HasNumber(preHie), "";
      if ok {
        WriteArticle(DropFields(message, 5), Atoi(preHie));
        reply := IntText(ver);
      }
    }

    /** OPERATION_SYNCH */
    method HandleSynch(message: string) returns (ok: bool, reply: string)
      modifies this`articles
      ensures ok ==> State() == Quorum.LoadAll([old(State())], DropFields(message, 4))[0]
      ensures reply == if ok then IntText(ver) else ""
      ensures forall ip, port, sent ::
                message == SynchText(ip, port, Encode(sent)) && Field(ip) && Field(port) && WellFormedContents(sent) ==>
                  ok && articles == Renumber(sent)
    {
      SynchIsRead(message);
      ok := LoadArticle(DropFields(message, 4));
      reply := if ok then IntText(ver) else "";
    }

    /** OPERATION_READ and REQUESTART: the list is sorted in place and sent. */
    method HandleRead() returns (reply: string)
      modifies this`articles
      ensures IsSortOf(articles, old(articles), BY_ID) && reply == Encode(articles)
    {
      articles, reply := SendArticle(articles);
    }

    /** REQUESTVER: the coordinator reads the version back with atoi. */
    method HandleVersion() returns (reply: string)
      ensures Atoi(reply) == ver
    {
      AtoiText(ver);
      reply := IntText(ver);
    }

    /** OPERATION_REPLY: the level of the article with the ID; ok is false where the source reads through the end of its
        list, or stoi throws on the ID. */
    method HandleReply(message: string) returns (ok: bool, reply: string)
      ensures
        var target := TokenAt(Tokens(message, {';'}), 4);
        ok <==> HasNumber(target) && exists i :: 0 <= i < |articles| && articles[i].id == Atoi(target)
      ensures forall preHie :: ok && Quorum.Target([State()], Atoi(TokenAt(Tokens(message, {';'}), 4)), preHie) ==>
                HasNumber(reply) && Atoi(reply) == preHie
    {
      var target := ReadFifth(message);
      reply := "";
      if !HasNumber(target) {
        return false, "";
      }
      var k := FindArticleById(articles, Atoi(target));
      ok := k < |articles|;
      if ok {
        reply := IntText(articles[k].hierachy);
        AtoiText(articles[k].hierachy);
      }
    }

    /** The fifth token of the request. */
    method ReadFifth(message: string) returns (token: string)
      ensures token == TokenAt(Tokens(message, {';'}), 4)
    {
      var tokenizer := new StringTokenizer();
      tokenizer.Split(message, {';'});
      ghost var all := tokenizer.Rest();
      LeftAll(all);
      var skipped := 0;
      while skipped < 4
        invariant tokenizer.Valid() && 0 <= skipped <= 4 && tokenizer.Rest() == Left(all, skipped)
        modifies tokenizer
      {
        LeftNext(all, skipped);
        token := tokenizer.GetNext();
        skipped := skipped + 1;
      }
      LeftNext(all, 4);
      token := tokenizer.GetNext();
    }

    /** loadArticle; ok is false where stoi throws on a missing level, with the articles before
        that one loaded. */
    method LoadArticle(message: string) returns (ok: bool)
      modifies this`articles
      ensures
        var tokens := Tokens(message, {'$'});
        && |articles| <= |tokens| && articles == Loaded(tokens)[..|articles|] && (ok <==> |articles| == |tokens|)
        && (forall i :: 0 <= i < |articles| ==>
              |Tokens(tokens[i], {';'})| >= 6 && HasNumber(Tokens(tokens[i], {';'})[5]))
        && (!ok ==> !(|Tokens(tokens[|articles|], {';'})| >= 6 && HasNumber(Tokens(tokens[|articles|], {';'})[5])))
      ensures forall sent :: message == Encode(sent) && WellFormedContents(sent) ==> ok && articles == Renumber(sent)
    {
      SentLoads(message);
      articles := [];
      var buffer := new StringTokenizer();
      buffer.Split(message, {'$'});
      LeftAll(buffer.Rest());
      ok := ReadAll(buffer, buffer.Rest());
    }

    /** The loop over the articles of the message. */
    method ReadAll(buffer: StringTokenizer, ghost all: seq<string>) returns (ok: bool)
      requires buffer.Valid() && buffer.tokenList == buffer.Rest() == all && articles == []
      modifies this`articles, buffer
      ensures |articles| <= |all| && articles == Loaded(all)[..|articles|] && (ok <==> |articles| == |all|)
      ensures forall i :: 0 <= i < |articles| ==> LevelReads(all[i])
      ensures !ok ==> !LevelReads(all[|articles|])
    {
      LeftAll(all);
      LoadedLength(all, 0);
      var n := buffer.GetSize();
      for i := 0 to n
        invariant buffer.Valid() && n == |all| && buffer.Rest() == Left(all, i)
        invariant |articles| == i && articles == Loaded(all)[..i]
        invariant forall k :: 0 <= k < i ==> LevelReads(all[k])
        modifies this`articles, buffer
      {
        LeftNext(all, i);
        LoadedLength(all, i + 1);
        var token := buffer.GetNext();
        assert token == all[i];
        var readable, article := LoadOne(token, i + 1);
        if !readable {
          return false;
        }
        articles := articles + [article];
      }
      ok := true;
    }

    method LoadOne(token: string, newId: int) returns (ok: bool, article: Article)
      ensures ok == LevelReads(token) && (ok ==> article == LoadedArticle(token, newId))
    {
      var fields := new StringTokenizer();
      fields.Split(token, {';'});
      ghost var f := fields.Rest();
      LeftAll(f);
      var content := FourFields(fields, f);
      LeftNext(f, 4);
      var last := fields.GetNext();
      LeftNext(f, 5);
      var hierachy := fields.GetNext();
      ok := HasNumber(hierachy);
      article := Article(newId, content + last, Atoi(hierachy));
    }

    method FourFields(fields: StringTokenizer, ghost f: seq<string>) returns (content: string)
      requires fields.Valid() && fields.Rest() == Left(f, 0)
      modifies fields
      ensures fields.Valid() && fields.Rest() == Left(f, 4)
      ensures content == Closed([TokenAt(f, 0), TokenAt(f, 1), TokenAt(f, 2), TokenAt(f, 3)])
    {
      ghost var four := [TokenAt(f, 0), TokenAt(f, 1), TokenAt(f, 2), TokenAt(f, 3)];
      content := "";
      for j := 0 to 4
        invariant fields.Valid() && fields.Rest() == Left(f, j) && content == Closed(four[..j])
        modifies fields
      {
        LeftNext(f, j);
        var field := fields.GetNext();
        ClosedAppend(four[..j], four[j]);
        assert four[..j + 1] == four[..j] + [four[j]];
        content := content + field + ";";
      }
      assert four[..4] == four;
    }
  }

  /** A selection as the coordinator makes it is one the operations of the model allow: nonempty
      for a nonzero size, in range, and without repeats. */
  lemma {:induction false} ShuffledSelection(n: nat, select: nat, draws: seq<nat>)
    requires 0 < select <= n <= |draws|
    ensures Quorum.SelOk(Shuffle.Shuffled(n, draws)[..select], n)
  {
    Shuffle.ShuffleIsDerangement(n, draws);
    var q := Shuffle.Shuffled(n, draws);
    assert forall i, j :: 0 <= i < j < select ==> q[..select][i] == q[i] && q[..select][j] == q[j];
  }
}
