/** The article list every bulletin-board server keeps, how it is sent, and how the three
    servers read it back. */
module Articles {
  import opened Text
  import opened Tokenizer
  import opened Sorting

  datatype Article = Article(id: int, content: string, hierachy: int)

  const BY_ID: Article -> int := (a: Article) => a.id

  /** The position of the first article with this ID, or the length if there is none. */
  function IndexOf(articles: seq<Article>, id: int): (k: nat)
    ensures k <= |articles|
    ensures k < |articles| ==> articles[k].id == id
    ensures forall i :: 0 <= i < k ==> articles[i].id != id
  {
    if articles == [] || articles[0].id == id then 0 else 1 + IndexOf(articles[1..], id)
  }

  lemma {:induction false} IndexUnique(articles: seq<Article>, id: int, k: nat)
    requires k < |articles| && articles[k].id == id
    requires forall i :: 0 <= i < k ==> articles[i].id != id
    ensures IndexOf(articles, id) == k
  {
  }

  method FindArticleById(articles: seq<Article>, id: int) returns (k: nat)
    ensures k == IndexOf(articles, id)
  {
    k := 0;
    while k < |articles|
      invariant k <= |articles|
      invariant forall i :: 0 <= i < k ==> articles[i].id != id
    {
      if articles[k].id == id {
        IndexUnique(articles, id, k);
        return;
      }
      k := k + 1;
    }
  }

  /** IDs 1, 2, ..., n in list order. */
  ghost predicate Numbered(articles: seq<Article>) {
    forall i :: 0 <= i < |articles| ==> articles[i].id == i + 1
  }

  function Renumber(articles: seq<Article>): (r: seq<Article>)
    ensures |r| == |articles| && Numbered(r)
    ensures forall i :: 0 <= i < |r| ==> r[i].content == articles[i].content && r[i].hierachy == articles[i].hierachy
  {
    seq(|articles|, i requires 0 <= i < |articles| => articles[i].(id := i + 1))
  }

  lemma {:induction false} RenumberNumbered(articles: seq<Article>)
    requires Numbered(articles)
    ensures Renumber(articles) == articles
  {
  }

  lemma {:induction false} NumberedIncreases(articles: seq<Article>)
    requires Numbered(articles)
    ensures Increasing(articles, BY_ID)
  {
  }

  lemma {:induction false} FindNumbered(articles: seq<Article>, id: int)
    requires Numbered(articles)
    ensures IndexOf(articles, id) == if 1 <= id <= |articles| then id - 1 else |articles|
  {
    if 1 <= id <= |articles| {
      IndexUnique(articles, id, id - 1);
    }
  }

  // ---------- sending ----------

  /** One article as it travels: content;hierachy */
  function ArticleText(a: Article): string {
    a.content + ";" + IntText(a.hierachy)
  }

  function Texts(articles: seq<Article>): (r: seq<string>)
    ensures |r| == |articles|
    ensures forall i :: 0 <= i < |r| ==> r[i] == ArticleText(articles[i])
  {
    seq(|articles|, i requires 0 <= i < |articles| => ArticleText(articles[i]))
  }

  function Encode(articles: seq<Article>): string {
    Join(Texts(articles), '$')
  }

  /** The list as sendArticle leaves it, sorted in place, and the message it sends. */
  method SendArticle(articles: seq<Article>) returns (sorted: seq<Article>, message: string)
    ensures IsSortOf(sorted, articles, BY_ID)
    ensures message == Encode(sorted)
  {
    sorted := Sort(articles, BY_ID);
    message := "";
    for k := 0 to |sorted|
      invariant message == if k == 0 then "" else Join(Texts(sorted)[..k], '$') + "$"
    {
      JoinSnoc(Texts(sorted), k);
      ghost var before := message;
      message := message + (sorted[k].content + ";");
      message := message + (IntText(sorted[k].hierachy) + "$");
      Append(before, sorted[k]);
    }
    assert Texts(sorted)[..|sorted|] == Texts(sorted);
    if |message| > 0 {
      message := message[..|message| - 1];
    }
  }

  lemma {:induction false} Append(before: string, a: Article)
    ensures before + (a.content + ";") + (IntText(a.hierachy) + "$") == before + ArticleText(a) + "$"
  {
  }

  lemma {:induction false} JoinSnoc(ts: seq<string>, k: nat)
    requires k < |ts|
    ensures Join(ts[..k + 1], '$') == (if k == 0 then "" else Join(ts[..k], '$') + "$") + ts[k]
  {
    if k > 0 {
      JoinSnoc(ts[1..], k - 1);
      assert ts[..k + 1][1..] == ts[1..][..k] && ts[..k][1..] == ts[1..][..k - 1];
      if k > 1 {
        var a, b, c := ts[0] + "$", Join(ts[1..][..k - 1], '$'), "$" + ts[k];
        assert a + (b + c) == (a + b) + c;
        assert Join(ts[..k], '$') == a + b;
      }
    }
  }

  // ---------- reading back after a migration (MoveItemX) ----------

  function MovedArticle(token: string, id: int): Article {
    var k := FindLast(token, ';');
    Article(id, if k == NPOS then token else token[..k], Atoi(token[k + 1..]))
  }

  function Moved(tokens: seq<string>): (r: seq<Article>)
    ensures |r| == |tokens| && Numbered(r)
  {
    seq(|tokens|, i requires 0 <= i < |tokens| => MovedArticle(tokens[i], i + 1))
  }

  ghost predicate DollarFree(articles: seq<Article>) {
    forall i :: 0 <= i < |articles| ==> Free(articles[i].content, {'$'})
  }

  lemma {:induction false} TextsAreTokens(articles: seq<Article>)
    requires DollarFree(articles)
    ensures Tokens(Encode(articles), {'$'}) == Texts(articles)
  {
    forall i | 0 <= i < |articles|
      ensures Texts(articles)[i] != [] && Free(Texts(articles)[i], {'$'})
    {
      TextFree(articles[i].hierachy);
    }
    TokensOfJoin(Texts(articles), '$');
  }

  lemma {:induction false} MoveOne(a: Article, id: int)
    ensures MovedArticle(ArticleText(a), id) == a.(id := id)
  {
    var h := IntText(a.hierachy);
    TextFree(a.hierachy);
    LastSeparator(a.content, h, ';');
    AtoiText(a.hierachy);
    var token := a.content + ";" + h;
    assert token[..|a.content|] == a.content && token[|a.content| + 1..] == h;
  }

  lemma {:induction false} MoveAt(articles: seq<Article>, i: nat)
    requires i < |articles|
    ensures Moved(Texts(articles))[i] == Renumber(articles)[i]
  {
    MoveOne(articles[i], i + 1);
    assert Texts(articles)[i] == ArticleText(articles[i]);
  }

  lemma {:induction false} MoveAll(articles: seq<Article>)
    ensures Moved(Texts(articles)) == Renumber(articles)
  {
    forall i: nat | i < |articles|
      ensures Moved(Texts(articles))[i] == Renumber(articles)[i]
    {
      MoveAt(articles, i);
    }
  }

  /** Migration brings each content and hierachy over, in list order, under the IDs 1..n, if and
      only if no content holds a '$'. */
  lemma {:induction false} MoveRoundTripIff(articles: seq<Article>)
    ensures Moved(Tokens(Encode(articles), {'$'})) == Renumber(articles) <==> DollarFree(articles)
  {
    if DollarFree(articles) {
      TextsAreTokens(articles);
      MoveAll(articles);
    } else if Moved(Tokens(Encode(articles), {'$'})) == Renumber(articles) {
      MoveNeedsFree(articles);
    }
  }

  lemma {:induction false} MoveNeedsFree(articles: seq<Article>)
    requires Moved(Tokens(Encode(articles), {'$'})) == Renumber(articles)
    ensures DollarFree(articles)
  {
    var tokens := Tokens(Encode(articles), {'$'});
    TokensNonEmpty(Encode(articles), {'$'});
    forall i | 0 <= i < |articles|
      ensures Free(articles[i].content, {'$'})
    {
      assert Renumber(articles)[i].content == Moved(tokens)[i].content;
      assert Free(tokens[i], {'$'});
    }
  }

  /** The message is empty for the empty list only. */
  lemma {:induction false} EncodeEmpty(articles: seq<Article>)
    ensures Encode(articles) == "" <==> articles == []
  {
    if articles != [] {
      assert ArticleText(articles[0]) == Texts(articles)[0];
    }
  }

  // ---------- reading back in a synchronisation (loadArticle) ----------

  /** Four fields closed by ';', a fifth, and the hierachy as the sixth. */
  function LoadedArticle(token: string, id: int): Article {
    var f := Tokens(token, {';'});
    Article(id, Closed([TokenAt(f, 0), TokenAt(f, 1), TokenAt(f, 2), TokenAt(f, 3)]) + TokenAt(f, 4), Atoi(TokenAt(f,
      5)))
  }

  function Loaded(tokens: seq<string>): (r: seq<Article>)
    ensures |r| == |tokens| && Numbered(r)
  {
    seq(|tokens|, i requires 0 <= i < |tokens| => LoadedArticle(tokens[i], i + 1))
  }

  /** Version;Title;author;Time;content with all five fields present. */
  ghost predicate FiveFields(content: string) {
    exists f: seq<string> :: FieldsOf(f, content)
  }

  ghost predicate FieldsOf(f: seq<string>, content: string) {
    |f| == 5 && TokenList(f, {';', '$'}) && content == Join(f, ';')
  }

  ghost predicate ContentAt(articles: seq<Article>, i: nat)
    requires i < |articles|
  {
    FiveFields(articles[i].content)
  }

  ghost predicate WellFormedContents(articles: seq<Article>) {
    forall i :: 0 <= i < |articles| ==> ContentAt(articles, i)
  }

  lemma {:induction false} JoinClosed(f: seq<string>)
    requires f != []
    ensures Join(f, ';') == Closed(f[..|f| - 1]) + f[|f| - 1]
    ensures Join(f, ';') + ";" == Closed(f)
  {
    if |f| == 1 {
      assert Closed(f[1..]) == "";
    } else {
      JoinClosed(f[1..]);
      assert f[..|f| - 1][1..] == f[1..][..|f| - 2];
      var a, b, c := f[0] + ";", Closed(f[1..][..|f| - 2]), f[|f| - 1];
      assert a + (b + c) == (a + b) + c;
      assert a + Join(f[1..], ';') + ";" == a + (Join(f[1..], ';') + ";");
    }
  }

  lemma {:induction false} JoinFree(f: seq<string>)
    requires TokenList(f, {';', '$'})
    ensures Free(Join(f, ';'), {'$'})
  {
    if |f| > 1 {
      assert TokenList(f[1..], {';', '$'}) by { assert forall i :: 0 <= i < |f[1..]| ==> f[1..][i] == f[i + 1]; }
      JoinFree(f[1..]);
      assert Free(f[0], {';', '$'});
    } else if |f| == 1 {
      assert Free(f[0], {';', '$'});
    }
  }

  lemma {:induction false} LoadOne(content: string, hierachy: int, id: int)
    requires FiveFields(content)
    ensures Free(content, {'$'})
    ensures LoadedArticle(content + ";" + IntText(hierachy), id) == Article(id, content, hierachy)
    ensures |Tokens(content + ";" + IntText(hierachy), {';'})| == 6
  {
    var f :| FieldsOf(f, content);
    var h := IntText(hierachy);
    JoinFree(f);
    JoinClosed(f);
    assert TokenList(f, {';'}) by { assert forall i :: 0 <= i < |f| ==> f[i] != [] && Free(f[i], {';', '$'}); }
    TokensOfClosed(f, h);
    TextFree(hierachy);
    TokenAlone(h, {';'});
    AtoiText(hierachy);
    assert f[..4] == [f[0], f[1], f[2], f[3]];
  }

  lemma {:induction false} LoadAll(articles: seq<Article>)
    requires WellFormedContents(articles)
    ensures DollarFree(articles)
    ensures Loaded(Texts(articles)) == Renumber(articles)
    ensures forall i :: 0 <= i < |articles| ==> |Tokens(Texts(articles)[i], {';'})| == 6
  {
    forall i | 0 <= i < |articles|
      ensures Free(articles[i].content, {'$'})
      ensures LoadedArticle(Texts(articles)[i], i + 1) == Renumber(articles)[i]
      ensures |Tokens(Texts(articles)[i], {';'})| == 6
    {
      assert ContentAt(articles, i);
      LoadOne(articles[i].content, articles[i].hierachy, i + 1);
      assert Texts(articles)[i] == ArticleText(articles[i]);
    }
  }

  /** What is loaded has no '$' in it. */
  lemma {:induction false} LoadedFree(token: string, id: int)
    requires Free(token, {'$'})
    ensures Free(LoadedArticle(token, id).content, {'$'})
  {
    var f := Tokens(token, {';'});
    TokensFree(token, {';'}, {'$'});
    ClosedFree([TokenAt(f, 0), TokenAt(f, 1), TokenAt(f, 2), TokenAt(f, 3)], {'$'});
  }

  /** A content that comes back was made of five fields: with fewer, its level would be read as one. */
  lemma {:induction false} LoadNeedsFive(content: string, hierachy: int, id: int)
    requires Free(content, {'$'})
    requires LoadedArticle(content + ";" + IntText(hierachy), id).content == content
    ensures FiveFields(content)
  {
    var h, ts := IntText(hierachy), Tokens(content, {';'});
    TextFree(hierachy);
    TokenAlone(h, {';'});
    TokensConcat(content, ';', h, {';'});
    TokensNonEmpty(content, {';'});
    if |ts| >= 5 {
      FirstFive(content, ts + [h]);
    } else {
      TooFew(content, ts, h);
    }
  }

  lemma {:induction false} FirstFive(content: string, f: seq<string>)
    requires Free(content, {'$'}) && |f| > |Tokens(content, {';'})| >= 5 && f[..5] == Tokens(content, {';'})[..5]
    requires Closed([f[0], f[1], f[2], f[3]]) + f[4] == content
    ensures FiveFields(content)
  {
    var five := f[..5];
    TokensNonEmpty(content, {';'});
    TokensFree(content, {';'}, {'$'});
    assert TokenList(five, {';', '$'}) by {
      forall i | 0 <= i < 5
        ensures five[i] != [] && Free(five[i], {';', '$'})
      {
        assert five[i] == Tokens(content, {';'})[i];
      }
    }
    JoinClosed(five);
    assert five[..4] == [f[0], f[1], f[2], f[3]];
    assert FieldsOf(five, content);
  }

  lemma {:induction false} TooFew(content: string, ts: seq<string>, h: string)
    requires ts == Tokens(content, {';'}) && |ts| < 5 && h != "" && Free(h, {';'})
    ensures
      var f := ts + [h];
      Closed([TokenAt(f, 0), TokenAt(f, 1), TokenAt(f, 2), TokenAt(f, 3)]) + TokenAt(f, 4) != content
  {
    TokensNonEmpty(content, {';'});
    var f := ts + [h];
    assert TokenList(f, {';'});
    var four := [TokenAt(f, 0), TokenAt(f, 1), TokenAt(f, 2), TokenAt(f, 3)];
    if |ts| == 4 {
      assert four == ts;
      TokensOfClosed(ts, h);
      TokenAlone(h, {';'});
    } else {
      assert four == f + four[|f|..];
      ClosedConcat(f, four[|f|..]);
      TokensOfClosed(f, Closed(four[|f|..]) + TokenAt(f, 4));
      assert Closed(f) + Closed(four[|f|..]) + TokenAt(f, 4) == Closed(f) + (Closed(four[|f|..]) + TokenAt(f, 4));
    }
  }

  /** A synchronised server ends up with the sent contents and hierachies under the IDs 1..n, if and
      only if every content has its five fields and no '$'. */
  lemma {:induction false} LoadRoundTripIff(articles: seq<Article>)
    ensures Loaded(Tokens(Encode(articles), {'$'})) == Renumber(articles) <==> WellFormedContents(articles)
  {
    if WellFormedContents(articles) {
      LoadRoundTrip(articles);
    } else if Loaded(Tokens(Encode(articles), {'$'})) == Renumber(articles) {
      LoadNeedsWellFormed(articles);
    }
  }

  lemma {:induction false} LoadNeedsWellFormed(articles: seq<Article>)
    requires Loaded(Tokens(Encode(articles), {'$'})) == Renumber(articles)
    ensures WellFormedContents(articles)
  {
    forall i: nat | i < |articles|
      ensures Free(articles[i].content, {'$'})
    {
      LoadNeedsFree(articles, i);
    }
    TextsAreTokens(articles);
    forall i: nat | i < |articles|
      ensures ContentAt(articles, i)
    {
      LoadNeedsContent(articles, i);
    }
  }

  lemma {:induction false} LoadNeedsFree(articles: seq<Article>, i: nat)
    requires Loaded(Tokens(Encode(articles), {'$'})) == Renumber(articles) && i < |articles|
    ensures Free(articles[i].content, {'$'})
  {
    var tokens := Tokens(Encode(articles), {'$'});
    TokensNonEmpty(Encode(articles), {'$'});
    assert Renumber(articles)[i].content == Loaded(tokens)[i].content;
    LoadedFree(tokens[i], i + 1);
  }

  lemma {:induction false} LoadNeedsContent(articles: seq<Article>, i: nat)
    requires DollarFree(articles) && i < |articles|
    requires Loaded(Texts(articles)) == Renumber(articles)
    ensures ContentAt(articles, i)
  {
    assert Renumber(articles)[i].content == Loaded(Texts(articles))[i].content;
    assert Texts(articles)[i] == ArticleText(articles[i]);
    LoadNeedsFive(articles[i].content, articles[i].hierachy, i + 1);
  }

  /** And then it never meets a missing field. */
  lemma {:induction false} LoadRoundTrip(articles: seq<Article>)
    requires WellFormedContents(articles)
    ensures DollarFree(articles)
    ensures Loaded(Tokens(Encode(articles), {'$'})) == Renumber(articles)
    ensures forall t :: t in Tokens(Encode(articles), {'$'}) ==> |Tokens(t, {';'})| == 6
  {
    LoadAll(articles);
    TextsAreTokens(articles);
  }
}
