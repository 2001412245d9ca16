/** CStringTokenizer: splitting at delimiters, and handing the tokens out one by one. */
module Tokenizer {
  import opened Sequences
  import opened Text

  /** The token starting at lastPos and ending before pos, or at the end of s. */
  function Substr(s: string, lastPos: int, pos: int): string
    requires 0 <= lastPos <= |s| && (pos == NPOS || lastPos <= pos <= |s|)
  {
    if pos == NPOS then s[lastPos..] else s[lastPos..pos]
  }

  /** The tokens of s: drop delimiters, take characters up to the next one, and so on. */
  function Tokens(s: string, delims: set<char>): seq<string>
    decreases |s|
  {
    if s == [] then []
    else if s[0] in delims then Tokens(s[1..], delims)
    else
      var k := FindFirstOf(s, delims, 0);
      if k == NPOS then [s] else [s[..k]] + Tokens(s[k..], delims)
  }

  lemma {:induction false} DropDelimiters(g: string, rest: string, delims: set<char>)
    requires Gap(g, delims)
    ensures Tokens(g + rest, delims) == Tokens(rest, delims)
  {
    if g == [] {
      assert g + rest == rest;
    } else {
      assert (g + rest)[1..] == g[1..] + rest;
      DropDelimiters(g[1..], rest, delims);
    }
  }

  /** A token closed by a delimiter comes out first, whatever follows. */
  lemma TokenFirst(t: string, d: char, rest: string, delims: set<char>)
    requires t != [] && Free(t, delims) && d in delims
    ensures Tokens(t + [d] + rest, delims) == [t] + Tokens([d] + rest, delims) == [t] + Tokens(rest, delims)
  {
    var s := t + [d] + rest;
    assert forall i :: 0 <= i < |t| ==> s[i] == t[i];
    assert s[|t|] == d;
    assert FindFirstOf(s, delims, 0) == |t|;
    assert s[..|t|] == t && s[|t|..] == [d] + rest;
    assert ([d] + rest)[1..] == rest;
  }

  /** A delimiter keeps the tokens on its two sides apart. */
  lemma {:induction false} TokensConcat(a: string, d: char, b: string, delims: set<char>)
    requires d in delims
    ensures Tokens(a + [d] + b, delims) == Tokens(a, delims) + Tokens(b, delims)
    decreases |a|
  {
    if a == [] {
      assert a + [d] + b == [d] + b;
      DropDelimiters([d], b, delims);
    } else if a[0] in delims {
      assert (a + [d] + b)[1..] == a[1..] + [d] + b;
      TokensConcat(a[1..], d, b, delims);
    } else {
      var k := FindFirstOf(a, delims, 0);
      if k == NPOS {
        TokenAlone(a, delims);
        TokenFirst(a, d, b, delims);
      } else {
        TokensConcatLater(a, k, d, b, delims);
        TokensConcat(a[k + 1..], d, b, delims);
        assert ([a[..k]] + Tokens(a[k + 1..], delims)) + Tokens(b, delims) ==
               [a[..k]] + (Tokens(a[k + 1..], delims) + Tokens(b, delims));
      }
    }
  }

  lemma TokensConcatLater(a: string, k: nat, d: char, b: string, delims: set<char>)
    requires 0 < k < |a| && k == FindFirstOf(a, delims, 0)
    ensures Tokens(a, delims) == [a[..k]] + Tokens(a[k + 1..], delims)
    ensures Tokens(a + [d] + b, delims) == [a[..k]] + Tokens(a[k + 1..] + [d] + b, delims)
  {
    assert a == a[..k] + [a[k]] + a[k + 1..];
    TokenFirst(a[..k], a[k], a[k + 1..], delims);
    assert a + [d] + b == a[..k] + [a[k]] + (a[k + 1..] + [d] + b);
    TokenFirst(a[..k], a[k], a[k + 1..] + [d] + b, delims);
  }

  lemma TokenAlone(t: string, delims: set<char>)
    requires t != [] && Free(t, delims)
    ensures Tokens(t, delims) == [t]
  {
  }

  // ---------- what the tokens are: the maximal delimiter-free runs, in order ----------

  predicate Gap(g: string, delims: set<char>) {
    forall i :: 0 <= i < |g| ==> g[i] in delims
  }

  /** gaps[0] ts[0] gaps[1] ts[1] ... gaps[n] */
  function Interleave(gaps: seq<string>, ts: seq<string>): string
    requires |gaps| == |ts| + 1
  {
    if ts == [] then gaps[0] else gaps[0] + (ts[0] + Interleave(gaps[1..], ts[1..]))
  }

  /** s is the runs ts of other characters, kept apart by runs of delimiters. */
  ghost predicate Separates(s: string, delims: set<char>, gaps: seq<string>, ts: seq<string>) {
    && |gaps| == |ts| + 1 && s == Interleave(gaps, ts)
    && (forall i :: 0 <= i < |gaps| ==> Gap(gaps[i], delims))
    && (forall i :: 0 < i < |ts| ==> gaps[i] != [])
    && (forall i :: 0 <= i < |ts| ==> ts[i] != [] && Free(ts[i], delims))
  }

  /** However a string separates into runs and gaps, its tokens are the runs. */
  lemma {:induction false} TokensAreRuns(s: string, delims: set<char>, gaps: seq<string>, ts: seq<string>)
    requires Separates(s, delims, gaps, ts)
    ensures Tokens(s, delims) == ts
    decreases |ts|
  {
    if ts == [] {
      DropDelimiters(gaps[0], [], delims);
      assert gaps[0] + [] == s;
    } else {
      var rest := Interleave(gaps[1..], ts[1..]);
      DropDelimiters(gaps[0], ts[0] + rest, delims);
      assert Separates(rest, delims, gaps[1..], ts[1..]);
      TokensAreRuns(rest, delims, gaps[1..], ts[1..]);
      if rest != [] {
        RestStartsWithGap(rest, delims, gaps[1..], ts[1..]);
      }
      RunFirst(ts[0], rest, delims);
      assert [ts[0]] + ts[1..] == ts;
    }
  }

  lemma RunFirst(t: string, rest: string, delims: set<char>)
    requires t != [] && Free(t, delims) && (rest != [] ==> rest[0] in delims)
    ensures Tokens(t + rest, delims) == [t] + Tokens(rest, delims)
  {
    if rest == [] {
      assert t + rest == t;
      TokenAlone(t, delims);
    } else {
      assert t + rest == t + [rest[0]] + rest[1..];
      TokenFirst(t, rest[0], rest[1..], delims);
      assert [rest[0]] + rest[1..] == rest;
    }
  }

  lemma RestStartsWithGap(s: string, delims: set<char>, gaps: seq<string>, ts: seq<string>)
    requires Separates(s, delims, gaps, ts) && s != []
    requires ts != [] ==> gaps[0] != []
    ensures s[0] in delims
  {
    assert Gap(gaps[0], delims);
    assert s[0] == gaps[0][0];
  }

  /** And every string separates into its tokens and the gaps around them. */
  lemma {:induction false} TokensSeparate(s: string, delims: set<char>) returns (gaps: seq<string>)
    ensures Separates(s, delims, gaps, Tokens(s, delims))
    ensures s != [] && s[0] in delims ==> gaps[0] != []
    decreases |s|
  {
    if s == [] {
      gaps := [[]];
    } else if s[0] in delims {
      var g := TokensSeparate(s[1..], delims);
      gaps := [[s[0]] + g[0]] + g[1..];
      WidenGap(s[1..], delims, g, Tokens(s, delims), s[0]);
      assert [s[0]] + s[1..] == s;
    } else {
      var k := FindFirstOf(s, delims, 0);
      if k == NPOS {
        gaps := [[], []];
        assert Interleave([[]], []) == [];
        assert [] + (s + []) == s;
      } else {
        var g := TokensSeparate(s[k..], delims);
        gaps := [[]] + g;
        assert gaps[1..] == g;
        assert Tokens(s, delims)[1..] == Tokens(s[k..], delims);
        assert [] + (s[..k] + s[k..]) == s;
      }
    }
  }

  lemma WidenGap(s: string, delims: set<char>, gaps: seq<string>, ts: seq<string>, d: char)
    requires Separates(s, delims, gaps, ts) && d in delims
    ensures Separates([d] + s, delims, [[d] + gaps[0]] + gaps[1..], ts)
  {
    var wide := [[d] + gaps[0]] + gaps[1..];
    assert Gap(gaps[0], delims);
    assert wide[1..] == gaps[1..];
    assert forall i :: 1 <= i < |wide| ==> wide[i] == gaps[i];
    if ts != [] {
      var rest := ts[0] + Interleave(gaps[1..], ts[1..]);
      assert [d] + (gaps[0] + rest) == ([d] + gaps[0]) + rest;
    }
  }

  // ---------- splitting what was joined ----------

  predicate TokenList(ts: seq<string>, delims: set<char>) {
    forall i :: 0 <= i < |ts| ==> ts[i] != [] && Free(ts[i], delims)
  }

  /** Tokens joined by one delimiter, as the encoders do it. */
  function Join(ts: seq<string>, d: char): string {
    if ts == [] then "" else if |ts| == 1 then ts[0] else ts[0] + [d] + Join(ts[1..], d)
  }

  lemma {:induction false} TokensOfJoin(ts: seq<string>, d: char)
    requires TokenList(ts, {d})
    ensures Tokens(Join(ts, d), {d}) == ts
  {
    if |ts| == 1 {
      TokenAlone(ts[0], {d});
    } else if ts != [] {
      TokenListTail(ts, {d});
      TokensOfJoin(ts[1..], d);
      TokenFirst(ts[0], d, Join(ts[1..], d), {d});
    }
  }

  lemma TokenListTail(ts: seq<string>, delims: set<char>)
    requires TokenList(ts, delims) && ts != []
    ensures ts[0] != [] && Free(ts[0], delims) && TokenList(ts[1..], delims)
  {
  }

  lemma ClosedStep(fields: seq<string>, body: string)
    requires fields != []
    ensures Closed(fields) + body == fields[0] + [';'] + (Closed(fields[1..]) + body)
  {
  }

  /** A header of nonempty fields is handed out field by field before the body is looked at. */
  lemma {:induction false} TokensOfClosed(fields: seq<string>, body: string)
    requires TokenList(fields, {';'})
    ensures Tokens(Closed(fields) + body, {';'}) == fields + Tokens(body, {';'})
  {
    var tail := Tokens(body, {';'});
    if fields == [] {
      assert Closed(fields) + body == body;
      assert [] + tail == tail;
    } else {
      TokenListTail(fields, {';'});
      TokensOfClosed(fields[1..], body);
      ClosedStep(fields, body);
      TokenFirst(fields[0], ';', Closed(fields[1..]) + body, {';'});
      ConsAppend(fields, tail);
    }
  }

  /** A message with a header: every field can be read off by position, and stripping the header
      gives the body back. */
  lemma HeaderRoundTrip(fields: seq<string>, body: string)
    requires TokenList(fields, {';'})
    ensures DropFields(Closed(fields) + body, |fields|) == body
    ensures forall k: nat {:trigger TokenAt(Tokens(Closed(fields) + body, {';'}), k)} :: k < |fields| ==>
              TokenAt(Tokens(Closed(fields) + body, {';'}), k) == fields[k]
  {
    DropHeader(fields, body);
    TokensOfClosed(fields, body);
  }

  lemma {:induction false} TokensNonEmpty(s: string, delims: set<char>)
    ensures TokenList(Tokens(s, delims), delims)
  {
    var gaps := TokensSeparate(s, delims);
  }

  /** Tokens hold only characters of the string. */
  lemma {:induction false} TokensFree(s: string, delims: set<char>, chars: set<char>)
    requires Free(s, chars)
    ensures forall i :: 0 <= i < |Tokens(s, delims)| ==> Free(Tokens(s, delims)[i], chars)
    decreases |s|
  {
    if s != [] {
      if s[0] in delims {
        TokensFree(s[1..], delims, chars);
      } else {
        var k := FindFirstOf(s, delims, 0);
        if k != NPOS {
          TokensFree(s[k..], delims, chars);
          assert Free(s[..k], chars);
        }
      }
    }
  }

  // ---------- handing tokens out ----------

  /** Token number k, or "" past the end. */
  function TokenAt(tokens: seq<string>, k: nat): string {
    if k < |tokens| then tokens[k] else ""
  }

  /** The tokens left when one has been asked for. */
  function After(tokens: seq<string>): seq<string> {
    if tokens == [] then [] else tokens[1..]
  }

  /** The tokens left when k have been asked for. */
  function Left(tokens: seq<string>, k: nat): seq<string> {
    if k <= |tokens| then tokens[k..] else []
  }

  lemma LeftAll(tokens: seq<string>)
    ensures Left(tokens, 0) == tokens
  {
  }

  lemma LeftNext(tokens: seq<string>, k: nat)
    ensures After(Left(tokens, k)) == Left(tokens, k + 1) && TokenAt(Left(tokens, k), 0) == TokenAt(tokens, k)
  {
  }

  // ---------- the class ----------

  class StringTokenizer {
    var tokenList: seq<string>
    var index: nat

    ghost predicate Valid()
      reads this
    {
      index <= |tokenList|
    }

    /** The tokens not handed out so far. */
    ghost function Rest(): seq<string>
      requires Valid()
      reads this
    {
      tokenList[index..]
    }

    constructor ()
      ensures Valid() && Rest() == []
    {
      tokenList := [];
      index := 0;
    }

    method Split(input: string, delims: set<char>)
      modifies this
      ensures Valid() && Rest() == tokenList == Tokens(input, delims)
    {
      tokenList := [];
      index := 0;
      var lastPos := FindFirstNotOf(input, delims, 0);
      var pos := FindFirstOf(input, delims, lastPos);
      assert input[0..] == input;
      SkipTo(input, delims, 0, lastPos);
      ghost var all := Tokens(input, delims);
      while pos != NPOS || lastPos != NPOS
        invariant NPOS <= lastPos < |input| && (lastPos != NPOS ==> input[lastPos] !in delims)
        invariant pos == FindFirstOf(input, delims, lastPos)
        invariant all == tokenList + TokensFrom(input, delims, lastPos)
        decreases if lastPos == NPOS then 0 else |input| - lastPos
        modifies this`tokenList
      {
        lastPos, pos := PushToken(input, delims, lastPos, pos);
      }
    }

    /** One turn of the loop: the token that starts at lastPos, and where the next one starts. */
    method PushToken(input: string, delims: set<char>, lastPos: int, pos: int) returns (lastPos': int, pos': int)
      requires 0 <= lastPos < |input| && input[lastPos] !in delims
      requires pos == FindFirstOf(input, delims, lastPos)
      modifies this`tokenList
      ensures NPOS <= lastPos' < |input| && (lastPos' != NPOS ==> lastPos < lastPos' && input[lastPos'] !in delims)
      ensures pos' == FindFirstOf(input, delims, lastPos')
      ensures tokenList + TokensFrom(input, delims, lastPos') == old(tokenList) + TokensFrom(input, delims, lastPos)
    {
      NextToken(input, delims, lastPos, pos);
      SnocAppend(tokenList, Substr(input, lastPos, pos), TokensFrom(input, delims, FindFirstNotOf(input, delims, pos)));
      tokenList := tokenList + [Substr(input, lastPos, pos)];
      lastPos' := FindFirstNotOf(input, delims, pos);
      pos' := FindFirstOf(input, delims, lastPos');
    }

    method GetSize() returns (n: nat)
      ensures n == |tokenList|
    {
      n := |tokenList|;
    }

    /** The next token, or "" when all have been handed out. */
    method GetNext() returns (token: string)
      requires Valid()
      modifies this`index
      ensures Valid()
      ensures token == TokenAt(old(Rest()), 0) && Rest() == After(old(Rest()))
    {
      if index != |tokenList| {
        token := tokenList[index];
        index := index + 1;
      } else {
        token := "";
      }
    }
  }

  function TokensFrom(s: string, delims: set<char>, from: int): seq<string>
    requires NPOS <= from <= |s|
  {
    if from == NPOS then [] else Tokens(s[from..], delims)
  }

  lemma NextToken(s: string, delims: set<char>, lastPos: nat, pos: int)
    requires lastPos < |s| && s[lastPos] !in delims && pos == FindFirstOf(s, delims, lastPos)
    ensures TokensFrom(s, delims, lastPos) ==
            [Substr(s, lastPos, pos)] + TokensFrom(s, delims, FindFirstNotOf(s, delims, pos))
    ensures FindFirstNotOf(s, delims, pos) == NPOS || lastPos < FindFirstNotOf(s, delims, pos)
  {
    TakeToken(s, delims, lastPos, pos);
    if pos != NPOS {
      SkipTo(s, delims, pos, FindFirstNotOf(s, delims, pos));
    }
  }

  lemma SkipTo(s: string, delims: set<char>, from: nat, to: int)
    requires from <= |s| && to == FindFirstNotOf(s, delims, from)
    ensures Tokens(s[from..], delims) == TokensFrom(s, delims, to)
  {
    var k := if to == NPOS then |s| else to;
    DropDelimiters(s[from..k], s[k..], delims);
    assert s[from..k] + s[k..] == s[from..];
  }

  lemma SliceSplit(s: string, i: nat, k: nat)
    requires i <= k < |s|
    ensures s[i..] == s[i..k] + [s[k]] + s[k + 1..] && s[k..] == [s[k]] + s[k + 1..]
  {
  }

  lemma TakeToken(s: string, delims: set<char>, lastPos: nat, pos: int)
    requires lastPos < |s| && s[lastPos] !in delims && pos == FindFirstOf(s, delims, lastPos)
    ensures Tokens(s[lastPos..], delims) ==
            [Substr(s, lastPos, pos)] + if pos == NPOS then [] else Tokens(s[pos..], delims)
  {
    var t := Substr(s, lastPos, pos);
    if pos == NPOS {
      TokenAlone(t, delims);
    } else {
      TokenFirst(t, s[pos], s[pos + 1..], delims);
      SliceSplit(s, lastPos, pos);
    }
  }
}
