/** The list of shared files a peer reports to the tracker: how it is packed, where the fixed
    buffer cuts it, and what the tracker reads out of it. */
module FileList {
  import opened Sequences
  import opened Text
  import opened Tokenizer

  /** sizeof the buffer each entry goes through: twice MD5_SIZE and MAX_FILENAME_SIZE. */
  const BUFFER: nat := 2 * 16 + 256

  datatype File = File(name: string, checksum: string)

  function FullEntry(f: File): string {
    f.name + ";" + f.checksum + ";"
  }

  /** snprintf into the buffer: one byte goes to the terminator. */
  function Buffered(f: File): string {
    if |FullEntry(f)| < BUFFER then FullEntry(f) else FullEntry(f)[..BUFFER - 1]
  }

  function Entries(files: seq<File>): string {
    if files == [] then "" else Entries(files[..|files| - 1]) + Buffered(files[|files| - 1])
  }

  /** The tracker's loop: names and checksums alternate until the tokens run out. */
  function PairsOf(tokens: seq<string>): seq<File> {
    if tokens == [] then []
    else [File(tokens[0], TokenAt(tokens[1..], 0))] + PairsOf(After(tokens[1..]))
  }

  predicate FileOk(f: File) {
    f.name != "" && Free(f.name, {';'}) && f.checksum != "" && Free(f.checksum, {';'})
  }

  predicate FilesOk(files: seq<File>) {
    forall i :: 0 <= i < |files| ==> FileOk(files[i])
  }

  predicate Whole(f: File) {
    |FullEntry(f)| < BUFFER
  }

  predicate AllWhole(files: seq<File>) {
    forall i :: 0 <= i < |files| ==> Whole(files[i])
  }

  /** Each entry fits the buffer, but the last may lose its closing ';'. */
  predicate Fits(files: seq<File>) {
    files == [] || (AllWhole(files[..|files| - 1]) && |FullEntry(files[|files| - 1])| <= BUFFER)
  }

  function Flat(files: seq<File>): seq<string> {
    if files == [] then [] else Flat(files[..|files| - 1]) + [files[|files| - 1].name, files[|files| - 1].checksum]
  }

  // ---------- tokens of whole entries ----------

  lemma {:induction false} EntryParts(f: File, rest: string)
    ensures FullEntry(f) + rest == f.name + [';'] + (f.checksum + [';'] + rest)
  {
  }

  lemma {:induction false} WholeTokens(f: File, rest: string)
    requires FileOk(f)
    ensures Tokens(FullEntry(f) + rest, {';'}) == [f.name, f.checksum] + Tokens(rest, {';'})
  {
    EntryParts(f, rest);
    TokenFirst(f.name, ';', f.checksum + [';'] + rest, {';'});
    TokenFirst(f.checksum, ';', rest, {';'});
    TwoFirst(f.name, f.checksum, Tokens(rest, {';'}));
  }

  lemma {:induction false} WholeEntriesTokens(files: seq<File>, rest: string)
    requires FilesOk(files) && AllWhole(files)
    ensures Tokens(Entries(files) + rest, {';'}) == Flat(files) + Tokens(rest, {';'})
    decreases |files|
  {
    if files == [] {
      assert Entries(files) + rest == rest;
    } else {
      var init, f := files[..|files| - 1], files[|files| - 1];
      assert Whole(f) && FileOk(f);
      WholeEntriesTokens(init, FullEntry(f) + rest);
      WholeTokens(f, rest);
      assert Entries(files) + rest == Entries(init) + (FullEntry(f) + rest);
      Associate(Flat(init), [f.name, f.checksum], Tokens(rest, {';'}));
    }
  }

  lemma {:induction false} FlatStep(files: seq<File>, tokens: seq<string>)
    requires files != []
    ensures
      var f := files[|files| - 1];
      Flat(files) + tokens == Flat(files[..|files| - 1]) + ([f.name, f.checksum] + tokens)
  {
    var f := files[|files| - 1];
    Associate(Flat(files[..|files| - 1]), [f.name, f.checksum], tokens);
  }

  lemma {:induction false} PairsOfFlat(files: seq<File>, tokens: seq<string>)
    ensures PairsOf(Flat(files) + tokens) == files + PairsOf(tokens)
    decreases |files|
  {
    if files == [] {
      assert Flat(files) + tokens == tokens;
    } else {
      var init, f := files[..|files| - 1], files[|files| - 1];
      PairsOfFlat(init, [f.name, f.checksum] + tokens);
      FlatStep(files, tokens);
      PairsOfPair(f, tokens);
      LastApart(files, PairsOf(tokens));
    }
  }

  lemma {:induction false} PairsOfPair(f: File, tokens: seq<string>)
    ensures PairsOf([f.name, f.checksum] + tokens) == [f] + PairsOf(tokens)
  {
    var all := [f.name, f.checksum] + tokens;
    assert all[1..] == [f.checksum] + tokens;
    assert After(all[1..]) == tokens;
  }

  // ---------- counting separators ----------

  function Separators(s: string): nat {
    if s == "" then 0 else Separators(s[1..]) + if s[0] == ';' then 1 else 0
  }

  /** 1 for a text that does not end in a separator. */
  function Open(s: string): nat {
    if s == "" || s[|s| - 1] == ';' then 0 else 1
  }

  lemma {:induction false} SeparatorsConcat(s: string, t: string)
    ensures Separators(s + t) == Separators(s) + Separators(t)
  {
    if s == "" {
      assert s + t == t;
    } else {
      assert (s + t)[1..] == s[1..] + t;
      SeparatorsConcat(s[1..], t);
    }
  }

  lemma {:induction false} FreeHasNone(s: string)
    requires Free(s, {';'})
    ensures Separators(s) == 0
  {
    if s != "" {
      FreeHasNone(s[1..]);
    }
  }

  /** There are no more tokens than separators, but for one without a separator behind it. */
  lemma {:induction false} TokensPerSeparator(s: string)
    ensures |Tokens(s, {';'})| <= Separators(s) + Open(s)
    decreases |s|
  {
    if s != "" {
      var k := FindFirstOf(s, {';'}, 0);
      if k == NPOS {
        if s[0] != ';' {
          TokenAlone(s, {';'});
        }
      } else {
        TokensPerSeparator(s[k + 1..]);
        CountField(s, k);
      }
    }
  }

  lemma {:induction false} CutAt(s: string, k: nat)
    requires k < |s| && s[k] == ';'
    ensures s == s[..k] + [';'] + s[k + 1..] && s == s[..k] + ([';'] + s[k + 1..])
    ensures ([';'] + s[k + 1..])[1..] == s[k + 1..]
    ensures Open(s) == Open(s[k + 1..])
  {
  }

  lemma {:induction false} CountField(s: string, k: nat)
    requires s != "" && k == FindFirstOf(s, {';'}, 0)
    ensures |Tokens(s, {';'})| <= 1 + |Tokens(s[k + 1..], {';'})|
    ensures Separators(s) == Separators(s[..k]) + 1 + Separators(s[k + 1..])
    ensures Open(s) == Open(s[k + 1..])
  {
    CutAt(s, k);
    SeparatorsConcat(s[..k], [';'] + s[k + 1..]);
    TokensConcat(s[..k], ';', s[k + 1..], {';'});
    AtMostOne(s[..k]);
  }

  lemma {:induction false} AtMostOne(t: string)
    requires Free(t, {';'})
    ensures |Tokens(t, {';'})| <= 1
  {
    if t != "" {
      TokenAlone(t, {';'});
    }
  }

  lemma {:induction false} EntrySeparators(f: File)
    requires FileOk(f)
    ensures if Whole(f) then Separators(Buffered(f)) == 2 && Open(Buffered(f)) == 0 else Separators(Buffered(f)) <= 1
    ensures Buffered(f) != ""
  {
    FreeHasNone(f.name);
    FreeHasNone(f.checksum);
    var head := f.name + ";" + f.checksum;
    SeparatorsConcat(f.name + ";", f.checksum);
    SeparatorsConcat(f.name, ";");
    SeparatorsConcat(head, ";");
    if !Whole(f) {
      SeparatorsConcat(Buffered(f), FullEntry(f)[BUFFER - 1..]);
      assert Buffered(f) + FullEntry(f)[BUFFER - 1..] == FullEntry(f);
      var tail := FullEntry(f)[BUFFER - 1..];
      SeparatorsConcat(tail[..|tail| - 1], ";");
      assert tail == tail[..|tail| - 1] + ";";
    }
  }

  function Cut(files: seq<File>): nat {
    if files == [] then 0 else Cut(files[..|files| - 1]) + if Whole(files[|files| - 1]) then 0 else 1
  }

  lemma {:induction false} CutNone(files: seq<File>)
    ensures Cut(files) == 0 <==> AllWhole(files)
    decreases |files|
  {
    if files != [] {
      CutNone(files[..|files| - 1]);
    }
  }

  lemma {:induction false} EntriesSeparators(files: seq<File>)
    requires FilesOk(files)
    ensures Separators(Entries(files)) + Cut(files) <= 2 * |files|
    ensures files != [] && Whole(files[|files| - 1]) ==> Open(Entries(files)) == 0
    decreases |files|
  {
    if files != [] {
      var init, f := files[..|files| - 1], files[|files| - 1];
      EntriesSeparators(init);
      EntrySeparators(f);
      SeparatorsConcat(Entries(init), Buffered(f));
    }
  }

  // ---------- when the report survives ----------

  lemma {:induction false} PairsCount(tokens: seq<string>)
    requires FilesOk(PairsOf(tokens))
    ensures |tokens| == 2 * |PairsOf(tokens)|
    decreases |tokens|
  {
    if tokens != [] {
      assert FileOk(PairsOf(tokens)[0]);
      var rest := PairsOf(After(tokens[1..]));
      assert FilesOk(rest) by {
        assert forall i :: 0 <= i < |rest| ==> rest[i] == PairsOf(tokens)[i + 1];
      }
      PairsCount(After(tokens[1..]));
    }
  }

  /** An entry too long for the buffer reads as a different file, even at the end. */
  lemma {:induction false} CutEntryDiffers(f: File)
    requires FileOk(f) && |FullEntry(f)| > BUFFER
    ensures PairsOf(Tokens(Buffered(f), {';'})) != [f]
  {
    var e := Buffered(f);
    var n := |f.name|;
    if n >= BUFFER - 1 {
      assert e == f.name[..BUFFER - 1];
      TokenAlone(e, {';'});
      assert PairsOf([e])[0].checksum == "";
    } else {
      var cut := f.checksum[..BUFFER - 2 - n];
      assert e == f.name + [';'] + cut;
      TokenFirst(f.name, ';', cut, {';'});
      if cut == "" {
        assert PairsOf([f.name])[0].checksum == "";
      } else {
        TokenAlone(cut, {';'});
        assert PairsOf([f.name, cut])[0].checksum == cut;
        assert |cut| < |f.checksum|;
      }
    }
  }

  /** The tracker reads exactly the reported files if and only if every entry fits the buffer:
      with checksums of 32 characters, names of at most 253 characters, and 254 for the last. */
  lemma {:induction false} ReportDecodesIff(files: seq<File>)
    requires FilesOk(files)
    ensures PairsOf(Tokens(Entries(files), {';'})) == files <==> Fits(files)
  {
    if files != [] {
      var init, f := files[..|files| - 1], files[|files| - 1];
      assert FileOk(f) && FilesOk(init);
      CutNone(init);
      if AllWhole(init) {
        LastDecides(files);
      } else if PairsOf(Tokens(Entries(files), {';'})) == files {
        PairsCount(Tokens(Entries(files), {';'}));
        TokensPerSeparator(Entries(files));
        EntriesSeparators(files);
        assert false;
      }
    }
  }

  /** With checksums of 32 characters, as MD5 has: if and only if all names but the last have at most 253 characters
      and the last at most 254. */
  lemma {:induction false} NamesFitIff(files: seq<File>)
    requires FilesOk(files) && forall i :: 0 <= i < |files| ==> |files[i].checksum| == 32
    ensures PairsOf(Tokens(Entries(files), {';'})) == files <==>
            forall i :: 0 <= i < |files| ==> |files[i].name| <= if i < |files| - 1 then 253 else 254
  {
    ReportDecodesIff(files);
    assert forall i :: 0 <= i < |files| ==> |FullEntry(files[i])| == |files[i].name| + 34;
    if files != [] {
      assert forall i :: 0 <= i < |files| - 1 ==> (Whole(files[i]) <==> |files[i].name| <= 253);
      assert forall i :: 0 <= i < |files| - 1 ==> files[..|files| - 1][i] == files[i];
    }
  }

  lemma {:induction false} LastMayLoseSeparator(f: File)
    requires FileOk(f) && |FullEntry(f)| <= BUFFER
    ensures PairsOf(Tokens(Buffered(f), {';'})) == [f]
  {
    var none: seq<string> := [];
    PairsOfPair(f, none);
    assert [f.name, f.checksum] + none == [f.name, f.checksum];
    if Whole(f) {
      WholeTokens(f, "");
      assert FullEntry(f) + "" == FullEntry(f);
    } else {
      assert Buffered(f) == f.name + [';'] + f.checksum;
      TokenFirst(f.name, ';', f.checksum, {';'});
      TokenAlone(f.checksum, {';'});
    }
  }

  lemma {:induction false} LastDecides(files: seq<File>)
    requires FilesOk(files) && files != [] && AllWhole(files[..|files| - 1])
    ensures PairsOf(Tokens(Entries(files), {';'})) == files <==> |FullEntry(files[|files| - 1])| <= BUFFER
  {
    var init, f := files[..|files| - 1], files[|files| - 1];
    ReadAfterWhole(files);
    SplitLast(files);
    assert FileOk(f);
    if |FullEntry(f)| <= BUFFER {
      LastMayLoseSeparator(f);
    } else {
      CutEntryDiffers(f);
      if PairsOf(Tokens(Entries(files), {';'})) == files {
        Cancel(init, PairsOf(Tokens(Buffered(f), {';'})), [f]);
      }
    }
  }

  lemma {:induction false} ReadAfterWhole(files: seq<File>)
    requires FilesOk(files) && files != [] && AllWhole(files[..|files| - 1])
    ensures PairsOf(Tokens(Entries(files), {';'})) ==
            files[..|files| - 1] + PairsOf(Tokens(Buffered(files[|files| - 1]), {';'}))
  {
    var init, f := files[..|files| - 1], files[|files| - 1];
    WholeEntriesTokens(init, Buffered(f));
    PairsOfFlat(init, Tokens(Buffered(f), {';'}));
  }
}
