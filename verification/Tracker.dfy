/** The tracker: which client shares which file, over any run of reports and look-ups. */
module Tracker {
  import opened Sequences
  import opened Text
  import opened Tokenizer
  import opened FileList
  import opened Routing

  datatype Option<T> = None | Some(value: T)

  // ---------- the registered clients ----------

  /** What a client is known by. */
  datatype Key = Key(id: int, host: string, port: int)

  datatype ClientInfo = ClientInfo(key: Key, files: seq<File>)

  /** One UPDATELIST message. */
  datatype Report = Report(key: Key, files: seq<File>)

  /** The position of the client with this key, or the length of the list. */
  function IndexOfKey(list: seq<ClientInfo>, key: Key): (k: nat)
    ensures k <= |list|
    ensures k < |list| ==> list[k].key == key
    ensures forall i :: 0 <= i < k ==> list[i].key != key
  {
    if list == [] then 0 else if list[0].key == key then 0 else 1 + IndexOfKey(list[1..], key)
  }

  /** Files are only ever appended; an unknown client is added at the end first. */
  function Updated(list: seq<ClientInfo>, r: Report): seq<ClientInfo> {
    var k := IndexOfKey(list, r.key);
    if k == |list| then list + [ClientInfo(r.key, r.files)]
    else Appended(list, k, r.files)
  }

  function Appended(list: seq<ClientInfo>, k: nat, files: seq<File>): seq<ClientInfo>
    requires k < |list|
  {
    list[k := ClientInfo(list[k].key, list[k].files + files)]
  }

  lemma AppendedTwice(list: seq<ClientInfo>, k: nat, s: seq<File>, t: seq<File>)
    requires k < |list|
    ensures Appended(Appended(list, k, s), k, t) == Appended(list, k, s + t)
    ensures Appended(list, k, []) == list
  {
    assert (list[k].files + s) + t == list[k].files + (s + t);
    assert list[k].files + [] == list[k].files;
  }

  predicate FileMatch(files: seq<File>, filename: string) {
    exists i :: 0 <= i < |files| && files[i].name == filename
  }

  // ---------- the answer to a look-up ----------

  function Holders(list: seq<ClientInfo>, filename: string): seq<ServerInfo> {
    if list == [] then []
    else
      var c := list[|list| - 1];
      Holders(list[..|list| - 1], filename) +
      if FileMatch(c.files, filename) then [ServerInfo(c.key.host, c.key.id)] else []
  }

  function Fields(nodes: seq<ServerInfo>): seq<string> {
    if nodes == [] then []
    else Fields(nodes[..|nodes| - 1]) + [IntText(nodes[|nodes| - 1].id), nodes[|nodes| - 1].addr]
  }

  /** Every field closed by ';' but the last, or EMPTY. */
  function ReplyFor(nodes: seq<ServerInfo>): string {
    var body := Closed(Fields(nodes));
    if body == "" then "EMPTY" else body[..|body| - 1]
  }

  /** LoadServerInfo on the tokens: an id that is no number throws. */
  function Decode(tokens: seq<string>): Option<seq<ServerInfo>> {
    if tokens == [] then Some([])
    else if !HasNumber(tokens[0]) then None
    else
      match Decode(After(tokens[1..]))
      case None => None
      case Some(rest) => Some([ServerInfo(TokenAt(tokens[1..], 0), Atoi(tokens[0]))] + rest)
  }

  predicate HostsOk(nodes: seq<ServerInfo>) {
    forall i :: 0 <= i < |nodes| ==> nodes[i].addr != "" && Free(nodes[i].addr, {';'})
  }

  lemma ClosedPair(fields: seq<string>, a: string, b: string)
    ensures Closed(fields + [a, b]) == Closed(fields) + a + ";" + b + ";"
  {
    ClosedAppend(fields, a);
    ClosedAppend(fields + [a], b);
    assert fields + [a, b] == (fields + [a]) + [b];
  }

  lemma {:induction false} FieldsAreTokens(nodes: seq<ServerInfo>)
    requires HostsOk(nodes)
    ensures TokenList(Fields(nodes), {';'}) && (nodes != [] ==> Closed(Fields(nodes)) != "")
    decreases |nodes|
  {
    if nodes != [] {
      FieldsAreTokens(nodes[..|nodes| - 1]);
      TextFree(nodes[|nodes| - 1].id);
      ClosedPair(Fields(nodes[..|nodes| - 1]), IntText(nodes[|nodes| - 1].id), nodes[|nodes| - 1].addr);
    }
  }

  lemma {:induction false} DecodeFields(nodes: seq<ServerInfo>, tokens: seq<string>)
    requires Decode(tokens).Some?
    ensures Decode(Fields(nodes) + tokens) == Some(nodes + Decode(tokens).value)
    decreases |nodes|
  {
    if nodes == [] {
      assert Fields(nodes) + tokens == tokens;
      assert nodes + Decode(tokens).value == Decode(tokens).value;
    } else {
      var init, x := nodes[..|nodes| - 1], nodes[|nodes| - 1];
      DecodePair(x, tokens);
      DecodeFields(init, [IntText(x.id), x.addr] + tokens);
      Associate(Fields(init), [IntText(x.id), x.addr], tokens);
      LastApart(nodes, Decode(tokens).value);
    }
  }

  lemma DecodePair(x: ServerInfo, tokens: seq<string>)
    requires Decode(tokens).Some?
    ensures Decode([IntText(x.id), x.addr] + tokens) == Some([x] + Decode(tokens).value)
  {
    AtoiText(x.id);
    var all := [IntText(x.id), x.addr] + tokens;
    assert all[1..] == [x.addr] + tokens;
    assert After(all[1..]) == tokens;
  }

  /** The client reads off a reply exactly the nodes it was made for; EMPTY means none. */
  lemma ReplyRoundTrip(nodes: seq<ServerInfo>)
    requires HostsOk(nodes)
    ensures ReplyFor(nodes) == "EMPTY" <==> nodes == []
    ensures nodes != [] ==> Decode(Tokens(ReplyFor(nodes), {';'})) == Some(nodes)
  {
    FieldsAreTokens(nodes);
    if nodes != [] {
      ReplyTokens(nodes);
      var none: seq<string> := [];
      DecodeFields(nodes, none);
      assert Fields(nodes) + none == Fields(nodes) && nodes + [] == nodes;
      EmptyIsNoList();
    }
  }

  lemma {:induction false} ClosedEnds(fields: seq<string>)
    requires fields != []
    ensures Closed(fields) != "" && Closed(fields)[|Closed(fields)| - 1] == ';'
  {
    if |fields| > 1 {
      ClosedEnds(fields[1..]);
    } else {
      assert Closed(fields[1..]) == "";
    }
  }

  lemma ReplyTokens(nodes: seq<ServerInfo>)
    requires HostsOk(nodes) && nodes != []
    ensures Tokens(ReplyFor(nodes), {';'}) == Fields(nodes)
  {
    FieldsAreTokens(nodes);
    var body, reply := Closed(Fields(nodes)), ReplyFor(nodes);
    ClosedEnds(Fields(nodes));
    assert body == reply + [';'] + "";
    assert body + "" == body;
    TokensConcat(reply, ';', "", {';'});
    TokensOfClosed(Fields(nodes), "");
    assert Tokens("", {';'}) == [];
    assert Fields(nodes) + [] == Fields(nodes) && Tokens(reply, {';'}) + [] == Tokens(reply, {';'});
  }

  /** Ids and addresses alternate in it. */
  lemma {:induction false} ReplyAlternates(nodes: seq<ServerInfo>, k: nat)
    requires HostsOk(nodes) && k < |nodes|
    ensures
      var tokens := Tokens(ReplyFor(nodes), {';'});
      |tokens| == 2 * |nodes| && tokens[2 * k] == IntText(nodes[k].id) && tokens[2 * k + 1] == nodes[k].addr
  {
    ReplyTokens(nodes);
    FieldsAt(nodes, k);
  }

  lemma {:induction false} FieldsLength(nodes: seq<ServerInfo>)
    ensures |Fields(nodes)| == 2 * |nodes|
    decreases |nodes|
  {
    if nodes != [] {
      FieldsLength(nodes[..|nodes| - 1]);
    }
  }

  lemma {:induction false} FieldsAt(nodes: seq<ServerInfo>, k: nat)
    requires k < |nodes|
    ensures |Fields(nodes)| == 2 * |nodes|
    ensures Fields(nodes)[2 * k] == IntText(nodes[k].id) && Fields(nodes)[2 * k + 1] == nodes[k].addr
    decreases |nodes|
  {
    var n := |nodes| - 1;
    FieldsLength(nodes);
    FieldsLength(nodes[..n]);
    if k < n {
      FieldsAt(nodes[..n], k);
    }
    PairBehind(Fields(nodes[..n]), IntText(nodes[n].id), nodes[n].addr, k);
  }

  lemma PairBehind(fields: seq<string>, x: string, y: string, k: nat)
    ensures 2 * k + 1 < |fields| ==>
              (fields + [x, y])[2 * k] == fields[2 * k] && (fields + [x, y])[2 * k + 1] == fields[2 * k + 1]
    ensures 2 * k == |fields| ==> (fields + [x, y])[2 * k] == x && (fields + [x, y])[2 * k + 1] == y
  {
  }

  /** The reply to a look-up that found nothing is not a list of nodes: LoadServerInfo throws on it. */
  lemma EmptyIsNoList()
    ensures Decode(Tokens("EMPTY", {';'})) == None
  {
    TokenAlone("EMPTY", {';'});
  }

  // ---------- what the list says about the past ----------

  function ListAfter(reports: seq<Report>): seq<ClientInfo> {
    if reports == [] then [] else Updated(ListAfter(reports[..|reports| - 1]), reports[|reports| - 1])
  }

  /** The keys that ever reported, in the order of their first report. */
  function Keys(reports: seq<Report>): seq<Key> {
    if reports == [] then []
    else
      var before, key := Keys(reports[..|reports| - 1]), reports[|reports| - 1].key;
      if key in before then before else before + [key]
  }

  /** Everything key ever reported, one report after the other. */
  function FilesOf(reports: seq<Report>, key: Key): seq<File> {
    if reports == [] then []
    else
      FilesOf(reports[..|reports| - 1], key) +
      if reports[|reports| - 1].key == key then reports[|reports| - 1].files else []
  }

  predicate Reported(r: Report, key: Key, filename: string) {
    r.key == key && FileMatch(r.files, filename)
  }

  predicate EverReported(reports: seq<Report>, key: Key, filename: string) {
    exists i :: 0 <= i < |reports| && Reported(reports[i], key, filename)
  }

  /** Of the given keys, those that ever reported filename. */
  function Reporters(keys: seq<Key>, reports: seq<Report>, filename: string): seq<Key> {
    if keys == [] then []
    else
      Reporters(keys[..|keys| - 1], reports, filename) +
      if EverReported(reports, keys[|keys| - 1], filename) then [keys[|keys| - 1]] else []
  }

  /** What a look-up says about clients: their hosts and ids. */
  function NodesOf(keys: seq<Key>): (nodes: seq<ServerInfo>)
    ensures |nodes| == |keys|
    ensures forall i :: 0 <= i < |keys| ==> nodes[i] == ServerInfo(keys[i].host, keys[i].id)
  {
    seq(|keys|, i requires 0 <= i < |keys| => ServerInfo(keys[i].host, keys[i].id))
  }

  ghost predicate Registered(list: seq<ClientInfo>, keys: seq<Key>, reports: seq<Report>) {
    |list| == |keys| && forall i :: 0 <= i < |list| ==> list[i] == ClientInfo(keys[i], FilesOf(reports, keys[i]))
  }

  lemma {:induction false} KeysNoRepeats(reports: seq<Report>)
    ensures NoRepeats(Keys(reports))
    decreases |reports|
  {
    if reports != [] {
      KeysNoRepeats(reports[..|reports| - 1]);
    }
  }

  /** No (id, host, port) is registered twice, whatever reports come in. */
  lemma {:induction false} ListKeysDistinct(reports: seq<Report>)
    ensures forall i, j :: 0 <= i < j < |ListAfter(reports)| ==> ListAfter(reports)[i].key != ListAfter(reports)[j].key
    decreases |reports|
  {
    if reports != [] {
      ListKeysDistinct(reports[..|reports| - 1]);
    }
  }

  lemma {:induction false} StrangerHasNoFiles(reports: seq<Report>, key: Key)
    requires key !in Keys(reports)
    ensures FilesOf(reports, key) == []
    decreases |reports|
  {
    if reports != [] {
      var init, k := reports[..|reports| - 1], reports[|reports| - 1].key;
      if k !in Keys(init) {
        assert Keys(reports)[|Keys(init)|] == k;
      }
      assert forall x :: x in Keys(init) ==> x in Keys(reports);
      StrangerHasNoFiles(init, key);
    }
  }

  /** The list is the record of the past: every key once, in the order of first reports, with all
      the files it ever reported. */
  lemma {:induction false} ListRecordsPast(reports: seq<Report>)
    ensures Registered(ListAfter(reports), Keys(reports), reports)
    decreases |reports|
  {
    if reports != [] {
      var init, r := reports[..|reports| - 1], reports[|reports| - 1];
      ListRecordsPast(init);
      KeysNoRepeats(init);
      UpdateRecords(ListAfter(init), init, reports, r);
    }
  }

  lemma UpdateRecords(list: seq<ClientInfo>, init: seq<Report>, reports: seq<Report>, r: Report)
    requires Registered(list, Keys(init), init) && NoRepeats(Keys(init)) && reports == init + [r]
    ensures Registered(Updated(list, r), Keys(reports), reports)
  {
    var keys := Keys(init);
    assert reports[..|reports| - 1] == init;
    var k := IndexOfKey(list, r.key);
    if k == |list| {
      assert r.key !in keys by {
        assert forall i :: 0 <= i < |keys| ==> keys[i] == list[i].key;
      }
      StrangerHasNoFiles(init, r.key);
      assert Keys(reports) == keys + [r.key];
    } else {
      assert keys[k] == list[k].key;
      assert Keys(reports) == keys;
    }
  }

  lemma {:induction false} EverReportedIff(reports: seq<Report>, key: Key, filename: string)
    ensures FileMatch(FilesOf(reports, key), filename) <==> EverReported(reports, key, filename)
    decreases |reports|
  {
    if reports != [] {
      var n := |reports| - 1;
      var init, r := reports[..n], reports[n];
      EverReportedIff(init, key, filename);
      MatchConcat(FilesOf(init, key), if r.key == key then r.files else [], filename);
      EverReportedStep(reports, key, filename);
    }
  }

  lemma MatchConcat(s: seq<File>, t: seq<File>, filename: string)
    ensures FileMatch(s + t, filename) <==> FileMatch(s, filename) || FileMatch(t, filename)
  {
    if FileMatch(s, filename) {
      var i :| 0 <= i < |s| && s[i].name == filename;
      assert (s + t)[i].name == filename;
    }
    if FileMatch(t, filename) {
      var i :| 0 <= i < |t| && t[i].name == filename;
      assert (s + t)[|s| + i].name == filename;
    }
  }

  lemma EverReportedStep(reports: seq<Report>, key: Key, filename: string)
    requires reports != []
    ensures EverReported(reports, key, filename) <==>
            EverReported(reports[..|reports| - 1], key, filename) || Reported(reports[|reports| - 1], key, filename)
  {
    var init := reports[..|reports| - 1];
    if EverReported(init, key, filename) {
      var i :| 0 <= i < |init| && Reported(init[i], key, filename);
      assert Reported(reports[i], key, filename);
    }
    if i :| 0 <= i < |reports| && Reported(reports[i], key, filename) {
      assert i < |init| ==> Reported(init[i], key, filename);
    }
  }

  lemma {:induction false} HoldersAreReporters(list: seq<ClientInfo>, keys: seq<Key>, reports: seq<Report>,
                                               filename: string)
    requires Registered(list, keys, reports)
    ensures Holders(list, filename) == NodesOf(Reporters(keys, reports, filename))
    decreases |list|
  {
    if list != [] {
      var n := |list| - 1;
      HoldersAreReporters(list[..n], keys[..n], reports, filename);
      EverReportedIff(reports, keys[n], filename);
    }
  }

  lemma {:induction false} KeysIff(reports: seq<Report>, key: Key)
    ensures key in Keys(reports) <==> exists i :: 0 <= i < |reports| && reports[i].key == key
    decreases |reports|
  {
    if reports != [] {
      var n := |reports| - 1;
      KeysIff(reports[..n], key);
      assert forall i :: 0 <= i < n ==> reports[..n][i] == reports[i];
    }
  }

  /** x has reported before the first report of y. */
  ghost predicate Earlier(reports: seq<Report>, x: Key, y: Key) {
    exists i :: 0 <= i < |reports| && reports[i].key == x && forall h :: 0 <= h <= i ==> reports[h].key != y
  }

  ghost predicate InOrder(keys: seq<Key>, reports: seq<Report>) {
    forall a, b :: 0 <= a < b < |keys| ==> Earlier(reports, keys[a], keys[b])
  }

  lemma EarlierGrows(reports: seq<Report>, r: Report, x: Key, y: Key)
    requires Earlier(reports, x, y)
    ensures Earlier(reports + [r], x, y)
  {
    var i :| 0 <= i < |reports| && reports[i].key == x && forall h :: 0 <= h <= i ==> reports[h].key != y;
    assert (reports + [r])[i].key == x;
  }

  lemma NewComesLater(reports: seq<Report>, r: Report, x: Key)
    requires x in Keys(reports) && r.key !in Keys(reports)
    ensures Earlier(reports + [r], x, r.key)
  {
    KeysIff(reports, x);
    KeysIff(reports, r.key);
    var i :| 0 <= i < |reports| && reports[i].key == x;
    assert (reports + [r])[i].key == x;
  }

  lemma {:induction false} KeysInOrder(reports: seq<Report>)
    ensures InOrder(Keys(reports), reports)
    decreases |reports|
  {
    if reports != [] {
      var init, r := reports[..|reports| - 1], reports[|reports| - 1];
      KeysInOrder(init);
      assert reports == init + [r];
      var keys := Keys(reports);
      forall a, b | 0 <= a < b < |keys|
        ensures Earlier(reports, keys[a], keys[b])
      {
        if b < |Keys(init)| {
          EarlierGrows(init, r, keys[a], keys[b]);
        } else {
          NewComesLater(init, r, keys[a]);
        }
      }
    }
  }

  lemma {:induction false} ReportersFrom(keys: seq<Key>, reports: seq<Report>, filename: string)
    ensures forall key :: key in Reporters(keys, reports, filename) <==>
              key in keys && EverReported(reports, key, filename)
    decreases |keys|
  {
    if keys != [] {
      ReportersFrom(keys[..|keys| - 1], reports, filename);
      assert keys == keys[..|keys| - 1] + [keys[|keys| - 1]];
    }
  }

  lemma {:induction false} ReportersInOrder(keys: seq<Key>, reports: seq<Report>, filename: string)
    requires InOrder(keys, reports)
    ensures InOrder(Reporters(keys, reports, filename), reports)
    decreases |keys|
  {
    if keys != [] {
      var n := |keys| - 1;
      ReportersInOrder(keys[..n], reports, filename);
      ReportersFrom(keys[..n], reports, filename);
      var before := Reporters(keys[..n], reports, filename);
      forall a | 0 <= a < |before|
        ensures Earlier(reports, before[a], keys[n])
      {
        assert before[a] in keys[..n];
      }
    }
  }

  lemma {:induction false} InOrderNoRepeats(keys: seq<Key>, reports: seq<Report>)
    requires InOrder(keys, reports)
    ensures NoRepeats(keys)
  {
    forall a, b | 0 <= a < b < |keys|
      ensures keys[a] != keys[b]
    {
      assert Earlier(reports, keys[a], keys[b]);
    }
  }

  lemma {:induction false} EverReportedFile(reports: seq<Report>, key: Key, filename: string)
    ensures EverReported(reports, key, filename) <==>
            exists i, j :: 0 <= i < |reports| && 0 <= j < |reports[i].files|
                           && reports[i].key == key && reports[i].files[j].name == filename
  {
    if i, j :| 0 <= i < |reports| && 0 <= j < |reports[i].files|
               && reports[i].key == key && reports[i].files[j].name == filename {
      assert Reported(reports[i], key, filename);
    }
  }

  predicate HostOk(key: Key) {
    key.host != "" && Free(key.host, {';'})
  }

  lemma {:induction false} ReportersHosts(keys: seq<Key>, reports: seq<Report>)
    requires forall i :: 0 <= i < |reports| ==> HostOk(reports[i].key)
    requires forall k :: 0 <= k < |keys| ==> keys[k] in Keys(reports)
    ensures HostsOk(NodesOf(keys))
  {
    forall k | 0 <= k < |keys|
      ensures HostOk(keys[k])
    {
      KeysIff(reports, keys[k]);
    }
  }

  /** The keys under which a file of that name was ever reported, each once, in the order of first reports. */
  ghost predicate Sharers(keys: seq<Key>, reports: seq<Report>, filename: string) {
    && NoRepeats(keys) && InOrder(keys, reports)
    && forall key :: key in keys <==>
         exists i, j :: 0 <= i < |reports| && 0 <= j < |reports[i].files|
                        && reports[i].key == key && reports[i].files[j].name == filename
  }

  lemma {:induction false} FindSharers(reports: seq<Report>, filename: string) returns (keys: seq<Key>)
    requires forall i :: 0 <= i < |reports| ==> HostOk(reports[i].key)
    ensures Holders(ListAfter(reports), filename) == NodesOf(keys) && HostsOk(NodesOf(keys))
    ensures Sharers(keys, reports, filename)
  {
    keys := Reporters(Keys(reports), reports, filename);
    ListRecordsPast(reports);
    HoldersAreReporters(ListAfter(reports), Keys(reports), reports, filename);
    ReportersFrom(Keys(reports), reports, filename);
    ReportersHosts(keys, reports);
    KeysInOrder(reports);
    ReportersInOrder(Keys(reports), reports, filename);
    InOrderNoRepeats(keys, reports);
    ReportersExactly(reports, filename, keys);
  }

  /** Over any run of reports, the reply to a look-up is read by the client as the hosts and ids of exactly the
      clients that ever reported a file of that name, each once and in the order of their first reports;
      it is EMPTY for none. */
  lemma {:induction false} FindReadsThePast(reports: seq<Report>, filename: string) returns (keys: seq<Key>)
    requires forall i :: 0 <= i < |reports| ==> HostOk(reports[i].key)
    ensures
      var reply := ReplyFor(Holders(ListAfter(reports), filename));
      && (reply == "EMPTY" <==> keys == [])
      && (keys != [] ==> Decode(Tokens(reply, {';'})) == Some(NodesOf(keys)))
    ensures forall key :: key in keys <==>
              exists i, j :: 0 <= i < |reports| && 0 <= j < |reports[i].files|
                             && reports[i].key == key && reports[i].files[j].name == filename
    ensures NoRepeats(keys)
    ensures forall a, b :: 0 <= a < b < |keys| ==>
              exists i :: 0 <= i < |reports| && reports[i].key == keys[a]
                          && forall h :: 0 <= h <= i ==> reports[h].key != keys[b]
  {
    keys := FindSharers(reports, filename);
    ReplyRoundTrip(NodesOf(keys));
    assert forall a, b :: 0 <= a < b < |keys| ==> Earlier(reports, keys[a], keys[b]);
  }

  lemma {:induction false} ReportersExactly(reports: seq<Report>, filename: string, keys: seq<Key>)
    requires keys == Reporters(Keys(reports), reports, filename)
    ensures forall key :: key in keys <==>
              exists i, j :: 0 <= i < |reports| && 0 <= j < |reports[i].files|
                             && reports[i].key == key && reports[i].files[j].name == filename
  {
    ReportersFrom(Keys(reports), reports, filename);
    forall key
      ensures key in keys <==>
              exists i, j :: 0 <= i < |reports| && 0 <= j < |reports[i].files|
                             && reports[i].key == key && reports[i].files[j].name == filename
    {
      KeysIff(reports, key);
      EverReportedFile(reports, key, filename);
    }
  }

  // ---------- the messages ----------

  function UpdateMessage(r: Report): string {
    Closed(["UPDATELIST", r.key.host, IntText(r.key.port), IntText(r.key.id)]) + Entries(r.files)
  }

  function FindMessage(host: string, port: int, filename: string): string {
    Closed(["FIND", host, IntText(port)]) + filename
  }

  function ParseReport(tokens: seq<string>): Report {
    Report(Key(Atoi(TokenAt(tokens, 3)), TokenAt(tokens, 1), Atoi(TokenAt(tokens, 2))), PairsOf(Left(tokens, 4)))
  }

  /** The header of a report reads as it was sent, and its entries as the buffer left them. */
  lemma {:induction false} UpdateIsRead(r: Report)
    requires HostOk(r.key)
    ensures TokenAt(Tokens(UpdateMessage(r), {';'}), 0) == "UPDATELIST"
    ensures ParseReport(Tokens(UpdateMessage(r), {';'})) == AsRead(r)
  {
    var fields := ["UPDATELIST", r.key.host, IntText(r.key.port), IntText(r.key.id)];
    TextFree(r.key.port);
    TextFree(r.key.id);
    assert TokenList(fields, {';'}) by {
      assert fields[0] == "UPDATELIST" && fields[1] == r.key.host;
      assert fields[2] == IntText(r.key.port) && fields[3] == IntText(r.key.id);
    }
    TokensOfClosed(fields, Entries(r.files));
    AtoiText(r.key.port);
    AtoiText(r.key.id);
    HeaderApart(fields, Tokens(Entries(r.files), {';'}));
  }

  /** So the tracker understands a report if and only if its entries fit the client's buffer. */
  lemma {:induction false} UpdateRoundTripIff(r: Report)
    requires HostOk(r.key) && FilesOk(r.files)
    ensures ParseReport(Tokens(UpdateMessage(r), {';'})) == r <==> Fits(r.files)
  {
    UpdateIsRead(r);
    ReportDecodesIff(r.files);
  }

  lemma HeaderApart(fields: seq<string>, tokens: seq<string>)
    requires |fields| == 4
    ensures Left(fields + tokens, 4) == tokens
    ensures forall k: nat :: k < 4 ==> TokenAt(fields + tokens, k) == fields[k]
  {
  }

  lemma FindRoundTrip(host: string, port: int, filename: string)
    requires host != "" && Free(host, {';'}) && filename != "" && Free(filename, {';'})
    ensures
      var tokens := Tokens(FindMessage(host, port, filename), {';'});
      && TokenAt(tokens, 0) == "FIND" && TokenAt(tokens, 1) == host
      && Atoi(TokenAt(tokens, 2)) == port && TokenAt(tokens, 3) == filename
  {
    var fields := ["FIND", host, IntText(port)];
    TextFree(port);
    AtoiText(port);
    assert TokenList(fields, {';'}) by {
      assert fields[0] == "FIND" && fields[1] == host && fields[2] == IntText(port);
    }
    TokensOfClosed(fields, filename);
    TokenAlone(filename, {';'});
    assert (fields + [filename])[0] == "FIND" && (fields + [filename])[1] == host;
    assert (fields + [filename])[2] == IntText(port) && (fields + [filename])[3] == filename;
  }

  // ---------- runs over texts ----------

  /** A text that arrives at the port for reports, or at the port for look-ups. */
  datatype Datagram = AtUpdate(text: string) | AtFind(text: string)

  function Handled(list: seq<ClientInfo>, d: Datagram): seq<ClientInfo> {
    match d
    case AtUpdate(text) =>
      var tokens := Tokens(text, {';'});
      if TokenAt(tokens, 0) == "UPDATELIST" then Updated(list, ParseReport(tokens)) else list
    case AtFind(_) => list
  }

  /** The reply to a look-up, "" where none is sent. */
  function ReplyTo(list: seq<ClientInfo>, text: string): string {
    var tokens := Tokens(text, {';'});
    if TokenAt(tokens, 0) == "FIND" then ReplyFor(Holders(list, TokenAt(tokens, 3))) else ""
  }

  function ListAfterTexts(run: seq<Datagram>): seq<ClientInfo> {
    if run == [] then [] else Handled(ListAfterTexts(run[..|run| - 1]), run[|run| - 1])
  }

  /** What a client does: report its files, or look one up. */
  datatype Act = Reports(report: Report) | LooksUp(host: string, port: int, filename: string)

  function DatagramOf(act: Act): Datagram {
    match act
    case Reports(r) => AtUpdate(UpdateMessage(r))
    case LooksUp(host, port, filename) => AtFind(FindMessage(host, port, filename))
  }

  function DatagramsOf(acts: seq<Act>): (run: seq<Datagram>)
    ensures |run| == |acts|
    ensures forall i :: 0 <= i < |acts| ==> run[i] == DatagramOf(acts[i])
  {
    seq(|acts|, i requires 0 <= i < |acts| => DatagramOf(acts[i]))
  }

  predicate ActOk(act: Act) {
    act.Reports? ==> HostOk(act.report.key)
  }

  /** What a report is read as: the report itself if and only if it fits its buffer. */
  function AsRead(r: Report): Report {
    Report(r.key, PairsOf(Tokens(Entries(r.files), {';'})))
  }

  function ReportsIn(acts: seq<Act>): seq<Report> {
    if acts == [] then []
    else
      ReportsIn(acts[..|acts| - 1]) +
      match acts[|acts| - 1]
      case Reports(r) => [AsRead(r)]
      case LooksUp(_, _, _) => []
  }

  /** Whatever clients send in whatever order, the texts leave the tracker with the list that their
      reports amount to as read; look-ups leave it alone. */
  lemma {:induction false} TextsAmountToReports(acts: seq<Act>)
    requires forall i :: 0 <= i < |acts| ==> ActOk(acts[i])
    ensures ListAfterTexts(DatagramsOf(acts)) == ListAfter(ReportsIn(acts))
    ensures forall i :: 0 <= i < |ReportsIn(acts)| ==> HostOk(ReportsIn(acts)[i].key)
    decreases |acts|
  {
    if acts != [] {
      var init, act := acts[..|acts| - 1], acts[|acts| - 1];
      TextsAmountToReports(init);
      assert DatagramsOf(acts)[..|acts| - 1] == DatagramsOf(init);
      assert ActOk(act);
      match act
      case Reports(r) =>
        UpdateIsRead(r);
        assert (ReportsIn(init) + [AsRead(r)])[..|ReportsIn(init)|] == ReportsIn(init);
      case LooksUp(_, _, _) =>
        assert ReportsIn(init) + [] == ReportsIn(init);
    }
  }

  /** End to end over texts: after any run of reports and look-ups, the text of a look-up gets a reply
      that its client reads as exactly the clients whose reports, as read, ever named the file,
      in the order of their first report, and EMPTY for none. */
  lemma {:induction false} LookUpReadsThePast(acts: seq<Act>, host: string, port: int, filename: string)
    returns (keys: seq<Key>)
    requires forall i :: 0 <= i < |acts| ==> ActOk(acts[i])
    requires host != "" && Free(host, {';'}) && filename != "" && Free(filename, {';'})
    ensures
      var reply := ReplyTo(ListAfterTexts(DatagramsOf(acts)), FindMessage(host, port, filename));
      && (reply == "EMPTY" <==> keys == [])
      && (keys != [] ==> Decode(Tokens(reply, {';'})) == Some(NodesOf(keys)))
    ensures Sharers(keys, ReportsIn(acts), filename)
  {
    TextReply(acts, host, port, filename);
    keys := FindSharers(ReportsIn(acts), filename);
    ReplyRoundTrip(NodesOf(keys));
  }

  lemma {:induction false} TextReply(acts: seq<Act>, host: string, port: int, filename: string)
    requires forall i :: 0 <= i < |acts| ==> ActOk(acts[i])
    requires host != "" && Free(host, {';'}) && filename != "" && Free(filename, {';'})
    ensures ReplyTo(ListAfterTexts(DatagramsOf(acts)), FindMessage(host, port, filename)) ==
            ReplyFor(Holders(ListAfter(ReportsIn(acts)), filename))
    ensures forall i :: 0 <= i < |ReportsIn(acts)| ==> HostOk(ReportsIn(acts)[i].key)
  {
    TextsAmountToReports(acts);
    FindRoundTrip(host, port, filename);
  }

  /** All reported entries fit their buffers. */
  predicate AllFit(acts: seq<Act>) {
    forall i :: 0 <= i < |acts| && acts[i].Reports? ==>
      FilesOk(acts[i].report.files) && Fits(acts[i].report.files)
  }

  /** A report of this client names the file. */
  ghost predicate Named(act: Act, key: Key, filename: string) {
    act.Reports? && act.report.key == key
    && exists j :: 0 <= j < |act.report.files| && act.report.files[j].name == filename
  }

  /** If all entries fit their buffers, those are the clients that ever sent a report naming the file. */
  lemma {:induction false} LookUpFindsSenders(acts: seq<Act>, host: string, port: int, filename: string)
    returns (keys: seq<Key>)
    requires forall i :: 0 <= i < |acts| ==> ActOk(acts[i])
    requires AllFit(acts)
    requires host != "" && Free(host, {';'}) && filename != "" && Free(filename, {';'})
    ensures
      var reply := ReplyTo(ListAfterTexts(DatagramsOf(acts)), FindMessage(host, port, filename));
      && (reply == "EMPTY" <==> keys == [])
      && (keys != [] ==> Decode(Tokens(reply, {';'})) == Some(NodesOf(keys)))
    ensures forall key :: key in keys <==> exists i :: 0 <= i < |acts| && Named(acts[i], key, filename)
  {
    keys := LookUpReadsThePast(acts, host, port, filename);
    var reports := ReportsIn(acts);
    forall key
      ensures key in keys <==> exists i :: 0 <= i < |acts| && Named(acts[i], key, filename)
    {
      EverReportedFile(reports, key, filename);
      SentIsRead(acts, key, filename);
    }
  }

  lemma {:induction false} SentIsRead(acts: seq<Act>, key: Key, filename: string)
    requires AllFit(acts)
    ensures EverReported(ReportsIn(acts), key, filename) <==>
            exists i :: 0 <= i < |acts| && Named(acts[i], key, filename)
    decreases |acts|
  {
    if acts != [] {
      var n := |acts| - 1;
      SentIsRead(acts[..n], key, filename);
      SentStep(acts[..n], acts[n], key, filename);
      assert acts == acts[..n] + [acts[n]];
      assert forall i :: 0 <= i < n ==> acts[..n][i] == acts[i];
      assert Named(acts[n], key, filename) || !Named(acts[n], key, filename);
    }
  }

  lemma {:induction false} SentStep(init: seq<Act>, act: Act, key: Key, filename: string)
    requires act.Reports? ==> FilesOk(act.report.files) && Fits(act.report.files)
    ensures EverReported(ReportsIn(init + [act]), key, filename) <==>
            EverReported(ReportsIn(init), key, filename) || Named(act, key, filename)
  {
    assert (init + [act])[..|init|] == init;
    match act
    case Reports(r) =>
      ReportDecodesIff(r.files);
      assert ReportsIn(init + [act]) == ReportsIn(init) + [r];
      assert (ReportsIn(init) + [r])[..|ReportsIn(init)|] == ReportsIn(init);
      EverReportedStep(ReportsIn(init) + [r], key, filename);
    case LooksUp(_, _, _) =>
      assert ReportsIn(init + [act]) == ReportsIn(init);
  }

  // ---------- the server ----------

  /** The token just taken, if there was one, in front of the tokens behind it. */
  function Pending(token: string, rest: seq<string>): seq<string> {
    if token == "" then [] else [token] + rest
  }

  lemma PendingNext(rest: seq<string>)
    requires TokenList(rest, {';'})
    ensures Pending(TokenAt(rest, 0), After(rest)) == rest && TokenList(After(rest), {';'})
  {
  }

  lemma PendingPair(name: string, rest: seq<string>)
    requires name != ""
    ensures PairsOf(Pending(name, rest)) == [File(name, TokenAt(rest, 0))] + PairsOf(After(rest))
  {
    assert ([name] + rest)[1..] == rest;
  }

  class Server {
    var clientInfoList: seq<ClientInfo>

    constructor ()
      ensures clientInfoList == ListAfter([])
    {
      clientInfoList := [];
    }

    /** find_if by id, host and port */
    method FindClient(key: Key) returns (k: nat)
      ensures k == IndexOfKey(clientInfoList, key)
    {
      k := 0;
      while k < |clientInfoList| && clientInfoList[k].key != key
        invariant k <= |clientInfoList|
        invariant forall i :: 0 <= i < k ==> clientInfoList[i].key != key
      {
        k := k + 1;
      }
      ghost var first := IndexOfKey(clientInfoList, key);
      assert k == first;
    }

    /** One turn of the loop below: filename and the token behind it make a file of client k. */
    method TakePair(tokenizer: StringTokenizer, k: nat, filename: string) returns (next: string)
      requires tokenizer.Valid() && TokenList(tokenizer.Rest(), {';'})
      requires k < |clientInfoList| && filename != ""
      modifies tokenizer, this
      ensures tokenizer.Valid() && TokenList(tokenizer.Rest(), {';'})
      ensures |Pending(next, tokenizer.Rest())| < |Pending(filename, old(tokenizer.Rest()))|
      ensures k < |clientInfoList| && Appended(clientInfoList, k, PairsOf(Pending(next, tokenizer.Rest()))) ==
              Appended(old(clientInfoList), k, PairsOf(Pending(filename, old(tokenizer.Rest()))))
    {
      ghost var rest := tokenizer.Rest();
      PendingNext(rest);
      PendingNext(After(rest));
      PendingPair(filename, rest);
      var checksum := tokenizer.GetNext();
      var file := File(filename, checksum);
      AppendedTwice(clientInfoList, k, [file], PairsOf(After(rest)));
      clientInfoList := clientInfoList[k := ClientInfo(clientInfoList[k].key, clientInfoList[k].files + [file])];
      next := tokenizer.GetNext();
    }

    /** The loop over the tokens behind the header, appending to the files of client k. */
    method ReadFiles(tokenizer: StringTokenizer, k: nat)
      requires tokenizer.Valid() && TokenList(tokenizer.Rest(), {';'})
      requires k < |clientInfoList|
      modifies tokenizer, this
      ensures clientInfoList == Appended(old(clientInfoList), k, PairsOf(old(tokenizer.Rest())))
    {
      PendingNext(tokenizer.Rest());
      var filename := tokenizer.GetNext();
      while filename != ""
        invariant tokenizer.Valid() && TokenList(tokenizer.Rest(), {';'}) && k < |clientInfoList|
        invariant Appended(clientInfoList, k, PairsOf(Pending(filename, tokenizer.Rest()))) ==
                  Appended(old(clientInfoList), k, PairsOf(old(tokenizer.Rest())))
        decreases |Pending(filename, tokenizer.Rest())|
        modifies tokenizer, this
      {
        filename := TakePair(tokenizer, k, filename);
      }
      AppendedTwice(clientInfoList, k, [], []);
    }

    /** The four tokens in front. */
    method ReadHeader(tokenizer: StringTokenizer) returns (command: string, key: Key)
      requires tokenizer.Valid() && TokenList(tokenizer.Rest(), {';'})
      modifies tokenizer
      ensures tokenizer.Valid() && tokenizer.Rest() == Left(old(tokenizer.Rest()), 4)
      ensures command == TokenAt(old(tokenizer.Rest()), 0) && key == ParseReport(old(tokenizer.Rest())).key
    {
      HeaderLeft(tokenizer.Rest());
      command := tokenizer.GetNext();
      var host := tokenizer.GetNext();
      var port := tokenizer.GetNext();
      var id := tokenizer.GetNext();
      key := Key(Atoi(id), host, Atoi(port));
    }

    /** A message at the port for reports: a report is answered with SUCCESS at the address it names. */
    method HandleUpdateList(message: string) returns (reply: string, host: string, port: int)
      modifies this
      ensures
        var tokens := Tokens(message, {';'});
        && reply == (if TokenAt(tokens, 0) == "UPDATELIST" then "SUCCESS" else "")
        && host == TokenAt(tokens, 1) && port == Atoi(TokenAt(tokens, 2))
      ensures clientInfoList == Handled(old(clientInfoList), AtUpdate(message))
    {
      var tokenizer := new StringTokenizer();
      tokenizer.Split(message, {';'});
      TokensNonEmpty(message, {';'});
      HeaderLeft(tokenizer.Rest());
      ghost var report := ParseReport(tokenizer.Rest());
      var command, key := ReadHeader(tokenizer);
      reply, host, port := "", key.host, key.port;
      if command == "UPDATELIST" {
        var k := FindClient(key);
        if k == |clientInfoList| {
          NewIsFound(clientInfoList, report);
          clientInfoList := clientInfoList + [ClientInfo(key, [])];
        }
        ReadFiles(tokenizer, k);
        reply := "SUCCESS";
      }
    }

    method MatchesFile(c: ClientInfo, filename: string) returns (found: bool)
      ensures found == FileMatch(c.files, filename)
      ensures found <==> exists i :: 0 <= i < |c.files| && c.files[i].name == filename
    {
      var i := 0;
      while i < |c.files| && c.files[i].name != filename
        invariant i <= |c.files|
        invariant forall j :: 0 <= j < i ==> c.files[j].name != filename
      {
        i := i + 1;
      }
      found := i < |c.files|;
    }

    /** The loop over the clients, and the trimming behind it. */
    method Reply(filename: string) returns (reply: string)
      ensures reply == ReplyFor(Holders(clientInfoList, filename))
    {
      reply := "";
      for i := 0 to |clientInfoList|
        invariant reply == Closed(Fields(Holders(clientInfoList[..i], filename)))
      {
        var c := clientInfoList[i];
        HoldersStep(clientInfoList, i, filename);
        var found := MatchesFile(c, filename);
        if found {
          ClosedPair(Fields(Holders(clientInfoList[..i], filename)), IntText(c.key.id), c.key.host);
          reply := reply + IntText(c.key.id) + ";";
          reply := reply + c.key.host + ";";
        }
      }
      assert clientInfoList[..|clientInfoList|] == clientInfoList;
      if reply != "" {
        reply := reply[..|reply| - 1];
      } else {
        reply := reply + "EMPTY";
      }
    }

    /** A message at the port for look-ups: the reply and where it goes, for a FIND. */
    method HandleFind(message: string) returns (answered: bool, host: string, port: int, reply: string)
      ensures
        var tokens := Tokens(message, {';'});
        && answered == (TokenAt(tokens, 0) == "FIND") && host == TokenAt(tokens, 1) && port == Atoi(TokenAt(tokens, 2))
        && reply == ReplyTo(clientInfoList, message)
    {
      var tokenizer := new StringTokenizer();
      tokenizer.Split(message, {';'});
      ghost var all := tokenizer.Rest();
      HeaderLeft(all);
      var command := tokenizer.GetNext();
      host := tokenizer.GetNext();
      var portText := tokenizer.GetNext();
      port := Atoi(portText);
      answered := command == "FIND";
      reply := "";
      if answered {
        var filename := tokenizer.GetNext();
        reply := Reply(filename);
      }
    }
  }

  lemma HeaderLeft(all: seq<string>)
    ensures TokenAt(all, 0) == TokenAt(Left(all, 0), 0) && Left(all, 0) == all
    ensures After(all) == Left(all, 1) && TokenAt(After(all), 0) == TokenAt(all, 1)
    ensures After(After(all)) == Left(all, 2) && TokenAt(After(After(all)), 0) == TokenAt(all, 2)
    ensures After(After(After(all))) == Left(all, 3) && TokenAt(After(After(After(all))), 0) == TokenAt(all, 3)
    ensures After(After(After(After(all)))) == Left(all, 4)
    ensures TokenList(all, {';'}) ==> TokenList(Left(all, 4), {';'})
  {
    LeftAll(all);
    LeftNext(all, 0);
    LeftNext(all, 1);
    LeftNext(all, 2);
    LeftNext(all, 3);
  }

  lemma NewIsFound(list: seq<ClientInfo>, r: Report)
    requires IndexOfKey(list, r.key) == |list|
    ensures Updated(list, r) == Appended(list + [ClientInfo(r.key, [])], |list|, r.files)
  {
    assert [] + r.files == r.files;
  }

  lemma HoldersStep(list: seq<ClientInfo>, i: nat, filename: string)
    requires i < |list|
    ensures
      var c := list[i];
      Fields(Holders(list[..i + 1], filename)) ==
        if FileMatch(c.files, filename) then Fields(Holders(list[..i], filename)) + [IntText(c.key.id), c.key.host]
        else Fields(Holders(list[..i], filename))
  {
    assert list[..i + 1][..i] == list[..i];
    var h := Holders(list[..i], filename);
    var x := ServerInfo(list[i].key.host, list[i].key.id);
    assert (h + [x])[..|h|] == h;
    assert h + [] == h && Fields(h) + [] == Fields(h);
  }
}
