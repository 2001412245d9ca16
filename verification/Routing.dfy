/** Source-routed requests: a route becomes a list of addresses in front of a file name, and every
    hop takes one address off. */
module Routing {
  import opened Text
  import opened Tokenizer
  import opened Walks

  const MAX_LATENCY: int := 200000

  datatype ServerInfo = ServerInfo(addr: string, id: int)

  /** The address of the first entry for id, or "". */
  function AddrOf(nodes: seq<ServerInfo>, id: int): string {
    if nodes == [] then "" else if nodes[0].id == id then nodes[0].addr else AddrOf(nodes[1..], id)
  }

  /** Of several entries for an id the first counts. */
  lemma {:induction false} AddrOfFirst(nodes: seq<ServerInfo>, id: int, k: nat)
    requires k < |nodes| && nodes[k].id == id && forall i :: 0 <= i < k ==> nodes[i].id != id
    ensures AddrOf(nodes, id) == nodes[k].addr
  {
    if k > 0 {
      AddrOfFirst(nodes[1..], id, k - 1);
    }
  }

  lemma {:induction false} AddrOfNone(nodes: seq<ServerInfo>, id: int)
    requires forall i :: 0 <= i < |nodes| ==> nodes[i].id != id
    ensures AddrOf(nodes, id) == ""
  {
    if nodes != [] {
      AddrOfNone(nodes[1..], id);
    }
  }

  /** The addresses a route is packed with: a hop whose address is unknown becomes the local one. */
  function Resolved(ids: seq<int>, nodes: seq<ServerInfo>, localIp: string): (addrs: seq<string>)
    ensures |addrs| == |ids|
    ensures forall i :: 0 <= i < |ids| ==>
              addrs[i] == if AddrOf(nodes, ids[i]) == "" then localIp else AddrOf(nodes, ids[i])
  {
    seq(|ids|, i requires 0 <= i < |ids| => if AddrOf(nodes, ids[i]) == "" then localIp else AddrOf(nodes, ids[i]))
  }

  function Packed(addrs: seq<string>, filename: string): string {
    Closed(addrs) + ("$;" + filename)
  }

  // ---------- one hop ----------

  datatype Hop = Forward(addr: string, rest: string) | Serve(filename: string)

  /** The address is the first token, but what is cut off is everything up to the first ';'. */
  function HopOf(request: string): Hop {
    var addr := TokenAt(Tokens(request, {';'}), 0);
    if addr != "$" then Forward(addr, DropField(request)) else Serve(DropField(request))
  }

  /** The message that carries a request to the next hop, and what its listener makes of it. */
  function DownloadText(ip: string, port: int, request: string): string {
    Closed(["DOWNLOAD", ip, IntText(port)]) + request
  }

  function Received(message: string): string {
    DropFields(message, 3)
  }

  /** Where the request comes from at each hop: an address and a port out of the pool. */
  datatype Sender = Sender(ip: string, port: int)

  predicate SendersOk(senders: seq<Sender>) {
    forall i :: 0 <= i < |senders| ==> senders[i].ip != "" && Free(senders[i].ip, {';'})
  }

  lemma ReceivedIsSent(from: Sender, request: string)
    requires from.ip != "" && Free(from.ip, {';'})
    ensures
      var message := DownloadText(from.ip, from.port, request);
      && Received(message) == request
      && TokenAt(Tokens(message, {';'}), 0) == "DOWNLOAD" && TokenAt(Tokens(message, {';'}), 1) == from.ip
      && Atoi(TokenAt(Tokens(message, {';'}), 2)) == from.port
  {
    var fields := ["DOWNLOAD", from.ip, IntText(from.port)];
    TextFree(from.port);
    AtoiText(from.port);
    assert TokenList(fields, {';'}) by {
      assert fields[0] == "DOWNLOAD" && fields[1] == from.ip && fields[2] == IntText(from.port);
    }
    HeaderRoundTrip(fields, request);
    assert |fields| == 3;
  }

  // ---------- a whole journey ----------

  /** The request visits exactly these addresses, one after the other, and the last of them
      (or the start, without any) looks for filename on its own disk. */
  ghost predicate Course(request: string, senders: seq<Sender>, visited: seq<string>, filename: string)
    requires |senders| == |visited|
    decreases |visited|
  {
    if visited == [] then HopOf(request) == Serve(filename)
    else
      && HopOf(request).Forward? && HopOf(request).addr == visited[0]
      && Course(Received(DownloadText(senders[0].ip, senders[0].port, HopOf(request).rest)), senders[1..],
         visited[1..], filename)
  }

  predicate Hops(addrs: seq<string>) {
    TokenList(addrs, {';'}) && "$" !in addrs
  }

  /** A packed route is followed address by address, and the file name arrives as it was, whatever
      characters it has. */
  lemma {:induction false} PackedCourse(addrs: seq<string>, filename: string, senders: seq<Sender>)
    requires Hops(addrs) && SendersOk(senders) && |senders| == |addrs|
    ensures Course(Packed(addrs, filename), senders, addrs, filename)
  {
    if addrs == [] {
      assert Packed(addrs, filename) == "$" + ";" + filename;
      TokenFirst("$", ';', filename, {';'});
      DropOne("$", filename);
    } else {
      TokenListTail(addrs, {';'});
      var rest := Packed(addrs[1..], filename);
      ClosedStep(addrs, "$;" + filename);
      assert Packed(addrs, filename) == addrs[0] + ";" + rest;
      TokenFirst(addrs[0], ';', rest, {';'});
      DropOne(addrs[0], rest);
      CourseStep(Packed(addrs, filename), senders, addrs, filename);
      PackedCourse(addrs[1..], filename, senders[1..]);
    }
  }

  lemma CourseStep(request: string, senders: seq<Sender>, visited: seq<string>, filename: string)
    requires |senders| == |visited| && SendersOk(senders) && visited != []
    ensures Course(request, senders, visited, filename) <==>
            && HopOf(request).Forward? && HopOf(request).addr == visited[0]
            && Course(HopOf(request).rest, senders[1..], visited[1..], filename)
  {
    if HopOf(request).Forward? {
      ReceivedIsSent(senders[0], HopOf(request).rest);
    }
  }

  /** The same journey without the messages between the hops. */
  ghost predicate Journey(request: string, visited: seq<string>, filename: string)
    decreases |visited|
  {
    var hop := HopOf(request);
    if visited == [] then hop == Serve(filename)
    else hop.Forward? && hop.addr == visited[0] && Journey(hop.rest, visited[1..], filename)
  }

  lemma {:induction false} CourseIsJourney(request: string, senders: seq<Sender>, visited: seq<string>,
                                           filename: string)
    requires |senders| == |visited| && SendersOk(senders)
    ensures Course(request, senders, visited, filename) <==> Journey(request, visited, filename)
    decreases |visited|
  {
    if visited != [] {
      CourseStep(request, senders, visited, filename);
      if HopOf(request).Forward? {
        CourseIsJourney(HopOf(request).rest, senders[1..], visited[1..], filename);
      }
    }
  }

  lemma JourneyHead(request: string, visited: seq<string>, f: string)
    requires Journey(request, visited, f)
    ensures visited == [] <==> HopOf(request).Serve?
    ensures visited == [] ==> f == HopOf(request).filename
    ensures visited != [] ==>
            visited == [HopOf(request).addr] + visited[1..] && Journey(HopOf(request).rest, visited[1..], f)
  {
  }

  lemma {:induction false} JourneyUnique(request: string, visited: seq<string>, visited': seq<string>, f: string,
                                         f': string)
    requires Journey(request, visited, f) && Journey(request, visited', f')
    ensures visited == visited' && f == f'
    decreases |visited|
  {
    JourneyHead(request, visited, f);
    JourneyHead(request, visited', f');
    if visited != [] {
      JourneyUnique(HopOf(request).rest, visited[1..], visited'[1..], f, f');
    }
  }

  /** A request has one course only, so it is served nowhere earlier or later. */
  lemma {:induction false} CourseUnique(request: string, senders: seq<Sender>, senders': seq<Sender>,
                     visited: seq<string>, visited': seq<string>, f: string, f': string)
    requires |senders| == |visited| && |senders'| == |visited'| && SendersOk(senders) && SendersOk(senders')
    requires Course(request, senders, visited, f) && Course(request, senders', visited', f')
    ensures visited == visited' && f == f'
  {
    CourseIsJourney(request, senders, visited, f);
    CourseIsJourney(request, senders', visited', f');
    JourneyUnique(request, visited, visited', f, f');
  }

  /** From the graph to the disk: the request packed for a walk takes as many hops as the walk has
      edges, ends at the address of the walk's end, and serves the file name unchanged, even
      where hops in between were unknown and became the local address. */
  lemma RouteDelivers(adj: Adjacency, src: int, p: seq<Edge>, nodes: seq<ServerInfo>, localIp: string,
                      filename: string, senders: seq<Sender>)
    requires WellFormed(adj) && IsWalk(adj, src, p) && p != []
    requires Hops(Resolved(Vertices(p), nodes, localIp)) && AddrOf(nodes, End(src, p)) != ""
    requires SendersOk(senders) && |senders| == |p|
    ensures
      var addrs := Resolved(Vertices(p), nodes, localIp);
      && Course(Packed(addrs, filename), senders, addrs, filename)
      && |addrs| == |p| && addrs[|p| - 1] == AddrOf(nodes, End(src, p))
  {
    PackedCourse(Resolved(Vertices(p), nodes, localIp), filename, senders);
  }

  /** Known addresses, and the local one, give a route that can be packed. */
  lemma HopsOfKnown(ids: seq<int>, nodes: seq<ServerInfo>, localIp: string)
    requires Hops([localIp]) && forall k :: 0 <= k < |nodes| ==> Free(nodes[k].addr, {';'}) && nodes[k].addr != "$"
    ensures Hops(Resolved(ids, nodes, localIp))
  {
    var addrs := Resolved(ids, nodes, localIp);
    assert [localIp][0] == localIp;
    forall i | 0 <= i < |addrs|
      ensures addrs[i] != "" && Free(addrs[i], {';'}) && addrs[i] != "$"
    {
      AddrOfListed(nodes, ids[i]);
    }
  }

  lemma {:induction false} AddrOfListed(nodes: seq<ServerInfo>, id: int)
    ensures AddrOf(nodes, id) == "" || exists k :: 0 <= k < |nodes| && nodes[k] == ServerInfo(AddrOf(nodes, id), id)
  {
    if nodes != [] {
      if nodes[0].id == id {
        assert nodes[0] == ServerInfo(AddrOf(nodes, id), id);
      } else {
        AddrOfListed(nodes[1..], id);
        if AddrOf(nodes, id) != "" {
          var k :| 0 <= k < |nodes[1..]| && nodes[1..][k] == ServerInfo(AddrOf(nodes, id), id);
          assert nodes[k + 1] == ServerInfo(AddrOf(nodes, id), id);
        }
      }
    }
  }

  // ---------- which requests are ever served ----------

  /** A request with no ';' left is handed on unchanged for ever; any request is served after
      some number of hops exactly when one of its tokens is "$". */
  lemma ServedIff(request: string)
    ensures "$" in Tokens(request, {';'}) <==> exists n: nat :: HopOf(DropFields(request, n)).Serve?
  {
    if "$" in Tokens(request, {';'}) {
      var n := ServedAfter(request);
      assert HopOf(DropFields(request, n)).Serve?;
    }
    if n: nat :| HopOf(DropFields(request, n)).Serve? {
      NeverServed(request, n);
    }
  }

  lemma DropShrinks(s: string)
    ensures |DropField(s)| < |s| || DropField(s) == s
  {
    var k := FindFirstOf(s, {';'}, 0);
    assert k == NPOS ==> s[k + 1..] == s;
  }

  /** Cutting off a field takes the first token away, or no token where the field is empty. */
  lemma DropKeepsTokens(s: string)
    ensures |DropField(s)| < |s| || |Tokens(s, {';'})| <= 1
    ensures |DropField(s)| < |s| ==>
              Tokens(s, {';'}) == (if FirstField(s) == "" then [] else [FirstField(s)]) + Tokens(DropField(s), {';'})
  {
    var k := FindFirstOf(s, {';'}, 0);
    if k == NPOS {
      if s != "" {
        TokenAlone(s, {';'});
      }
    } else if k == 0 {
      EmptyField(s);
    } else {
      FirstFieldIsToken(s, k);
    }
  }

  lemma EmptyField(s: string)
    requires s != "" && s[0] == ';'
    ensures Tokens(s, {';'}) == [] + Tokens(s[1..], {';'})
  {
  }

  lemma FirstFieldIsToken(s: string, k: int)
    requires k == FindFirstOf(s, {';'}, 0) && 0 < k
    ensures Tokens(s, {';'}) == [s[..k]] + Tokens(s[k + 1..], {';'})
  {
    assert s == s[..k] + [';'] + s[k + 1..];
    TokenFirst(s[..k], ';', s[k + 1..], {';'});
  }

  lemma {:induction false} ServedAfter(request: string) returns (n: nat)
    requires "$" in Tokens(request, {';'})
    ensures HopOf(DropFields(request, n)).Serve?
    decreases |request|
  {
    if TokenAt(Tokens(request, {';'}), 0) == "$" {
      n := 0;
    } else {
      DropKeepsTokens(request);
      n := ServedAfter(DropField(request));
      n := n + 1;
    }
  }

  lemma {:induction false} NeverServed(request: string, n: nat)
    ensures HopOf(DropFields(request, n)).Serve? ==> "$" in Tokens(request, {';'})
  {
    if n > 0 {
      DropKeepsTokens(request);
      NeverServed(DropField(request), n - 1);
    }
  }

  // ---------- the answer that comes back ----------

  /** What is left of a text that goes through c_str(): everything before the first NUL. */
  function CStr(s: string): string {
    if s == "" || s[0] == '\0' then "" else [s[0]] + CStr(s[1..])
  }

  lemma {:induction false} CStrPrefix(s: string)
    ensures CStr(s) <= s && Free(CStr(s), {'\0'}) && (|CStr(s)| < |s| ==> s[|CStr(s)|] == '\0')
    ensures CStr(s) == s <==> Free(s, {'\0'})
  {
    if s != "" && s[0] != '\0' {
      CStrPrefix(s[1..]);
      assert s == [s[0]] + s[1..];
      assert Free(s, {'\0'}) ==> Free(s[1..], {'\0'});
      assert Free(s[1..], {'\0'}) ==> Free(s, {'\0'}) by {
        assert forall i :: 1 <= i < |s| ==> s[i] == s[1..][i - 1];
      }
    }
  }

  lemma {:induction false} CStrAppend(s: string, t: string)
    requires Free(s, {'\0'})
    ensures CStr(s + t) == s + CStr(t)
  {
    if s == "" {
      assert s + t == t;
    } else {
      assert (s + t)[1..] == s[1..] + t;
      CStrAppend(s[1..], t);
    }
  }

  /** What ForwardDownload returns at the peer with address at, when every peer on the way answers:
      disk gives what each peer packs for a file name, and an answer goes back hop by hop. */
  function Answer(disk: (string, string) -> string, at: string, request: string): string
    decreases |request|
  {
    match HopOf(request)
    case Serve(filename) => disk(at, filename)
    case Forward(addr, rest) => if |rest| < |request| then CStr(Answer(disk, addr, rest)) else ""
  }

  /** The answer is what the last peer of the journey packed, as C strings carry it. */
  lemma {:induction false} AnswerFromLast(disk: (string, string) -> string, at: string, request: string,
                                          visited: seq<string>, filename: string)
    requires Journey(request, visited, filename)
    ensures Answer(disk, at, request) ==
            if visited == [] then disk(at, filename) else CStr(disk(visited[|visited| - 1], filename))
    decreases |visited|
  {
    if visited != [] {
      var rest := HopOf(request).rest;
      AnswerFromLast(disk, visited[0], rest, visited[1..], filename);
      DropShrinks(request);
      if |rest| == |request| {
        StuckHasNoJourney(request, visited, filename);
      }
      CStrTwice(disk(visited[|visited| - 1], filename));
    }
  }

  lemma CStrTwice(s: string)
    ensures CStr(CStr(s)) == CStr(s)
  {
    CStrPrefix(s);
    CStrPrefix(CStr(s));
  }

  lemma {:induction false} StuckHasNoJourney(request: string, visited: seq<string>, filename: string)
    requires DropField(request) == request && HopOf(request).Forward?
    ensures !Journey(request, visited, filename)
    decreases |visited|
  {
    if visited != [] {
      StuckHasNoJourney(request, visited[1..], filename);
    }
  }
}
