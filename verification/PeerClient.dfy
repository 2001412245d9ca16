/** The peer: shortest paths, the choice of a node, the port pool and the retry loop put together. */
module PeerClient {
  import opened Sequences
  import opened Text
  import opened Tokenizer
  import opened Walks
  import opened LatencyGraph
  import opened Routing
  import opened MinLoad
  import opened Attempts
  import opened Downloads
  import opened FileList
  import Ports
  import Tracker

  function RowsOf(routes: seq<seq<Edge>>): (rows: seq<seq<int>>)
    ensures |rows| == |routes|
    ensures forall v :: 0 <= v < |routes| ==> rows[v] == Vertices(routes[v])
  {
    seq(|routes|, v requires 0 <= v < |routes| => Vertices(routes[v]))
  }

  function AddrsOf(forwardList: seq<ServerInfo>): (addrs: seq<string>)
    ensures |addrs| == |forwardList|
    ensures forall i :: 0 <= i < |forwardList| ==> addrs[i] == forwardList[i].addr
  {
    seq(|forwardList|, i requires 0 <= i < |forwardList| => forwardList[i].addr)
  }

  class Client {
    const nodeId: int
    const localIp: string
    const md5: string -> string
    const graph: Graph
    const dist: array<int>
    var downloadPortPool: seq<int>
    var load: int
    // the shared directory, and what was listed of it at start-up
    var files: map<string, string>
    var localFileList: seq<File>
    var trackerOnline: bool

    ghost predicate Valid()
      reads graph, graph.path
    {
      graph.Valid() && dist.Length == graph.V && 0 <= nodeId < graph.V
    }

    ghost function AsPeer(): Peer
      requires Valid()
      reads this`files, graph, graph.path, dist
    {
      Peer(nodeId, localIp, dist[..], RowsOf(graph.route[nodeId]), md5, files)
    }

    ghost function Pool(): Ports.Pool
      reads this`downloadPortPool, this`load
    {
      Ports.Pool(downloadPortPool, load)
    }

    constructor (id: int, ip: string, n: nat, hash: string -> string, shared: map<string, string>, listed: seq<File>)
      requires 0 <= id < n
      ensures Valid() && nodeId == id && localIp == ip && md5 == hash && graph.V == n
      ensures downloadPortPool == [] && load == 0 && files == shared && localFileList == listed
      ensures fresh(graph) && fresh(graph.path) && fresh(dist)
    {
      nodeId, localIp, md5 := id, ip, hash;
      graph := new Graph(n);
      dist := new int[n];
      downloadPortPool, load := [], 0;
      files, localFileList, trackerOnline := shared, listed, false;
    }

    /** Start-up puts every port of the range into the pool. */
    method FillPool()
      requires downloadPortPool == [] && load == 0
      modifies this`downloadPortPool
      ensures Pool() == Ports.START.pool
    {
      for i := Ports.POOL_START to Ports.POOL_END + 1
        invariant downloadPortPool == Ports.AllPorts()[..i - Ports.POOL_START]
      {
        downloadPortPool := downloadPortPool + [i];
      }
    }

    // ---------- ports ----------

    method GetPort() returns (port: int)
      requires downloadPortPool != []
      modifies this`downloadPortPool, this`load
      ensures port == old(downloadPortPool)[0] && downloadPortPool == old(downloadPortPool)[1..]
      ensures load == old(load) + 1
      ensures Pool() == Ports.Taken(old(Pool()))
    {
      load := load + 1;
      port := downloadPortPool[0];
      downloadPortPool := downloadPortPool[1..];
    }

    method ReturnPort(port: int)
      modifies this`downloadPortPool, this`load
      ensures downloadPortPool == old(downloadPortPool) + [port] && load == old(load) - 1
      ensures Pool() == Ports.Returned(old(Pool()), port)
    {
      downloadPortPool := downloadPortPool + [port];
      load := load - 1;
    }

    // ---------- requests ----------

    /** The address of the first entry for the id. */
    method GetNodeAddr(id: int, nodes: seq<ServerInfo>) returns (addr: string)
      ensures addr == AddrOf(nodes, id)
      ensures (forall i :: 0 <= i < |nodes| ==> nodes[i].id != id) ==> addr == ""
      ensures forall k :: 0 <= k < |nodes| && nodes[k].id == id && (forall i :: 0 <= i < k ==> nodes[i].id != id) ==>
                addr == nodes[k].addr
    {
      var i := 0;
      while i < |nodes|
        invariant i <= |nodes|
        invariant forall j :: 0 <= j < i ==> nodes[j].id != id
      {
        if nodes[i].id == id {
          AddrOfFirst(nodes, id, i);
          return nodes[i].addr;
        }
        i := i + 1;
      }
      AddrOfNone(nodes, id);
      addr := "";
    }

    /** The nodes of the row written by the shortest-path run, with their addresses. */
    method FillForwardList(nodes: seq<ServerInfo>, end: int) returns (forwardList: seq<ServerInfo>)
      requires Valid() && 0 <= end < graph.V
      ensures AddrsOf(forwardList) == ForwardAddrs(AsPeer(), nodes, end)
      ensures dist[end] <= MAX_LATENCY ==>
                |forwardList| == |graph.route[nodeId][end]| &&
                forall i :: 0 <= i < |forwardList| ==> forwardList[i].id == graph.route[nodeId][end][i].to
    {
      forwardList := [];
      if dist[end] > MAX_LATENCY {
        return;
      }
      ghost var row := Vertices(graph.route[nodeId][end]);
      assert RowIs(graph.path, nodeId, end, row);
      var j := 0;
      while graph.path[nodeId, end, j] != -1
        invariant 0 <= j <= |row| && |forwardList| == j
        invariant forall i :: 0 <= i < j ==> forwardList[i].id == row[i]
        decreases |row| - j
      {
        forwardList := forwardList + [ServerInfo("", graph.path[nodeId, end, j])];
        j := j + 1;
      }
      forwardList := LoadInfoListByID(forwardList, nodes);
    }

    method LoadInfoListByID(list: seq<ServerInfo>, nodes: seq<ServerInfo>) returns (forwardList: seq<ServerInfo>)
      ensures |forwardList| == |list|
      ensures forall i :: 0 <= i < |list| ==> forwardList[i].id == list[i].id
      ensures forall i :: 0 <= i < |list| ==>
                forwardList[i].addr == if AddrOf(nodes, list[i].id) == "" then localIp else AddrOf(nodes, list[i].id)
    {
      forwardList := list;
      for k := 0 to |list|
        invariant |forwardList| == |list|
        invariant forall i :: 0 <= i < |list| ==> forwardList[i].id == list[i].id
        invariant forall i :: 0 <= i < k ==>
                    forwardList[i].addr ==
                      if AddrOf(nodes, list[i].id) == "" then localIp else AddrOf(nodes, list[i].id)
      {
        var addr := GetNodeAddr(forwardList[k].id, nodes);
        if addr == "" {
          addr := localIp;
        }
        forwardList := forwardList[k := ServerInfo(addr, forwardList[k].id)];
      }
    }

    method PackForwardRequest(forwardList: seq<ServerInfo>, filename: string) returns (request: string)
      ensures request == Packed(AddrsOf(forwardList), filename)
    {
      request := "";
      ghost var addrs := AddrsOf(forwardList);
      for i := 0 to |forwardList|
        invariant request == Closed(addrs[..i])
      {
        ClosedAppend(addrs[..i], addrs[i]);
        assert addrs[..i + 1] == addrs[..i] + [addrs[i]];
        request := request + forwardList[i].addr + ";";
      }
      assert addrs[..|addrs|] == addrs;
      request := request + "$;";
      PackedEnd(addrs, filename);
      request := request + filename;
    }

    /** The next address, and the request without its first field. */
    method GetNextForwardAddr(request: string) returns (addr: string, rest: string)
      ensures HopOf(request) == if addr != "$" then Forward(addr, rest) else Serve(rest)
    {
      var tokenizer := new StringTokenizer();
      tokenizer.Split(request, {';'});
      addr := tokenizer.GetNext();
      rest := DropField(request);
    }

    /** A forwarded request holds a port while the reply is awaited, and gives it back in either case. */
    method ForwardDownload(request: string, network: (string, string) -> string) returns (reply: string)
      requires downloadPortPool != []
      modifies this`downloadPortPool, this`load
      ensures reply == ReplyFrom(md5, files, request, network)
      ensures Pool() == if HopOf(request).Serve? then old(Pool())
                        else Ports.Returned(Ports.Taken(old(Pool())), old(downloadPortPool)[0])
    {
      var addr, rest := GetNextForwardAddr(request);
      if addr != "$" {
        var port := GetPort();
        var received := network(addr, rest);
        if received == "" {
          ReturnPort(port);
          return "";
        } else {
          ReturnPort(port);
          return received;
        }
      } else {
        reply := PackFile(md5, files, rest);
      }
    }

    // ---------- choosing a node ----------

    method GetMinLoadNode(nodes: seq<ServerInfo>, polls: nat -> string) returns (id: int)
      requires nodes != [] && NodesWithin(nodes, dist.Length)
      ensures IdsWithin(LoadsOf(nodes, polls), dist.Length)
      ensures IsMinLoad(LoadsOf(nodes, polls), dist[..], id) && 0 <= id < dist.Length
    {
      var polled: seq<Polled> := [];
      for i := 0 to |nodes|
        invariant polled == LoadsOf(nodes, polls)[..i]
      {
        var addr := GetNodeAddr(nodes[i].id, nodes);
        var load := if addr == "" then MAX_LOAD else if HasNumber(polls(i)) then Atoi(polls(i)) else MAX_LOAD;
        polled := polled + [Polled(nodes[i].id, load)];
      }
      assert polled == LoadsOf(nodes, polls);
      id := Choose(polled, dist[..]);
      ChosenIsListed(nodes, polls, dist[..], id);
    }

    /** GETLOAD: the asking peer reads the number of transfers back. */
    method HandleGetLoad() returns (reply: string)
      ensures HasNumber(reply) && Atoi(reply) == load && reply == IntText(load)
    {
      AtoiText(load);
      reply := IntText(load);
    }

    /** The first entry for the id goes. */
    method RemoveNodeInfo(id: int, nodes: seq<ServerInfo>) returns (left: seq<ServerInfo>)
      ensures left == Removed(nodes, id)
      ensures (forall i :: 0 <= i < |nodes| ==> nodes[i].id != id) ==> left == nodes
      ensures forall k :: 0 <= k < |nodes| && nodes[k].id == id && (forall i :: 0 <= i < k ==> nodes[i].id != id) ==>
                left == nodes[..k] + nodes[k + 1..]
    {
      var i := 0;
      while i < |nodes|
        invariant i <= |nodes|
        invariant Removed(nodes, id) == nodes[..i] + Removed(nodes[i..], id)
        invariant forall j :: 0 <= j < i ==> nodes[j].id != id
      {
        if nodes[i].id == id {
          return nodes[..i] + nodes[i + 1..];
        }
        i := i + 1;
      }
      left := nodes;
    }

    // ---------- downloading ----------

    /** The report that UpdateList sends, and what the tracker's reply to it changes. */
    method UpdateList(received: string) returns (report: string)
      modifies this`trackerOnline
      ensures report == ReportText(nodeId, localFileList)
      ensures trackerOnline == OnlineAfter(old(trackerOnline), received)
      ensures received == "SUCCESS" ==> trackerOnline
      ensures received == "" ==> !trackerOnline
      ensures received != "SUCCESS" && received != "" ==> trackerOnline == old(trackerOnline)
    {
      report := PackFilelistInfo();
      if received == "SUCCESS" {
        trackerOnline := true;
      }
      if received == "" {
        trackerOnline := false;
      }
    }

    /** The file is written and a report sent exactly if the checksum fits. The report is of the files
        listed at start-up: the new one is not among them. */
    method ValidatePackedData(data: string, filename: string, tracker: string) returns (ok: bool, report: string)
      modifies this`files, this`trackerOnline
      ensures ok == Intact(md5, data)
      ensures files == if ok then old(files)[filename := Body(data)] else old(files)
      ensures |data| >= 32 ==> (ok <==> data[..32] == md5(CStr(data[32..])))
      ensures |data| < 32 ==> (ok <==> data == md5(""))
      ensures |data| >= 32 && ok ==> files == old(files)[filename := data[32..]]
      ensures report == if ok then ReportText(nodeId, localFileList) else ""
      ensures trackerOnline == if ok then OnlineAfter(old(trackerOnline), tracker) else old(trackerOnline)
    {
      assert |data| == 32 ==> data[..32] == data && data[32..] == "";
      assert CStr("") == "";
      ok, report := Checksum(data) == md5(CStr(Body(data))), "";
      if ok {
        files := files[filename := Body(data)];
        report := UpdateList(tracker);
      }
    }

    /** LoadServerInfo; ok is false where stoi throws. */
    method LoadServerInfo(received: string) returns (ok: bool, nodes: seq<ServerInfo>)
      ensures Tracker.Decode(Tokens(received, {';'})) == if ok then Tracker.Some(nodes) else Tracker.None
    {
      var tokenizer := new StringTokenizer();
      tokenizer.Split(received, {';'});
      TokensNonEmpty(received, {';'});
      ghost var all := tokenizer.Rest();
      ok, nodes := true, [];
      Tracker.PendingNext(all);
      var nextId := tokenizer.GetNext();
      DecodeAhead(nodes, all);
      while nextId != ""
        invariant tokenizer.Valid() && TokenList(tokenizer.Rest(), {';'})
        invariant Tracker.Decode(all) == Ahead(nodes, Tracker.Pending(nextId, tokenizer.Rest()))
        decreases |Tracker.Pending(nextId, tokenizer.Rest())|
        modifies tokenizer
      {
        ghost var rest := tokenizer.Rest();
        Tracker.PendingNext(rest);
        Tracker.PendingNext(After(rest));
        AheadStep(nodes, nextId, rest);
        if !HasNumber(nextId) {
          ok := false;
          return;
        }
        var nextAddr := tokenizer.GetNext();
        nodes := nodes + [ServerInfo(nextAddr, Atoi(nextId))];
        nextId := tokenizer.GetNext();
      }
      assert nodes + [] == nodes;
    }

    /** One turn of the download loop. */
    method TryOnce(nodes: seq<ServerInfo>, filename: string, round: Round)
      returns (left: seq<ServerInfo>, ghost attempt: Attempt, done: bool, report: string)
      requires Valid() && downloadPortPool != [] && nodes != [] && NodesWithin(nodes, graph.V)
      modifies this`downloadPortPool, this`load, this`files, this`trackerOnline
      ensures multiset(downloadPortPool) == multiset(old(downloadPortPool)) && load == old(load)
      ensures LegalAttempt(old(AsPeer()), nodes, filename, round, attempt) && done == attempt.outcome.Written?
      ensures left ==
              if attempt.outcome.Local? || attempt.outcome.Failed? then Removed(nodes, attempt.chosen) else nodes
      ensures files == if attempt.outcome.Written? then old(files)[filename := attempt.outcome.content] else old(files)
      ensures report == if done then ReportText(nodeId, localFileList) else ""
      ensures trackerOnline == if done then OnlineAfter(old(trackerOnline), round.tracker) else old(trackerOnline)
    {
      done, left, report := false, nodes, "";
      ghost var peer := AsPeer();
      var chosen := GetMinLoadNode(nodes, round.polls);
      attempt := Attempt(chosen, OutcomeOf(peer, nodes, chosen, filename, round.network));
      AttemptIsLegal(peer, nodes, filename, round, attempt);
      if chosen == nodeId {
        left := RemoveNodeInfo(chosen, nodes);
        return;
      }
      var data := Fetch(nodes, chosen, filename, round.network);
      if data == "" {
        left := RemoveNodeInfo(chosen, nodes);
        return;
      }
      done, report := ValidatePackedData(data, filename, round.tracker);
    }

    /** The routed request first, and the direct one where it brought nothing. */
    method Fetch(nodes: seq<ServerInfo>, chosen: int, filename: string, network: (string, string) -> string)
      returns (data: string)
      requires Valid() && downloadPortPool != [] && 0 <= chosen < graph.V
      modifies this`downloadPortPool, this`load
      ensures data == Fetched(AsPeer(), nodes, chosen, filename, network)
      ensures multiset(downloadPortPool) == multiset(old(downloadPortPool)) && load == old(load)
    {
      var forwardList := FillForwardList(nodes, chosen);
      var request := PackForwardRequest(forwardList, filename);
      data := Ask(request, network);
      if data == "" {
        var addr := GetNodeAddr(chosen, nodes);
        data := Ask(addr + ";$;" + filename, network);
      }
    }

    /** ForwardDownload as its caller sees it once it has returned. */
    method Ask(request: string, network: (string, string) -> string) returns (reply: string)
      requires downloadPortPool != []
      modifies this`downloadPortPool, this`load
      ensures reply == ReplyFrom(md5, files, request, network)
      ensures downloadPortPool != [] && multiset(downloadPortPool) == multiset(old(downloadPortPool))
              && load == old(load)
    {
      reply := ForwardDownload(request, network);
      Ports.TakeFirst(old(downloadPortPool));
    }

    /** The candidates of a download: none for a tracker that is down or knows nobody. */
    method Candidates(received: string) returns (nodes: seq<ServerInfo>)
      ensures nodes == CandidatesIn(received)
    {
      nodes := [];
      if received == "" || received == "EMPTY" {
        return;
      }
      var ok;
      ok, nodes := LoadServerInfo(received);
      if !ok {
        nodes := [];
      }
    }

    /** The loop: it makes legal attempts until it is over or rounds has nothing more to show. */
    method Retry(nodes: seq<ServerInfo>, filename: string, rounds: seq<Round>)
      returns (left: seq<ServerInfo>, ghost trace: seq<Attempt>, report: string)
      requires Valid() && downloadPortPool != [] && NodesWithin(nodes, graph.V)
      modifies this`downloadPortPool, this`load, this`files, this`trackerOnline
      ensures multiset(downloadPortPool) == multiset(old(downloadPortPool)) && load == old(load)
      ensures Legal(old(AsPeer()), nodes, filename, rounds, trace) && left == Remaining(nodes, trace)
      ensures Finished(nodes, trace) || |trace| == |rounds|
      ensures files == Stored(old(files), filename, trace)
      ensures report == if Succeeded(trace) then ReportText(nodeId, localFileList) else ""
      ensures trackerOnline == OnlineThen(old(trackerOnline), rounds, trace)
    {
      ghost var peer := AsPeer();
      left, trace, report := nodes, [], "";
      var done, n := false, 0;
      while |left| != 0 && !done && n < |rounds|
        invariant n == |trace| <= |rounds| && done == Succeeded(trace)
        invariant downloadPortPool != [] && multiset(downloadPortPool) == multiset(old(downloadPortPool))
                  && load == old(load)
        invariant NodesWithin(left, graph.V) && left == Remaining(nodes, trace)
        invariant Legal(peer, nodes, filename, rounds, trace) && files == Stored(old(files), filename, trace)
        invariant report == if done then ReportText(nodeId, localFileList) else ""
        invariant trackerOnline == OnlineThen(old(trackerOnline), rounds, trace)
        decreases |rounds| - n
        modifies this`downloadPortPool, this`load, this`files, this`trackerOnline
      {
        ghost var attempt;
        RemovedWithin(left, graph.V);
        ghost var before := trace;
        left, attempt, done, report := TryOnce(left, filename, rounds[n]);
        trace := before + [attempt];
        TraceGrows(peer, nodes, filename, rounds, before, attempt);
        OnlineGrows(old(trackerOnline), rounds, before, attempt);
        n := n + 1;
      }
    }

    /** A whole download: rounds is what the world does, for as many attempts as one wants to see. The
        attempts made are legal, end only when the loop is over, and change the shared directory
        by the one file written; ports and load are as before. overflow is reported exactly if
        there are candidates and the shortest-path run meets a sum that is no int. */
    method Download(filename: string, received: string, rounds: seq<Round>)
      returns (overflow: bool, left: seq<ServerInfo>, report: string, ghost peer: Peer, ghost trace: seq<Attempt>)
      requires Valid() && downloadPortPool != [] && WellFormed(graph.adj)
      requires forall i :: 0 <= i < |CandidatesIn(received)| ==> 0 <= CandidatesIn(received)[i].id < graph.V
      modifies this`downloadPortPool, this`load, this`files, this`trackerOnline, graph`route, graph.path, dist
      ensures Valid() && multiset(downloadPortPool) == multiset(old(downloadPortPool)) && load == old(load)
      ensures overflow <==> CandidatesIn(received) != [] && Overflows(graph.adj, nodeId)
      ensures PeerOk(peer) && Legal(peer, CandidatesIn(received), filename, rounds, trace)
      ensures !overflow && CandidatesIn(received) != [] ==>
                TrueRoutes(graph.adj, peer) && peer == AsPeer().(files := old(files))
      ensures !overflow ==> left == Remaining(CandidatesIn(received), trace)
      ensures !overflow ==> Finished(CandidatesIn(received), trace) || |trace| == |rounds|
      ensures files == Stored(old(files), filename, trace)
      ensures report == if Succeeded(trace) then ReportText(nodeId, localFileList) else ""
      ensures trackerOnline == OnlineThen(old(trackerOnline), rounds, trace)
    {
      var nodes := Candidates(received);
      overflow, left, report, peer, trace := false, [], "", AsPeer(), [];
      if nodes == [] {
        return;
      }
      ghost var pops;
      overflow, pops := graph.ShortestPath(nodeId, dist);
      if overflow {
        return;
      }
      peer := AsPeer();
      RoutesAreTrue(graph.adj, peer, graph.route[nodeId]);
      left, trace, report := Retry(nodes, filename, rounds);
    }

    /** The report for the tracker, entry by entry through the buffer. */
    method PackFilelistInfo() returns (fileInfo: string)
      ensures fileInfo == ReportText(nodeId, localFileList)
    {
      fileInfo := IntText(nodeId) + ";";
      for i := 0 to |localFileList|
        invariant fileInfo == ReportText(nodeId, localFileList[..i])
      {
        var request := PrintEntry(localFileList[i]);
        EntriesStep(IntText(nodeId) + ";", localFileList, i);
        fileInfo := fileInfo + request;
      }
      assert localFileList[..|localFileList|] == localFileList;
    }

    /** snprintf of one entry */
    method PrintEntry(f: File) returns (request: string)
      ensures request == Buffered(f)
    {
      request := f.name + ";" + f.checksum + ";";
      if |request| > BUFFER - 1 {
        request := request[..BUFFER - 1];
      }
    }
  }

  // ---------- the lemmas behind the methods ----------

  /** The report of a peer: its id and the entries as the buffer leaves them. */
  function ReportText(id: int, listed: seq<File>): string {
    IntText(id) + ";" + Entries(listed)
  }

  function OnlineAfter(online: bool, received: string): bool {
    if received == "SUCCESS" then true else if received == "" then false else online
  }

  /** After a run of attempts: only a write sends a report. */
  function OnlineThen(online: bool, rounds: seq<Round>, trace: seq<Attempt>): bool {
    if Succeeded(trace) && |trace| <= |rounds| then OnlineAfter(online, rounds[|trace| - 1].tracker) else online
  }

  lemma {:induction false} OnlineGrows(online: bool, rounds: seq<Round>, trace: seq<Attempt>, attempt: Attempt)
    requires |trace| < |rounds| && !Succeeded(trace)
    ensures OnlineThen(online, rounds, trace) == online
    ensures OnlineThen(online, rounds, trace + [attempt]) ==
            if attempt.outcome.Written? then OnlineAfter(online, rounds[|trace|].tracker) else online
  {
  }

  lemma {:induction false} EntriesStep(head: string, files: seq<File>, i: nat)
    requires i < |files|
    ensures head + Entries(files[..i + 1]) == (head + Entries(files[..i])) + Buffered(files[i])
  {
    assert files[..i + 1][..i] == files[..i];
  }

  lemma {:induction false} AttemptIsLegal(peer: Peer, nodes: seq<ServerInfo>, filename: string, round: Round,
                                          attempt: Attempt)
    requires PeerOk(peer) && IdsWithin(LoadsOf(nodes, round.polls), |peer.dist|)
    requires IsMinLoad(LoadsOf(nodes, round.polls), peer.dist, attempt.chosen) && 0 <= attempt.chosen < |peer.dist|
    requires attempt.outcome == OutcomeOf(peer, nodes, attempt.chosen, filename, round.network)
    ensures LegalAttempt(peer, nodes, filename, round, attempt)
  {
  }

  function CandidatesIn(received: string): seq<ServerInfo> {
    match Tracker.Decode(Tokens(received, {';'}))
    case None => []
    case Some(nodes) => if received == "" || received == "EMPTY" then [] else nodes
  }

  /** The candidates are the nodes the tracker put into its reply, none for EMPTY. */
  lemma {:induction false} CandidatesOfReply(nodes: seq<ServerInfo>)
    requires Tracker.HostsOk(nodes)
    ensures CandidatesIn(Tracker.ReplyFor(nodes)) == nodes
    ensures CandidatesIn("") == []
  {
    Tracker.ReplyRoundTrip(nodes);
    if nodes == [] {
      Tracker.EmptyIsNoList();
    } else {
      assert Tracker.Decode(Tokens("", {';'})) == Tracker.Some([]);
    }
  }

  /** So the candidates of a download are exactly the clients that ever sent a report naming the file. */
  lemma {:induction false} CandidatesAreSenders(acts: seq<Tracker.Act>, host: string, port: int, filename: string)
    returns (keys: seq<Tracker.Key>)
    requires forall i :: 0 <= i < |acts| ==> Tracker.ActOk(acts[i])
    requires Tracker.AllFit(acts)
    requires host != "" && Free(host, {';'}) && filename != "" && Free(filename, {';'})
    ensures CandidatesIn(Tracker.ReplyTo(Tracker.ListAfterTexts(Tracker.DatagramsOf(acts)),
                                         Tracker.FindMessage(host, port, filename))) == Tracker.NodesOf(keys)
    ensures forall key :: key in keys <==> exists i :: 0 <= i < |acts| && Tracker.Named(acts[i], key, filename)
  {
    keys := Tracker.LookUpFindsSenders(acts, host, port, filename);
    if keys == [] {
      assert Tracker.NodesOf(keys) == [];
    } else {
      assert Tracker.Decode(Tokens("", {';'})) == Tracker.Some([]);
    }
  }

  /** Communicate: the operation, where to answer, and the request. */
  function CommunicateText(operation: string, ip: string, port: int, request: string): string {
    Closed([operation, ip, IntText(port)]) + request
  }

  /** What UpdateList sends is a report of this peer under its address and port; and what Find sends, and a routed
      request at each hop, are the messages that their receivers read. */
  lemma {:induction false} SentAsRead(id: int, ip: string, port: int, listed: seq<File>, filename: string)
    ensures CommunicateText("UPDATELIST", ip, port, ReportText(id, listed)) ==
            Tracker.UpdateMessage(Tracker.Report(Tracker.Key(id, ip, port), listed))
    ensures CommunicateText("FIND", ip, port, filename) == Tracker.FindMessage(ip, port, filename)
    ensures CommunicateText("DOWNLOAD", ip, port, filename) == DownloadText(ip, port, filename)
  {
    var head := ["UPDATELIST", ip, IntText(port)];
    ClosedAppend(head, IntText(id));
    assert head + [IntText(id)] == ["UPDATELIST", ip, IntText(port), IntText(id)];
    assert Closed(head) + (IntText(id) + ";" + Entries(listed)) == (Closed(head) + IntText(id) + ";") + Entries(listed);
  }

  /** So the tracker reads of it the id, address and port of the peer, and the files if they fit. */
  lemma {:induction false} ReportIsRead(id: int, ip: string, port: int, listed: seq<File>)
    requires ip != "" && Free(ip, {';'}) && FilesOk(listed) && Fits(listed)
    ensures
      var tokens := Tokens(CommunicateText("UPDATELIST", ip, port, ReportText(id, listed)), {';'});
      && TokenAt(tokens, 0) == "UPDATELIST"
      && Tracker.ParseReport(tokens) == Tracker.Report(Tracker.Key(id, ip, port), listed)
  {
    var r := Tracker.Report(Tracker.Key(id, ip, port), listed);
    SentAsRead(id, ip, port, listed, "");
    Tracker.UpdateIsRead(r);
    Tracker.UpdateRoundTripIff(r);
  }

  function Stored(files: map<string, string>, filename: string, trace: seq<Attempt>): map<string, string> {
    if Succeeded(trace) then files[filename := Last(trace).outcome.content] else files
  }

  lemma {:induction false} TraceGrows(peer: Peer, nodes: seq<ServerInfo>, filename: string, rounds: seq<Round>,
                                      trace: seq<Attempt>, attempt: Attempt)
    requires PeerOk(peer) && Legal(peer, nodes, filename, rounds, trace) && !Finished(nodes, trace)
             && |trace| < |rounds|
    requires LegalAttempt(peer, Remaining(nodes, trace), filename, rounds[|trace|], attempt)
    ensures Legal(peer, nodes, filename, rounds, trace + [attempt])
    ensures Remaining(nodes, trace + [attempt]) ==
            if attempt.outcome.Local? || attempt.outcome.Failed? then Removed(Remaining(nodes, trace), attempt.chosen)
            else Remaining(nodes, trace)
    ensures Last(trace + [attempt]) == attempt
  {
    assert (trace + [attempt])[..|trace|] == trace;
  }

  lemma {:induction false} PackedEnd(addrs: seq<string>, filename: string)
    ensures Closed(addrs) + "$;" + filename == Packed(addrs, filename)
  {
  }

  /** The distances are those of the graph, with INT_MAX for a node no walk lighter than that
      reaches, and the row of each node in reach ends there. */
  ghost predicate TrueRoutes(adj: Adjacency, peer: Peer) {
    && PeerOk(peer) && |peer.dist| == |adj| && RowsEnd(peer)
    && (forall v :: 0 <= v < |adj| ==> (peer.dist[v] != INT_MAX <==> Near(adj, peer.id, v)))
    && (forall v :: 0 <= v < |adj| && peer.dist[v] != INT_MAX ==> IsDistance(adj, peer.id, v, peer.dist[v]))
  }

  lemma {:induction false} RoutesAreTrue(adj: Adjacency, peer: Peer, routes: seq<seq<Edge>>)
    requires Nearest(adj, peer.id, peer.dist, routes) && peer.rows == RowsOf(routes)
    ensures TrueRoutes(adj, peer)
  {
  }

  /** From the shortest-path run to the disk of the chosen node: within MAX_LATENCY the request
      takes as many hops as the recorded route has edges, the route is simple and weighs
      exactly the distance, and the last hop is at the node's own address, for the
      unchanged file name. */
  lemma {:induction false} PlannedRouteDelivers(adj: Adjacency, peer: Peer, routes: seq<seq<Edge>>,
                                                nodes: seq<ServerInfo>, end: int,
                             filename: string, senders: seq<Sender>)
    requires WellFormed(adj) && Nearest(adj, peer.id, peer.dist, routes) && peer.rows == RowsOf(routes)
    requires 0 <= end < |adj| && end != peer.id && RouteOk(adj, peer.id, end, routes[end])
    requires peer.dist[end] <= MAX_LATENCY && AddrOf(nodes, end) != ""
    requires Hops([peer.ip]) && forall k :: 0 <= k < |nodes| ==> Free(nodes[k].addr, {';'}) && nodes[k].addr != "$"
    requires SendersOk(senders) && |senders| == |routes[end]|
    ensures
      var addrs := ForwardAddrs(peer, nodes, end);
      && |addrs| == |routes[end]| > 0 && addrs[|addrs| - 1] == AddrOf(nodes, end)
      && Course(RoutedRequest(peer, nodes, end, filename), senders, addrs, filename)
      && Simple(peer.id, routes[end]) && IsDistance(adj, peer.id, end, Weight(routes[end]))
  {
    HopsOfKnown(peer.rows[end], nodes, peer.ip);
    RouteDelivers(adj, peer.id, routes[end], nodes, peer.ip, filename, senders);
  }

  lemma {:induction false} RemovedIsPart(nodes: seq<ServerInfo>, id: int, n: int)
    requires NodesWithin(nodes, n)
    ensures NodesWithin(Removed(nodes, id), n)
  {
    if nodes != [] {
      RemovedIsPart(nodes[1..], id, n);
    }
  }

  lemma {:induction false} RemovedWithin(nodes: seq<ServerInfo>, n: int)
    requires NodesWithin(nodes, n)
    ensures forall id :: NodesWithin(Removed(nodes, id), n)
  {
    forall id
      ensures NodesWithin(Removed(nodes, id), n)
    {
      RemovedIsPart(nodes, id, n);
    }
  }

  /** The nodes read so far followed by what the remaining tokens hold. */
  function Ahead(nodes: seq<ServerInfo>, tokens: seq<string>): Tracker.Option<seq<ServerInfo>> {
    match Tracker.Decode(tokens)
    case None => Tracker.None
    case Some(rest) => Tracker.Some(nodes + rest)
  }

  lemma {:induction false} DecodeAhead(nodes: seq<ServerInfo>, tokens: seq<string>)
    requires nodes == []
    ensures Ahead(nodes, tokens) == Tracker.Decode(tokens)
  {
    assert forall rest: seq<ServerInfo> :: nodes + rest == rest;
  }

  lemma {:induction false} AheadStep(nodes: seq<ServerInfo>, nextId: string, rest: seq<string>)
    requires nextId != ""
    ensures Ahead(nodes, Tracker.Pending(nextId, rest)) ==
            if !HasNumber(nextId) then Tracker.None
            else Ahead(nodes + [ServerInfo(TokenAt(rest, 0), Atoi(nextId))], After(rest))
  {
    assert ([nextId] + rest)[1..] == rest;
    var x := ServerInfo(TokenAt(rest, 0), Atoi(nextId));
    match Tracker.Decode(After(rest))
    case None =>
    case Some(more) => SnocAppend(nodes, x, more);
  }
}
