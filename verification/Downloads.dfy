/** The retry loop of a download as a sequence of attempts: what each one may do, and what a whole
    run adds up to. The network, the loads and the disks of other peers are parameters. */
module Downloads {
  import opened Sequences
  import opened Text
  import opened Tokenizer
  import opened Routing
  import opened MinLoad
  import opened Attempts

  const CHECKSUM_LENGTH: nat := 32
  const MAX_FILESIZE: nat := 65536

  // ---------- files and their checksums; md5 is any function on strings ----------

  /** PackFileInfo on what a shared directory holds: the checksum in front of the content, which is
      read with one NUL behind it; "" for a file that is missing or too long. */
  function PackFile(md5: string -> string, files: map<string, string>, filename: string): string {
    if filename !in files || |files[filename]| >= MAX_FILESIZE then ""
    else md5(CStr(files[filename] + "\0")) + (files[filename] + "\0")
  }

  function Checksum(data: string): string {
    if |data| <= CHECKSUM_LENGTH then data else data[..CHECKSUM_LENGTH]
  }

  function Body(data: string): string {
    if |data| <= CHECKSUM_LENGTH then "" else data[CHECKSUM_LENGTH..]
  }

  predicate Intact(md5: string -> string, data: string) {
    Checksum(data) == md5(CStr(Body(data)))
  }

  /** A reply counts as intact exactly if its first 32 characters are the MD5 of the C string behind them. */
  lemma {:induction false} IntactIff(md5: string -> string, data: string)
    requires Md5Ok(md5)
    ensures Intact(md5, data) <==> |data| >= 32 && data[..32] == md5(CStr(data[32..]))
    ensures Intact(md5, data) ==> Judge(md5, data) == Written(data[32..])
    ensures !Intact(md5, data) ==> Judge(md5, data) == Mismatch
  {
    assert |data| == 32 ==> data[..32] == data && data[32..] == "";
    assert CStr("") == "";
  }

  /** A peer has nothing to send exactly for a file that it lacks or that has 65536 characters or more. */
  lemma {:induction false} PackFileIff(md5: string -> string, files: map<string, string>, filename: string)
    ensures PackFile(md5, files, filename) == "" <==> filename !in files || |files[filename]| >= 65536
    ensures PackFile(md5, files, filename) != "" ==>
              PackFile(md5, files, filename) == md5(CStr(files[filename])) + files[filename] + "\0"
  {
    if filename in files {
      CStrOfTerminated(files[filename]);
      Associate(md5(CStr(files[filename])), files[filename], "\0");
    }
  }

  /** What crosses the network of a packed file passes the checksum test, and is the file up to
      its first NUL: the test does not notice that the rest is missing. */
  lemma {:induction false} PackedFileArrives(md5: string -> string, files: map<string, string>, filename: string)
    requires filename in files && |files[filename]| < MAX_FILESIZE
    requires Md5Ok(md5)
    ensures
      var data := CStr(PackFile(md5, files, filename));
      && data == md5(CStr(files[filename])) + CStr(files[filename])
      && data != "" && Intact(md5, data) && Body(data) == CStr(files[filename])
      && (Body(data) == files[filename] <==> Free(files[filename], {'\0'}))
  {
    var f := files[filename];
    CStrOfTerminated(f);
    CStrAppend(md5(CStr(f)), f + "\0");
    CStrPrefix(f);
    CStrTwice(f);
    var data := md5(CStr(f)) + CStr(f);
    assert CStr(PackFile(md5, files, filename)) == data;
    assert data[..CHECKSUM_LENGTH] == md5(CStr(f));
    assert |data| > CHECKSUM_LENGTH ==> data[CHECKSUM_LENGTH..] == CStr(f);
  }

  lemma {:induction false} CStrOfTerminated(s: string)
    ensures CStr(s + "\0") == CStr(s)
  {
    if s != "" {
      assert (s + "\0")[1..] == s[1..] + "\0";
      CStrOfTerminated(s[1..]);
    } else {
      assert s + "\0" == "\0";
    }
  }

  // ---------- one attempt ----------

  /** What a downloading peer goes by: its id, its address, the distances and route rows of its
      shortest-path run, its checksum function and its own shared directory. */
  datatype Peer = Peer(id: int, ip: string, dist: seq<int>, rows: seq<seq<int>>,
                       md5: string -> string, files: map<string, string>)

  predicate PeerOk(peer: Peer) {
    |peer.dist| == |peer.rows|
  }

  predicate NodesWithin(nodes: seq<ServerInfo>, n: int) {
    forall i :: 0 <= i < |nodes| ==> 0 <= nodes[i].id < n
  }

  /** What the others do during one attempt: the replies to the load questions, the reply to a
      request handed to an address, and the tracker's reply to a report, "" where none comes. */
  datatype Round = Round(polls: nat -> string, network: (string, string) -> string, tracker: string)

  /** The addresses FillForwardList comes up with; none for a node farther than MAX_LATENCY. */
  function ForwardAddrs(peer: Peer, nodes: seq<ServerInfo>, chosen: int): seq<string>
    requires PeerOk(peer) && 0 <= chosen < |peer.dist|
  {
    if peer.dist[chosen] > MAX_LATENCY then [] else Resolved(peer.rows[chosen], nodes, peer.ip)
  }

  function RoutedRequest(peer: Peer, nodes: seq<ServerInfo>, chosen: int, filename: string): string
    requires PeerOk(peer) && 0 <= chosen < |peer.dist|
  {
    Packed(ForwardAddrs(peer, nodes, chosen), filename)
  }

  function DirectRequest(nodes: seq<ServerInfo>, chosen: int, filename: string): string {
    AddrOf(nodes, chosen) + ";$;" + filename
  }

  /** ForwardDownload: ask the first address, or look at the peer's own directory. */
  function ReplyFrom(md5: string -> string, files: map<string, string>, request: string,
                     network: (string, string) -> string): string {
    match HopOf(request)
    case Serve(filename) => PackFile(md5, files, filename)
    case Forward(addr, rest) => network(addr, rest)
  }

  function ReplyTo(peer: Peer, request: string, network: (string, string) -> string): string {
    ReplyFrom(peer.md5, peer.files, request, network)
  }

  /** The routed reply, or the reply to the direct request where that stays away. */
  function Fetched(peer: Peer, nodes: seq<ServerInfo>, chosen: int, filename: string,
                   network: (string, string) -> string): string
    requires PeerOk(peer) && 0 <= chosen < |peer.dist|
  {
    var routed := ReplyTo(peer, RoutedRequest(peer, nodes, chosen, filename), network);
    if routed != "" then routed else ReplyTo(peer, DirectRequest(nodes, chosen, filename), network)
  }

  /** ValidatePackedData */
  function Judge(md5: string -> string, data: string): Outcome {
    if Intact(md5, data) then Written(Body(data)) else Mismatch
  }

  function OutcomeOf(peer: Peer, nodes: seq<ServerInfo>, chosen: int, filename: string,
                     network: (string, string) -> string): Outcome
    requires PeerOk(peer) && 0 <= chosen < |peer.dist|
  {
    if chosen == peer.id then Local
    else
      var data := Fetched(peer, nodes, chosen, filename, network);
      if data != "" then Judge(peer.md5, data) else Failed
  }

  // ---------- a run of attempts ----------

  /** trace is what the loop may do when the world behaves as in rounds. */
  ghost predicate Legal(peer: Peer, nodes: seq<ServerInfo>, filename: string, rounds: seq<Round>, trace: seq<Attempt>)
    requires PeerOk(peer)
  {
    trace == [] || (|trace| <= |rounds|
      && Legal(peer, nodes, filename, rounds, trace[..|trace| - 1])
      && !Finished(nodes, trace[..|trace| - 1])
      && LegalAttempt(peer, Remaining(nodes, trace[..|trace| - 1]), filename, rounds[|trace| - 1], Last(trace)))
  }

  ghost predicate LegalAttempt(peer: Peer, now: seq<ServerInfo>, filename: string, round: Round, attempt: Attempt)
    requires PeerOk(peer)
  {
    && IdsWithin(LoadsOf(now, round.polls), |peer.dist|)
    && IsMinLoad(LoadsOf(now, round.polls), peer.dist, attempt.chosen)
    && 0 <= attempt.chosen < |peer.dist|
    && attempt.outcome == OutcomeOf(peer, now, attempt.chosen, filename, round.network)
  }

  lemma {:induction false} ChosenIsListed(now: seq<ServerInfo>, polls: nat -> string, dist: seq<int>, chosen: int)
    requires IdsWithin(LoadsOf(now, polls), |dist|) && IsMinLoad(LoadsOf(now, polls), dist, chosen)
    ensures Listed(now, chosen)
  {
    var polled := LoadsOf(now, polls);
    var x :| LeastOf(polled, dist, x) && x.id == chosen;
    var k :| 0 <= k < |polled| && polled[k] == x;
    assert now[k].id == chosen;
  }

  lemma {:induction false} LegalStep(peer: Peer, nodes: seq<ServerInfo>, filename: string, rounds: seq<Round>,
                                     trace: seq<Attempt>)
    requires PeerOk(peer) && trace != [] && Legal(peer, nodes, filename, rounds, trace)
    ensures Legal(peer, nodes, filename, rounds, trace[..|trace| - 1]) && !Finished(nodes, trace[..|trace| - 1])
    ensures |trace| <= |rounds|
    ensures LegalAttempt(peer, Remaining(nodes, trace[..|trace| - 1]), filename, rounds[|trace| - 1], Last(trace))
  {
  }

  /** What the download loop does is a well-run sequence of attempts, so all of Attempts applies. */
  lemma {:induction false} LegalIsWellRun(peer: Peer, nodes: seq<ServerInfo>, filename: string,
                                          rounds: seq<Round>, trace: seq<Attempt>)
    requires PeerOk(peer) && Legal(peer, nodes, filename, rounds, trace)
    ensures WellRun(nodes, trace)
    decreases |trace|
  {
    if trace != [] {
      LegalStep(peer, nodes, filename, rounds, trace);
      var before := trace[..|trace| - 1];
      LegalIsWellRun(peer, nodes, filename, rounds, before);
      ChosenIsListed(Remaining(nodes, before), rounds[|trace| - 1].polls, peer.dist, Last(trace).chosen);
    }
  }

  // ---------- where written data comes from ----------

  predicate HasFile(files: map<string, string>, filename: string) {
    filename in files && |files[filename]| < MAX_FILESIZE
  }

  /** The chosen node is too far for a route, and the peer has a copy that can be packed. */
  predicate ServesItself(peer: Peer, chosen: int, filename: string)
    requires 0 <= chosen < |peer.dist|
  {
    peer.dist[chosen] > MAX_LATENCY && HasFile(peer.files, filename)
  }

  ghost predicate Md5Ok(md5: string -> string) {
    forall s :: |md5(s)| == CHECKSUM_LENGTH && Free(md5(s), {'\0'})
  }

  predicate NodesOk(nodes: seq<ServerInfo>, ip: string) {
    Hops([ip]) && forall k :: 0 <= k < |nodes| ==> Hops([nodes[k].addr])
  }

  /** Every node in reach has a route that ends there. */
  predicate RowsEnd(peer: Peer)
    requires PeerOk(peer)
  {
    forall v :: 0 <= v < |peer.dist| && v != peer.id && peer.dist[v] <= MAX_LATENCY ==>
      peer.rows[v] != [] && Last(peer.rows[v]) == v
  }

  /** Out of reach the request has no address in it, and the peer answers it itself: whatever the
      network does, its own copy is written again with one NUL more. */
  lemma {:induction false} OwnCopyWritten(peer: Peer, nodes: seq<ServerInfo>, chosen: int, filename: string,
                                          network: (string, string) -> string)
    requires PeerOk(peer) && 0 <= chosen < |peer.dist| && chosen != peer.id && Md5Ok(peer.md5)
    requires ServesItself(peer, chosen, filename)
    ensures OutcomeOf(peer, nodes, chosen, filename, network) == Written(peer.files[filename] + "\0")
  {
    PackedJourney([], filename);
    JourneyHead(Packed([], filename), [], filename);
    var copy := peer.files[filename] + "\0";
    var sum := peer.md5(CStr(copy));
    assert (sum + copy)[..CHECKSUM_LENGTH] == sum && (sum + copy)[CHECKSUM_LENGTH..] == copy;
    assert Intact(peer.md5, sum + copy);
  }

  lemma {:induction false} RouteLeaves(addrs: seq<string>, filename: string)
    requires Hops(addrs)
    ensures addrs == [] ==> HopOf(Packed(addrs, filename)) == Serve(filename)
    ensures addrs != [] ==> HopOf(Packed(addrs, filename)) == Forward(addrs[0], Packed(addrs[1..], filename))
  {
    PackedJourney(addrs, filename);
    JourneyHead(Packed(addrs, filename), addrs, filename);
    if addrs != [] {
      ClosedStep(addrs, "$;" + filename);
      TokenListTail(addrs, {';'});
      DropOne(addrs[0], Packed(addrs[1..], filename));
    }
  }

  lemma {:induction false} DirectIsPacked(nodes: seq<ServerInfo>, chosen: int, filename: string)
    ensures DirectRequest(nodes, chosen, filename) == Packed([AddrOf(nodes, chosen)], filename)
  {
    var addr := AddrOf(nodes, chosen);
    assert Closed([addr][1..]) == "";
    assert Closed([addr]) == addr + ";" + "";
  }

  /** A node in reach is asked by way of its route, and the answer of the first hop decides; only where none comes is
      the node asked directly. */
  lemma {:induction false} RouteFirst(peer: Peer, nodes: seq<ServerInfo>, chosen: int, filename: string,
                                      network: (string, string) -> string)
    requires PeerOk(peer) && 0 <= chosen < |peer.dist| && chosen != peer.id && peer.dist[chosen] <= 200000
    requires RowsEnd(peer) && NodesOk(nodes, peer.ip) && Listed(nodes, chosen)
    ensures
      var addrs, at := Resolved(peer.rows[chosen], nodes, peer.ip), AddrOf(nodes, chosen);
      && addrs != [] && Last(addrs) == at
      && var routed, direct := network(addrs[0], Packed(addrs[1..], filename)), network(at, "$;" + filename);
         OutcomeOf(peer, nodes, chosen, filename, network) ==
           if routed != "" then Judge(peer.md5, routed)
           else if direct != "" then Judge(peer.md5, direct)
           else Failed
  {
    var addrs, at := Resolved(peer.rows[chosen], nodes, peer.ip), AddrOf(nodes, chosen);
    ChosenAddr(nodes, chosen);
    HopsResolved(peer.rows[chosen], nodes, peer.ip);
    RouteLeaves(addrs, filename);
    DirectIsPacked(nodes, chosen, filename);
    RouteLeaves([at], filename);
    assert [at][1..] == [] && Packed([], filename) == "$;" + filename;
  }

  /** Otherwise what is fetched is a reply of the network. */
  lemma {:induction false} FetchedFromNetwork(peer: Peer, nodes: seq<ServerInfo>, chosen: int, filename: string,
                                              network: (string, string) -> string)
    requires PeerOk(peer) && 0 <= chosen < |peer.dist| && chosen != peer.id && RowsEnd(peer)
    requires NodesOk(nodes, peer.ip) && Listed(nodes, chosen) && !ServesItself(peer, chosen, filename)
    ensures exists addr, rest :: IsReply(network, addr, rest, Fetched(peer, nodes, chosen, filename, network))
  {
    ChosenAddr(nodes, chosen);
    DirectIsPacked(nodes, chosen, filename);
    var addrs, direct := ForwardAddrs(peer, nodes, chosen), [AddrOf(nodes, chosen)];
    HopsResolved(peer.rows[chosen], nodes, peer.ip);
    RouteLeaves(addrs, filename);
    RouteLeaves(direct, filename);
    var data := Fetched(peer, nodes, chosen, filename, network);
    if addrs != [] && network(addrs[0], Packed(addrs[1..], filename)) != "" {
      assert IsReply(network, addrs[0], Packed(addrs[1..], filename), data);
    } else {
      assert IsReply(network, direct[0], Packed(direct[1..], filename), data);
    }
  }

  ghost predicate IsReply(network: (string, string) -> string, addr: string, rest: string, data: string) {
    data == network(addr, rest)
  }

  lemma {:induction false} ChosenAddr(nodes: seq<ServerInfo>, id: int)
    requires Listed(nodes, id) && forall k :: 0 <= k < |nodes| ==> Hops([nodes[k].addr])
    ensures Hops([AddrOf(nodes, id)]) && AddrOf(nodes, id) != "" && ServerInfo(AddrOf(nodes, id), id) in nodes
  {
    if nodes[0].id == id {
      assert nodes[0] == ServerInfo(AddrOf(nodes, id), id);
      assert [nodes[0].addr][0] != "";
    } else {
      var k :| 0 <= k < |nodes| && nodes[k].id == id;
      assert nodes[1..][k - 1].id == id;
      ChosenAddr(nodes[1..], id);
    }
  }

  lemma {:induction false} HopsResolved(ids: seq<int>, nodes: seq<ServerInfo>, ip: string)
    requires NodesOk(nodes, ip)
    ensures Hops(Resolved(ids, nodes, ip))
  {
    forall k | 0 <= k < |nodes|
      ensures Free(nodes[k].addr, {';'}) && nodes[k].addr != "$"
    {
      assert Hops([nodes[k].addr]) && [nodes[k].addr][0] == nodes[k].addr;
    }
    HopsOfKnown(ids, nodes, ip);
  }

  /** What a run writes is the body of a reply of the network that carries a fitting checksum, but
      for a node out of reach of a peer with a copy of its own: then it is that copy. */
  lemma {:induction false} WrittenFrom(peer: Peer, nodes: seq<ServerInfo>, filename: string, rounds: seq<Round>,
                                       trace: seq<Attempt>)
    requires PeerOk(peer) && RowsEnd(peer) && Md5Ok(peer.md5) && NodesOk(nodes, peer.ip)
    requires Legal(peer, nodes, filename, rounds, trace) && Succeeded(trace)
    ensures |trace| <= |rounds| && 0 <= Last(trace).chosen < |peer.dist| && Last(trace).chosen != peer.id
    ensures ServesItself(peer, Last(trace).chosen, filename) ==>
            Last(trace).outcome == Written(peer.files[filename] + "\0")
    ensures !ServesItself(peer, Last(trace).chosen, filename) ==>
              exists addr, rest {:trigger rounds[|trace| - 1].network(addr, rest)} ::
                var data := rounds[|trace| - 1].network(addr, rest);
                |data| >= 32 && data[..32] == peer.md5(CStr(data[32..])) && Last(trace).outcome == Written(data[32..])
  {
    LegalStep(peer, nodes, filename, rounds, trace);
    var now, round := Remaining(nodes, trace[..|trace| - 1]), rounds[|trace| - 1];
    var chosen := Last(trace).chosen;
    RemainingOk(peer, nodes, trace[..|trace| - 1]);
    ChosenIsListed(now, round.polls, peer.dist, chosen);
    if ServesItself(peer, chosen, filename) {
      OwnCopyWritten(peer, now, chosen, filename, round.network);
    } else {
      FetchedFromNetwork(peer, now, chosen, filename, round.network);
      var addr, rest :| IsReply(round.network, addr, rest, Fetched(peer, now, chosen, filename, round.network));
      IntactIff(peer.md5, round.network(addr, rest));
    }
  }

  lemma {:induction false} RemainingOk(peer: Peer, nodes: seq<ServerInfo>, trace: seq<Attempt>)
    requires NodesOk(nodes, peer.ip)
    ensures NodesOk(Remaining(nodes, trace), peer.ip)
  {
    var now := Remaining(nodes, trace);
    forall k | 0 <= k < |now|
      ensures Hops([now[k].addr])
    {
      RemainingFrom(nodes, trace, now[k]);
    }
  }

  /** Nothing is learned from a mismatch: a world where every reply to everyone is the same broken
      data keeps the loop going for as many rounds as one likes. */
  lemma {:induction false} BrokenRepliesNeverEnd(peer: Peer, nodes: seq<ServerInfo>, filename: string,
                                                 rounds: seq<Round>, trace: seq<Attempt>, bad: string)
    requires PeerOk(peer) && Legal(peer, nodes, filename, rounds, trace)
    requires nodes != [] && bad != "" && !Intact(peer.md5, bad)
    requires forall k :: 0 <= k < |nodes| ==> nodes[k].id != peer.id
    requires forall i :: 0 <= i < |rounds| ==> forall addr, rest :: rounds[i].network(addr, rest) == bad
    requires forall k :: 0 <= k < |nodes| && 0 <= nodes[k].id < |peer.dist| ==>
               HopOf(RoutedRequest(peer, nodes, nodes[k].id, filename)).Forward?
    ensures Remaining(nodes, trace) == nodes && !Finished(nodes, trace) && Mismatches(trace) == |trace|
    decreases |trace|
  {
    if trace != [] {
      LegalStep(peer, nodes, filename, rounds, trace);
      var before := trace[..|trace| - 1];
      BrokenRepliesNeverEnd(peer, nodes, filename, rounds, before, bad);
      ChosenIsListed(nodes, rounds[|trace| - 1].polls, peer.dist, Last(trace).chosen);
      var k :| 0 <= k < |nodes| && nodes[k].id == Last(trace).chosen;
      assert HopOf(RoutedRequest(peer, nodes, nodes[k].id, filename)).Forward?;
    }
  }

  // ---------- a network in which every peer on the way answers ----------

  /** The disks of all peers, by address. */
  type Disks = string -> map<string, string>

  function Serving(md5: string -> string, disks: Disks): (string, string) -> string {
    (at, filename) => PackFile(md5, disks(at), filename)
  }

  /** The reply that reaches the asking peer when the request travels hop by hop. */
  function HonestNetwork(md5: string -> string, disks: Disks): (string, string) -> string {
    (addr, rest) => CStr(Answer(Serving(md5, disks), addr, rest))
  }

  /** The reply of the honest network to a packed route is what its last peer packs. */
  lemma {:induction false} HonestReply(peer: Peer, addrs: seq<string>, filename: string, disks: Disks)
    requires Hops(addrs) && addrs != []
    ensures ReplyTo(peer, Packed(addrs, filename), HonestNetwork(peer.md5, disks)) ==
            CStr(PackFile(peer.md5, disks(Last(addrs)), filename))
  {
    var request := Packed(addrs, filename);
    PackedJourney(addrs, filename);
    JourneyHead(request, addrs, filename);
    AnswerFromLast(Serving(peer.md5, disks), addrs[0], HopOf(request).rest, addrs[1..], filename);
    CStrTwice(PackFile(peer.md5, disks(Last(addrs)), filename));
  }

  /** End to end, if the peers on the way answer: an attempt at a node that has the file writes that
      file as a C string exactly if the node is in reach or the peer has no copy of its own; and
      then it arrives unharmed exactly if it holds no NUL. */
  lemma {:induction false} HonestAttemptIff(peer: Peer, nodes: seq<ServerInfo>, chosen: int, filename: string,
                                            disks: Disks)
    requires PeerOk(peer) && 0 <= chosen < |peer.dist| && chosen != peer.id && RowsEnd(peer) && Md5Ok(peer.md5)
    requires NodesOk(nodes, peer.ip) && Listed(nodes, chosen) && HasFile(disks(AddrOf(nodes, chosen)), filename)
    ensures
      var file := disks(AddrOf(nodes, chosen))[filename];
      var outcome := OutcomeOf(peer, nodes, chosen, filename, HonestNetwork(peer.md5, disks));
      && (outcome == Written(CStr(file)) <==> !ServesItself(peer, chosen, filename))
      && (!ServesItself(peer, chosen, filename) ==> (outcome == Written(file) <==> Free(file, {'\0'})))
  {
    var at := AddrOf(nodes, chosen);
    PackedFileArrives(peer.md5, disks(at), filename);
    CStrPrefix(disks(at)[filename]);
    if ServesItself(peer, chosen, filename) {
      OwnCopyWritten(peer, nodes, chosen, filename, HonestNetwork(peer.md5, disks));
      var copy := peer.files[filename] + "\0";
      assert copy[|copy| - 1] == '\0';
    } else {
      HonestFetch(peer, nodes, chosen, filename, disks);
    }
  }

  lemma {:induction false} HonestFetch(peer: Peer, nodes: seq<ServerInfo>, chosen: int, filename: string, disks: Disks)
    requires PeerOk(peer) && 0 <= chosen < |peer.dist| && chosen != peer.id && RowsEnd(peer) && Md5Ok(peer.md5)
    requires NodesOk(nodes, peer.ip) && Listed(nodes, chosen) && HasFile(disks(AddrOf(nodes, chosen)), filename)
    requires !ServesItself(peer, chosen, filename)
    ensures Fetched(peer, nodes, chosen, filename, HonestNetwork(peer.md5, disks)) ==
            CStr(PackFile(peer.md5, disks(AddrOf(nodes, chosen)), filename))
  {
    var at := AddrOf(nodes, chosen);
    ChosenAddr(nodes, chosen);
    PackedFileArrives(peer.md5, disks(at), filename);
    if peer.dist[chosen] <= MAX_LATENCY {
      var addrs := Resolved(peer.rows[chosen], nodes, peer.ip);
      HopsResolved(peer.rows[chosen], nodes, peer.ip);
      assert Last(addrs) == at;
      HonestReply(peer, addrs, filename, disks);
    } else {
      RouteLeaves([], filename);
      DirectIsPacked(nodes, chosen, filename);
      HonestReply(peer, [at], filename, disks);
    }
  }

  // ---------- a whole download among honest peers ----------

  ghost predicate AllHonest(peer: Peer, rounds: seq<Round>, disks: Disks) {
    forall i :: 0 <= i < |rounds| ==> rounds[i].network == HonestNetwork(peer.md5, disks)
  }

  /** Every peer answers honestly, addresses can be routed to, and md5 looks like MD5. */
  ghost predicate HonestSetting(peer: Peer, nodes: seq<ServerInfo>, rounds: seq<Round>, disks: Disks) {
    PeerOk(peer) && RowsEnd(peer) && Md5Ok(peer.md5) && NodesOk(nodes, peer.ip) && AllHonest(peer, rounds, disks)
  }

  /** The candidate x can be had: it is another node that still has the file, or one out of reach of a
      peer that answers itself. The tracker forgets no report, so having reported it is not enough. */
  predicate CanBeHad(peer: Peer, x: ServerInfo, filename: string, disks: Disks) {
    && x.id != peer.id && 0 <= x.id < |peer.dist|
    && (HasFile(disks(x.addr), filename) || ServesItself(peer, x.id, filename))
  }

  /** What is written for the candidate x. */
  function Obtained(peer: Peer, x: ServerInfo, filename: string, disks: Disks): string
    requires CanBeHad(peer, x, filename, disks)
  {
    if ServesItself(peer, x.id, filename) then peer.files[filename] + "\0" else CStr(disks(x.addr)[filename])
  }

  /** An attempt among honest peers is decided by the first entry of the chosen node. */
  lemma {:induction false} HonestOutcome(peer: Peer, nodes: seq<ServerInfo>, chosen: int, filename: string,
                                         disks: Disks)
    requires PeerOk(peer) && 0 <= chosen < |peer.dist| && RowsEnd(peer) && Md5Ok(peer.md5)
    requires NodesOk(nodes, peer.ip) && Listed(nodes, chosen)
    ensures
      var x := ServerInfo(AddrOf(nodes, chosen), chosen);
      OutcomeOf(peer, nodes, chosen, filename, HonestNetwork(peer.md5, disks)) ==
        if chosen == peer.id then Local
        else if CanBeHad(peer, x, filename, disks) then Written(Obtained(peer, x, filename, disks))
        else Failed
  {
    if chosen != peer.id {
      if ServesItself(peer, chosen, filename) {
        OwnCopyWritten(peer, nodes, chosen, filename, HonestNetwork(peer.md5, disks));
      } else if HasFile(disks(AddrOf(nodes, chosen)), filename) {
        HonestAttemptIff(peer, nodes, chosen, filename, disks);
      } else {
        NothingFetched(peer, nodes, chosen, filename, disks);
      }
    }
  }

  lemma {:induction false} NothingFetched(peer: Peer, nodes: seq<ServerInfo>, chosen: int, filename: string,
                                          disks: Disks)
    requires PeerOk(peer) && 0 <= chosen < |peer.dist| && chosen != peer.id && RowsEnd(peer)
    requires NodesOk(nodes, peer.ip) && Listed(nodes, chosen) && !HasFile(disks(AddrOf(nodes, chosen)), filename)
    requires !ServesItself(peer, chosen, filename)
    ensures Fetched(peer, nodes, chosen, filename, HonestNetwork(peer.md5, disks)) == ""
  {
    var at := AddrOf(nodes, chosen);
    ChosenAddr(nodes, chosen);
    DirectIsPacked(nodes, chosen, filename);
    HonestReply(peer, [at], filename, disks);
    if peer.dist[chosen] <= MAX_LATENCY {
      HopsResolved(peer.rows[chosen], nodes, peer.ip);
      assert Last(Resolved(peer.rows[chosen], nodes, peer.ip)) == at;
      HonestReply(peer, Resolved(peer.rows[chosen], nodes, peer.ip), filename, disks);
    } else {
      RouteLeaves([], filename);
    }
  }

  /** The entry removed is the one that was asked. */
  lemma {:induction false} RemovedWasAsked(nodes: seq<ServerInfo>, id: int, x: ServerInfo)
    requires x in nodes && x !in Removed(nodes, id)
    ensures x == ServerInfo(AddrOf(nodes, id), id)
  {
    if nodes[0].id != id {
      assert x == nodes[0] || x in nodes[1..];
      assert nodes[0] in Removed(nodes, id);
      assert forall y :: y in Removed(nodes[1..], id) ==> y in Removed(nodes, id);
      RemovedWasAsked(nodes[1..], id, x);
    } else {
      assert forall y :: y in nodes[1..] ==> y in Removed(nodes, id);
    }
  }

  lemma {:induction false} HonestLast(peer: Peer, nodes: seq<ServerInfo>, filename: string, rounds: seq<Round>,
                                      trace: seq<Attempt>, disks: Disks) returns (x: ServerInfo)
    requires HonestSetting(peer, nodes, rounds, disks)
    requires Legal(peer, nodes, filename, rounds, trace) && trace != []
    ensures x in nodes && x.id == Last(trace).chosen
    ensures x == ServerInfo(AddrOf(Remaining(nodes, trace[..|trace| - 1]), x.id), x.id)
    ensures Last(trace).outcome ==
              if x.id == peer.id then Local
              else if CanBeHad(peer, x, filename, disks) then Written(Obtained(peer, x, filename, disks))
              else Failed
  {
    LegalStep(peer, nodes, filename, rounds, trace);
    var before, chosen := trace[..|trace| - 1], Last(trace).chosen;
    var now := Remaining(nodes, before);
    RemainingOk(peer, nodes, before);
    ChosenIsListed(now, rounds[|trace| - 1].polls, peer.dist, chosen);
    ChosenAddr(now, chosen);
    x := ServerInfo(AddrOf(now, chosen), chosen);
    RemainingFrom(nodes, before, x);
    HonestOutcome(peer, now, chosen, filename, disks);
  }

  /** No reply is ever broken, and whatever has gone from the list could not be had. */
  lemma {:induction false} HonestSoFar(peer: Peer, nodes: seq<ServerInfo>, filename: string, rounds: seq<Round>,
                                       trace: seq<Attempt>, disks: Disks)
    requires HonestSetting(peer, nodes, rounds, disks)
    requires Legal(peer, nodes, filename, rounds, trace)
    ensures Mismatches(trace) == 0
    ensures forall x :: x in nodes && CanBeHad(peer, x, filename, disks) ==> x in Remaining(nodes, trace)
    decreases |trace|
  {
    if trace != [] {
      LegalStep(peer, nodes, filename, rounds, trace);
      var before := trace[..|trace| - 1];
      HonestSoFar(peer, nodes, filename, rounds, before, disks);
      var asked := HonestLast(peer, nodes, filename, rounds, trace, disks);
      forall x | x in nodes && CanBeHad(peer, x, filename, disks)
        ensures x in Remaining(nodes, trace)
      {
        KeptUnlessAsked(Remaining(nodes, before), asked.id, x);
      }
    }
  }

  lemma {:induction false} KeptUnlessAsked(now: seq<ServerInfo>, id: int, x: ServerInfo)
    requires x in now
    ensures x in Removed(now, id) || x == ServerInfo(AddrOf(now, id), id)
  {
    if x !in Removed(now, id) {
      RemovedWasAsked(now, id, x);
    }
  }

  /** Among honest peers a download makes at most one attempt for each candidate, and once it is over it
      has stored what some candidate that can be had yields, if there is such a candidate, and
      nothing if there is none. */
  lemma {:induction false} HonestRun(peer: Peer, nodes: seq<ServerInfo>, filename: string, rounds: seq<Round>,
                                     trace: seq<Attempt>, disks: Disks)
    requires HonestSetting(peer, nodes, rounds, disks)
    requires Legal(peer, nodes, filename, rounds, trace)
    ensures Mismatches(trace) == 0 && |trace| <= |nodes| && (|trace| == |nodes| ==> Finished(nodes, trace))
    ensures Finished(nodes, trace) ==>
              (Succeeded(trace) <==> exists x :: x in nodes && CanBeHad(peer, x, filename, disks))
    ensures Succeeded(trace) ==> Stores(peer, nodes, filename, trace, disks)
  {
    HonestSoFar(peer, nodes, filename, rounds, trace, disks);
    LegalIsWellRun(peer, nodes, filename, rounds, trace);
    AttemptsBound(nodes, trace);
    FinishedIff(nodes, trace);
    if Succeeded(trace) {
      var x := HonestLast(peer, nodes, filename, rounds, trace, disks);
      assert x in nodes && CanBeHad(peer, x, filename, disks);
    }
  }

  /** The last attempt wrote what its candidate yields. */
  ghost predicate Stores(peer: Peer, nodes: seq<ServerInfo>, filename: string, trace: seq<Attempt>, disks: Disks) {
    trace != [] && exists x :: x in nodes && x.id == Last(trace).chosen && CanBeHad(peer, x, filename, disks)
                               && Last(trace).outcome == Written(Obtained(peer, x, filename, disks))
  }

  /** If all other candidates can be had, one attempt is enough besides those spent on the peer's own entries. */
  lemma {:induction false} HonestRunStores(peer: Peer, nodes: seq<ServerInfo>, filename: string, rounds: seq<Round>,
                                           trace: seq<Attempt>, disks: Disks)
    requires HonestSetting(peer, nodes, rounds, disks)
    requires Legal(peer, nodes, filename, rounds, trace)
    requires forall x :: x in nodes && x.id != peer.id ==> CanBeHad(peer, x, filename, disks)
    requires exists x :: x in nodes && x.id != peer.id
    ensures |trace| <= EntriesFor(nodes, peer.id) + 1
    ensures Finished(nodes, trace) <==> Succeeded(trace)
    ensures |trace| == EntriesFor(nodes, peer.id) + 1 ==> Succeeded(trace)
  {
    HonestSoFar(peer, nodes, filename, rounds, trace, disks);
    LegalIsWellRun(peer, nodes, filename, rounds, trace);
    EntriesForBound(nodes, peer.id);
    if Succeeded(trace) {
      LegalStep(peer, nodes, filename, rounds, trace);
      HonestBefore(peer, nodes, filename, rounds, trace[..|trace| - 1], disks);
      LocalAttempts(nodes, trace[..|trace| - 1], peer.id);
    } else {
      HonestBefore(peer, nodes, filename, rounds, trace, disks);
      LocalAttempts(nodes, trace, peer.id);
    }
  }

  lemma {:induction false} HonestBefore(peer: Peer, nodes: seq<ServerInfo>, filename: string, rounds: seq<Round>,
                                        trace: seq<Attempt>, disks: Disks)
    requires HonestSetting(peer, nodes, rounds, disks)
    requires Legal(peer, nodes, filename, rounds, trace) && !Succeeded(trace)
    requires forall x :: x in nodes && x.id != peer.id ==> CanBeHad(peer, x, filename, disks)
    ensures AllLocal(trace, peer.id)
    decreases |trace|
  {
    if trace != [] {
      LegalStep(peer, nodes, filename, rounds, trace);
      HonestBefore(peer, nodes, filename, rounds, trace[..|trace| - 1], disks);
      var x := HonestLast(peer, nodes, filename, rounds, trace, disks);
      AllLocalStep(trace, peer.id);
    }
  }

  lemma {:induction false} PackedJourney(addrs: seq<string>, filename: string)
    requires Hops(addrs)
    ensures Journey(Packed(addrs, filename), addrs, filename)
  {
    var senders := seq(|addrs|, _ => Sender("0.0.0.0", 0));
    PackedCourse(addrs, filename, senders);
    CourseIsJourney(Packed(addrs, filename), senders, addrs, filename);
  }
}
