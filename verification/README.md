# Proofs about the bulletin board and the peer-to-peer file system

The repository holds two distributed programs. Project 2 is a bulletin board whose servers keep one
list of articles consistent by one of three protocols: a primary that numbers and broadcasts
(`seq_server`), quorums with a full synchronisation (`qum_server`), and a primary that moves to the
server being written to (`LocalWrite_server`). Project 3 is a serverless file system: peers register
their files with a tracker, find the least loaded and nearest holder of a file by a shortest-path run
over measured latencies, and download it by a request that carries its own route. This project models both in
Dafny and proves what they are for.

Handlers and loops that change fields are class methods (`Graph`, `StringTokenizer`, the three `Server`
classes of the bulletin board, the tracker's `Server`, the peer's `Client`), each tied by its contract
to functions on values; the theorems about runs are lemmas about state machines built from these
functions. The network, other peers' disks, loads, random draws and MD5 are parameters.

| module | what it is about |
|---|---|
| Sequences, Text, Tokenizer, Sorting | list facts, C++ string and number conversions, `CStringTokenizer`, `std::sort` by its promise |
| Walks, LatencyGraph | walks and distances as such; the shortest-path loop with its queue and route rows |
| Routing, Ports, MinLoad, Attempts, Downloads, PeerClient | source routes hop by hop, the port pool, the choice of a node, the retry loop, the `Client` class |
| FileList, Tracker | the report of shared files and its buffer; the tracker over any run of messages |
| Articles, Replication, Answers | the article list and its encoding; what one write does, and what a log of writes amounts to; what a client makes of the answer |
| PrimaryBackup, AckSlots, ArticleIds, ReadOrder, Scenarios, SeqServer | the sequential-consistency protocol: replicas, acknowledgements, IDs, reads, runs that go wrong, and its handlers on texts |
| LocalWrite | the read-your-writes protocol and its handlers |
| Shuffle, Quorum, QuorumServer | random selections, quorum sizes, the quorum protocol and its handlers |

## Where the code does not keep what one would expect

The model follows the code in each of these, and where a property fails only sometimes, a failing input and the exact
condition are proved.

- A bound of V-1 edges times the largest latency does not keep the additions of the shortest-path loop
  within int, because the edge back to the source is added too: `Walks.TightBoundOverflows`. A sum overflows exactly if
  some vertex nearer than INT_MAX has an edge that long (`LatencyGraph.Graph.ShortestPath`), which V times the largest latency
  rules out (`Walks.WeightBoundSuffices`).
- INT_MAX doubles as "unreachable": the result is right for all vertices exactly if every distance is below INT_MAX
  (`LatencyGraph.ShortestIff`, with `Walks.FarVertexIsLost` as the graph where it is not).
- An acknowledgement slot is free until its first acknowledgement. `AckSlots.PutDistinctIff` says when a new
  request collides, and `Scenarios.UngatedAnswersEarly` is a run in which the primary answers two back-to-back requests
  before a server has applied either.
- Taking the ID of a failed reply back can give an ID twice: `Scenarios.RevocationReusesId` is a run after which
  an ID in use is given again, and `ArticleIds.NextIdUnusedIff` says for every state of every run when the next ID is free. With one
  request at a time it always is (`ReadOrder.SerialServersThreaded`).
- Reads need not agree: IDs that are taken back while later ones are out come out of order even if none is used twice, and a
  read sorts by ID, in place (`Scenarios.DisorderRun`). `ReadOrder.ReadsAgreeIff` has the exact condition, equal IDs and unstable sorts
  included, and `ArticleIds.RigidByFailures` what it means in terms of requests and failures.
- A quorum post may change the IDs of older articles, since IDs are counted per server and sorted on: `Quorum.RenumberingRun`,
  with the exact condition in `Quorum.OldIdsKeptIff`, and over runs in `Quorum.OldIdsKeptInRunIff`. Their order among themselves
  survives in any case (`Quorum.SortInserts`).
- A `$` in a text is taken for the end of an article. At a `LocalWrite_server` it splits the article when the list moves, at
  the new primary alone, so that lists differ from then on (`LocalWrite.DollarRun`, `LocalWrite.MigrateAgreedIff`); one primary remains in
  any case (`LocalWrite.RunsHaveOnePrimary`). A quorum server also needs exactly five nonempty fields (`Quorum.PostLoadsIff`).
- `isValidQ` accepts a read or write size above N, which selects servers past the end of the list: `Quorum.AcceptedTooLarge`, with
  `Quorum.AcceptedIsSelectableIff` for the sizes that can be selected.
- POST selects Nr servers, not Nw; what makes replicas agree is the synchronisation of all servers.
- A routed request is served exactly when one of its tokens is `$`; without one it is handed on for ever
  (`Routing.ServedIff`).
- A download writes the file up to its first NUL character and the checksum does not notice
  (`Downloads.PackedFileArrives`, `Downloads.HonestAttemptIff`).
- For a node beyond MAX_LATENCY the request carries no address, so the downloading peer answers it itself: if it has
  a copy, that copy is written over the file with one NUL more, and the node is never asked (`Downloads.OwnCopyWritten`).
  Without a copy the direct request delivers; `Downloads.HonestAttemptIff` has the exact condition.
- A checksum mismatch keeps the candidate, so replies that never match keep the loop going for ever:
  `Attempts.FinishedIff`, `Downloads.BrokenRepliesNeverEnd`.
- A report survives its 288-byte buffer exactly when every entry fits, the last with one character to spare:
  `FileList.ReportDecodesIff`. A file name of 254 characters anywhere but at the end loses the report.
- The reply for a file nobody has cannot be read as a list of nodes (`Tracker.EmptyIsNoList`). `Download`
  checks for it; `LoadGlobalNodeInfo` does not, and its `stoi` throws.
- `Graph::empty` clears nothing (`LatencyGraph.Graph.Empty`), so rows keep what earlier calls wrote.
- `seq_server::update_backup` stores a text without its last character (`SeqServer.UpdateRoundTrip`).
- After a download the report sent to the tracker is of the files listed at start-up, without the new one
  (`PeerClient.Client.ValidatePackedData`).
- A `LocalWrite_server` never gives an acknowledgement slot back (`LocalWrite.Server.HandleAckUp`).
- A quorum reply to a target that does not exist reads through the end of the list; `Quorum.TargetExistsIff` says when.

## Model

| member | source | states |
|---|---|---|
| Walks.DistanceSymmetric | Project3/Client/client.cpp:1238-1242 | as every edge is entered in both directions, s-t and t-s distances are equal |
| Walks.WeightBoundSuffices | Project3/Client/client.cpp:1280-1282 | V times the largest latency within INT_MAX keeps every sum the loop forms an int and every distance below INT_MAX |
| Walks.TightBoundOverflows | Project3/Client/client.cpp:1280-1282 | with V-1 in place of V a sum overflows on a two-vertex graph |
| Walks.FarVertexIsLost | Project3/Client/client.cpp:1280-1282 | a vertex at distance INT_MAX overflows nothing, but counts as unreachable |
| Walks.Simplify | Project3/Client/client.cpp:1280-1293 | every walk can be cut down to a simple walk between the same ends that is no heavier |
| LatencyGraph.FrontierBound | Project3/Client/client.cpp:1269-1296 | a walk out of the settled vertices weighs at least the least key in the queue |
| LatencyGraph.PoppedIsFinal | Project3/Client/client.cpp:1269-1274 | the first entry popped for a vertex carries its distance, stale entries or not |
| LatencyGraph.ExtendRoute | Project3/Client/client.cpp:1280-1293 | a row extended by an improving edge is still a simple walk and, with its terminator, fits V entries |
| LatencyGraph.EmptyQueueIsFinal | Project3/Client/client.cpp:1264-1297 | with the queue empty every finite distance is the least walk weight, and INT_MAX means that no walk is lighter than that |
| LatencyGraph.EmptyQueueNoOverflow | Project3/Client/client.cpp:1280-1282 | a loop that got to its end without overflow was on a graph where none can happen |
| LatencyGraph.ShortestIff | Project3/Client/client.cpp:1257-1298 | the result says INT_MAX for exactly the unreachable vertices if and only if every distance is below INT_MAX |
| LatencyGraph.RunsAgreeOnDistance | Project3/Client/client.cpp:1257-1298 | a run from s and a run from t report the same s-t distance, INT_MAX included |
| LatencyGraph.PopsBound | Project3/Client/client.cpp:1264-1296 | pops so far plus entries waiting are at most 1 plus the sum of the adjacency lengths |
| LatencyGraph.Graph.constructor | Project3/Client/client.cpp:1222-1230 | no edges, and all rows empty |
| LatencyGraph.Graph.Empty | Project3/Client/client.cpp:1232-1235 | changes neither edges nor rows |
| LatencyGraph.Graph.AddEdge | Project3/Client/client.cpp:1238-1242 | both directions are appended whatever the latency, other lists stay, and all rows written before remain simple walks |
| LatencyGraph.Graph.WriteRow | Project3/Client/client.cpp:1284-1291 | the row of u followed by v is written over whatever v's row held, in bounds, all other rows unchanged |
| LatencyGraph.Graph.RelaxEdge | Project3/Client/client.cpp:1275-1294 | one edge whose sum is an int: the invariant of the loop moves on by one, settled distances stay, at most one push and none for a vertex settled earlier |
| LatencyGraph.Graph.PopAndRelax | Project3/Client/client.cpp:1267-1296 | one turn of the outer loop keeps distances, rows, queue and order of pops right, or meets a sum that overflows on this graph |
| LatencyGraph.Graph.ShortestPath | Project3/Client/client.cpp:1257-1300 | a sum overflows if and only if some vertex nearer than INT_MAX has an edge that long; otherwise all distances below INT_MAX are those of the graph, each such row is a simple walk of that weight, keys come out in ascending order, first pops are final, pops are bounded |
| Tokenizer.TokensAreRuns | Project2/Server/stringTokenizer.cpp:40-59 | however a string falls into delimiter-free runs kept apart by delimiters, its tokens are these runs in order |
| Tokenizer.TokensSeparate | Project2/Server/stringTokenizer.cpp:40-59 | every string does fall into its tokens and the gaps around them |
| Tokenizer.TokensOfJoin | Project2/Server/stringTokenizer.cpp:40-59 | nonempty delimiter-free pieces joined by one delimiter come back |
| Tokenizer.TokensConcat | Project2/Server/stringTokenizer.cpp:40-59 | a delimiter keeps the tokens on its sides apart |
| Tokenizer.HeaderRoundTrip | Project2/Server/Server.cpp:259-262 | dropping as many fields as the header has gives the body back, and the header reads field by field, whatever the body holds |
| Tokenizer.StringTokenizer.Split | Project2/Server/stringTokenizer.cpp:40-59 | the list becomes the tokens of the input, none handed out yet |
| Tokenizer.StringTokenizer.GetNext | Project2/Server/stringTokenizer.cpp:16-26 | hands out the next token and moves on, or gives "" at the end and stays |
| Text.AtoiText | Project2/Server/Server.cpp:47-48 | a printed number reads back as itself |
| Text.AtoiAmid | Project3/Client/client.cpp:522-537 | a printed number is read back whatever blanks stand before it and whatever but a digit behind it |
| Text.HasNumberIff | Project3/Client/client.cpp:522-537 | stoi does not throw if and only if a digit stands behind some blanks and at most one sign; atoi gives 0 where it would |
| Sorting.SortOfIncreasing | Project2/Server/BB_system.cpp:659-664 | a list with ascending distinct IDs is the only result its sort can have |
| Sorting.SortOfRigid | Project2/Server/BB_system.cpp:659-664 | so is a list in order in which equal IDs belong to equal articles |
| Sorting.SortOutOfTurn | Project2/Server/BB_system.cpp:659-664 | an article out of turn goes in front of another in some sort, so the list before is no prefix of the result |
| Articles.FindArticleById | Project2/Server/BB_system.cpp:278-292 | the first article with the ID, or the end |
| Articles.SendArticle | Project2/Server/BB_system.cpp:662-681 | the list is left sorted by ID, a permutation of what it was, and the message is its encoding |
| Articles.MoveRoundTripIff | Project2/Server/Server.cpp:643-660 | contents come back from the encoding with their hierachies, in list order, numbered from 1, if and only if none holds a dollar sign |
| Articles.LoadRoundTripIff | Project2/Server/Server.cpp:990-1031 | contents come back from the encoding with their hierachies, numbered from 1, if and only if each is made of five plain fields |
| Replication.ReplayPrefix | Project2/Server/Server.cpp:63-113 | a server that has applied fewer updates holds a prefix of the list of one that has applied more |
| Replication.ReplayIsAccepted | Project2/Server/Server.cpp:63-113 | the list holds exactly the writes that found their target, in order, under their IDs |
| Replication.ApplyAddsIff | Project2/Server/Server.cpp:75-112 | a write adds one article if and only if it is a post or some article in the list has the ID it replies to; otherwise nothing changes |
| Replication.ApplyAdds | Project2/Server/Server.cpp:75-112 | a post goes to the end at level 0, a reply one level below the first article with the ID it replies to, under the ID the write came with |
| Replication.SequentialAddsIff | Project2/Server/Server.cpp:75-112 | if IDs are numbered one above the articles there are, a write is stored if and only if it is a post or replies to one of 1..n |
| Replication.StemsAccept | Project2/Server/Server.cpp:77-93 | lists with the same texts under the same IDs accept the same writes and stay so, whatever their order and levels |
| Replication.SequentialReplay | Project2/Server/Server.cpp:77-93 | if each write is numbered one above the articles there are, IDs are 1..n, targets come earlier and hierachy is the depth of the reply chain |
| PrimaryBackup.FirstZero | Project2/Server/Server.cpp:269-279 | the first counter at zero, or the length of the table |
| PrimaryBackup.ReplicasFollow | Project2/Server/Server.cpp:34-113 | in every state of every interleaving, reads and their sorting in place included, each server holds what a prefix of the broadcasts leads to (the same texts under the same IDs, and the same list wherever no sort can change it), and its acknowledgements carry the success flags of the primary's log |
| AckSlots.PutDistinctIff | Project2/Server/Server.cpp:267-279 | a new request gets a slot of its own exactly when each unacknowledged request sits above a slot nobody holds |
| AckSlots.ForwardCountedIff | Project2/Server/Server.cpp:267-279 | a FORWARD keeps slots, counts and answers right if and only if it waited for the gate, which is that condition |
| AckSlots.LastAckIff | Project2/Server/Server.cpp:290-315 | a count reaches the number of servers exactly with the last acknowledgement of the oldest request in flight |
| AckSlots.BumpOk | Project2/Server/Server.cpp:290-315 | counting an acknowledgement keeps slots distinct, each with its own count, and gives the slot back at the end |
| AckSlots.GatedRunsCount | Project2/Server/Server.cpp:267-316 | over any run that forwards only when no unacknowledged request would lose its slot, slots are distinct, each counts its own request, and answers are sent once per request in order |
| AckSlots.AnswersComeLast | Project2/Server/Server.cpp:295-315 | over any gated run an answered request, and every one before it, has been applied at every server, reads in between or not |
| ArticleIds.IdsCountUp | Project2/Server/Server.cpp:47-48 | while no ID was taken back the broadcasts carry 1, 2, 3 and so on |
| ReadOrder.ReadsArePrefixes | Project2/Server/Server.cpp:149-152 | a read at a server that has applied no more than another changes nothing and is a prefix of the list there, if no sort can change that list |
| ReadOrder.ReadsAgreeIff | Project2/Server/Server.cpp:149-152 | of any two reads of a run, at whatever servers and moments and however equal IDs are sorted, one is a prefix of the other, if and only if at no server the applied updates lead to a list a sort could change |
| ReadOrder.CountingReadsAgree | Project2/Server/Server.cpp:149-152 | while no ID was taken back all reads of a run agree |
| ReadOrder.SerialServersThreaded | Project2/Server/Server.cpp:77-93 | one request at a time: at every moment every server's IDs are 1..n and hierachy is the depth of the reply chain |
| ReadOrder.SerialReadsArePrefixes | Project2/Server/Server.cpp:149-152 | one request at a time: reads change nothing and are prefixes of one common list, even when IDs are taken back |
| ReadOrder.SerialReadsAgree | Project2/Server/Server.cpp:149-152 | so all reads of such a run agree |
| ReadOrder.SerialOutcomes | Project2/Server/Server.cpp:295-310 | one request at a time: a client is told success if and only if it posted, or replied to one of 1..n, where n is the number of earlier requests less those that failed |
| ArticleIds.IdsByFailures | Project2/Server/Server.cpp:302-305 | in every regime and state the ID counter is the number of requests broadcast less the number of failures answered |
| ArticleIds.NextIdUnusedIff | Project2/Server/Server.cpp:302-305 | in every regime and state the next ID is unused exactly if no successful request has seen as many failures answered since its broadcast as requests broadcast from it on |
| ArticleIds.RigidByFailures | Project2/Server/Server.cpp:302-305 | in every regime the first m broadcasts lead to a list no sort can change, exactly if between any two successful ones fewer failures were answered than requests broadcast, or both are stored as the same article |
| ArticleIds.SucceedsIff | Project2/Server/Server.cpp:75-93 | in every regime a request succeeds if and only if it is a post, or replies to the ID of a successful request broadcast before it |
| ArticleIds.RevocationSafeIff | Project2/Server/Server.cpp:302-305 | after the first revocation the next ID is the last broadcast one, and unused exactly if that request failed too |
| Scenarios.UngatedAnswersEarly | Project2/Server/Server.cpp:267-316 | two requests before the first acknowledgement share a slot, and one is answered although a server has applied nothing |
| Scenarios.RevocationReusesId | Project2/Server/Server.cpp:302-305 | a run in which an ID in use is given again |
| Scenarios.DisorderRun | Project2/Server/Server.cpp:302-305 | a run in which two posts get the IDs 3 and 2 in this order, no ID twice, and two reads of one server disagree |
| SeqServer.UpdateRoundTrip | Project2/Server/Server.cpp:63-113 | a server reads from the update the slot, the write and the origin that were put in, whatever the text holds, with the text one character short |
| SeqServer.AckRoundTrip | Project2/Server/Server.cpp:283-310 | the primary reads from an acknowledgement the slot, flag and origin that were put in |
| SeqServer.RequestIsRead | Project2/Server/Server.cpp:114-127 | what a backup forwards is taken for a request by the primary, with the port to answer to, and comes out as it was |
| SeqServer.UpdateIsRead | Project2/Server/Server.cpp:34-61 | the update is taken for one, with the address to acknowledge to, and its body comes out as it was |
| SeqServer.AckIsRead | Project2/Server/Server.cpp:317-346 | so is an acknowledgement |
| SeqServer.ForwardByText | Project2/Server/Server.cpp:267-283 | FORWARD by text is the forward step of the system model: its counters, and the update as every server reads it |
| SeqServer.CollectedByText | Project2/Server/Server.cpp:284-316 | counting the text of an acknowledgement is the collecting step of the system model |
| SeqServer.OutcomeIsTold | Project2/Server/Server.cpp:297-310 | the client reads in the answer what the servers said in their acknowledgements |
| SeqServer.DeliveredByText | Project2/Server/Server.cpp:317-346 | handling the text of an update is the delivery step of the system model, list and acknowledgement alike |
| SeqServer.Server.HandlePost | Project2/Server/Server.cpp:129-141 | hands the text to the primary as a post, to be answered at this server |
| SeqServer.Server.HandleReply | Project2/Server/Server.cpp:157-168 | hands the text to the primary as a reply to the ID in front of it |
| SeqServer.Server.HandleForward | Project2/Server/Server.cpp:267-283 | takes the first zero slot, growing the table if there is none, and the next ID, and makes the update |
| SeqServer.Server.UpdateBackup | Project2/Server/Server.cpp:63-113 | applies the write read from the text, and succeeds if and only if it is a post or some article has the ID it replies to; otherwise the list stays |
| SeqServer.Server.HandleUpdate | Project2/Server/Server.cpp:317-346 | applies the update and acknowledges with slot, flag and origin |
| SeqServer.Server.HandleRead | Project2/Server/Server.cpp:149-152 | the list is left sorted by ID, and its encoding is sent |
| SeqServer.Server.HandleAckUp | Project2/Server/Server.cpp:284-316 | counts, and at the last acknowledgement answers the origin, gives the slot back, and takes the ID back after a failure |
| Answers.AnswerIsRead | Project2/Client/client.cpp:281-302 | the client takes an answer for success or failure as it was meant |
| LocalWrite.MigrationKeepsIff | Project2/Server/Server.cpp:622-675 | moving the list to a new primary changes no ID and nothing else, if and only if no text holds a dollar sign |
| LocalWrite.MigrateAgreedIff | Project2/Server/Server.cpp:622-675 | after a move the servers have equal lists if and only if no text holds a dollar sign |
| LocalWrite.RunsHaveOnePrimary | Project2/Server/Server.cpp:473-537 | over any run of drained operations, with any texts, there is one primary, all servers name it, and every later operation finds it |
| LocalWrite.RunsAgree | Project2/Server/Server.cpp:473-537 | over any run of drained operations whose texts hold no dollar sign, all lists are the one the operations amount to, IDs are 1..n and hierachy is the reply depth |
| LocalWrite.ReadsEverywhere | Project2/Server/Server.cpp:601-604 | if no text holds a dollar sign, a read anywhere after an operation returns the list all operations so far amount to |
| LocalWrite.DollarRun | Project2/Server/Server.cpp:643-660 | a post with a dollar sign followed by one at another server leaves the two with different lists |
| LocalWrite.WriteRoundTrip | Project2/Server/Server.cpp:706-784 | primary and backups read the same write from the request, whatever its text |
| LocalWrite.PrimaryWrites | Project2/Server/Server.cpp:497-508 | the primary stores a request under the next number, and every other server reads that same write in the update |
| LocalWrite.HandlersBroadcast | Project2/Server/Server.cpp:483-537 | FORWARD at one server and UPDATE at the others together are the broadcast step of the model |
| LocalWrite.CommandsAreRead | Project2/Server/Server.cpp:678-705 | updates and acknowledgements are taken for what they are, and their bodies come out as they were |
| LocalWrite.AckIsRead | Project2/Server/Server.cpp:529-552 | the primary reads from an acknowledgement the slot and the outcome |
| LocalWrite.Server.TakeOver | Project2/Server/Server.cpp:640-673 | an empty message leaves the list alone, and one sent for articles without a dollar sign makes it these articles numbered from 1; this server is the primary afterwards |
| LocalWrite.Server.SendList | Project2/Server/Server.cpp:473-477 | the list is left sorted by ID, and its encoding is sent |
| LocalWrite.Server.HandlePrimaryChanged | Project2/Server/Server.cpp:478-482 | names the new primary and stops being it, keeping the list |
| LocalWrite.Server.HandleForward | Project2/Server/Server.cpp:483-510 | claims the first zero slot, growing the table if there is none, stores a request under the number of articles plus one, answers success exactly if it was stored, and makes the update with that same write in either case |
| LocalWrite.Server.HandleAckUp | Project2/Server/Server.cpp:511-528 | a success is counted in its slot, a failure is not, and a slot once counted is never free again |
| LocalWrite.Server.HandleUpdate | Project2/Server/Server.cpp:529-552 | applies the write the update was made of, and acknowledges with its slot and whether the list has grown |
| Shuffle.SingleCycle | Project2/Server/Server.cpp:820-826 | for every sequence of draws the shuffle is one cycle through all places |
| Shuffle.EveryPlaceReached | Project2/Server/Server.cpp:820-826 | following the shuffle from any place reaches every place |
| Shuffle.ShuffleIsDerangement | Project2/Server/Server.cpp:820-826 | it is a permutation, and from two servers on nothing keeps its place |
| Shuffle.EveryCycleDrawn | Project2/Server/Server.cpp:820-826 | every single cycle is the shuffle of some draws |
| Shuffle.DrawsUnique | Project2/Server/Server.cpp:820-826 | two sequences of draws give the same shuffle if and only if each draw for place i agrees modulo i |
| Shuffle.ShuffleInPlace | Project2/Server/Server.cpp:820-826 | the swapping loop ends with exactly the recursively defined shuffle |
| Shuffle.SelectRandomServer | Project2/Server/Server.cpp:818-861 | the selected servers are those at the first places of the shuffle, the coordinator's own first server for index 0, all different when the list has no repeats and is its own |
| Quorum.ValidIffOverlap | Project2/Server/Server.cpp:873-897 | the check accepts exactly the sizes for which any read and write selection, and any two write selections, share a server |
| Quorum.AcceptedIsSelectableIff | Project2/Server/Server.cpp:818-897 | accepted sizes can be selected exactly if neither is above N, and then neither is 0 |
| Quorum.AcceptedTooLarge | Project2/Server/Server.cpp:818-897 | sizes that are accepted although one of them cannot be selected |
| Quorum.GetNewestServer | Project2/Server/Server.cpp:899-942 | the last of the servers with the highest version |
| Quorum.PostAgrees | Project2/Server/Server.cpp:1269-1317 | after a post of five plain fields all servers hold one list numbered 1..n with the old pairs and the new one, for any selection and any counters |
| Quorum.PostLoadsIff | Project2/Server/Server.cpp:990-1031 | all servers end up with the list as it was sent, numbered from 1, if and only if the posted text is made of five plain fields |
| Quorum.QuietSteps | Project2/Server/Server.cpp:1647-1680 | a read, a synchronisation and a heartbeat change nothing anywhere |
| Quorum.SynchNeedsArticles | Project2/Server/Server.cpp:1352-1358 | a synchronisation with an empty list is skipped, where the heartbeat would empty every server |
| Quorum.ReadsCommonList | Project2/Server/Server.cpp:1234-1262 | what a read sends, from any selection, decodes to the common list |
| Quorum.RunsHold | Project2/Server/Server.cpp:1225-1328 | after any run whose texts are made of five plain fields all servers hold one list numbered 1..n whose contents and hierachies are exactly those posted |
| Quorum.SortInserts | Project2/Server/BB_system.cpp:659-664 | under every sort the older articles keep their order among themselves, and the new one goes in by its ID |
| Quorum.OldIdsKeptIff | Project2/Server/Server.cpp:1269-1317 | a post leaves the IDs of all older articles alone, however equal IDs are sorted, if and only if the newest selected server's counter has reached the length of the list, or every article above it is indistinguishable from the new one |
| Quorum.NewestTookMost | Project2/Server/Server.cpp:899-942 | over a run from fresh servers the newest selected server is one that took part in the most posts |
| Quorum.OldIdsKeptInRunIff | Project2/Server/Server.cpp:1097-1114 | over a run from fresh servers, the next post leaves all older IDs alone if and only if each older article is within the number of posts some selected server took part in, or cannot be told from the new one |
| Quorum.RenumberingRun | Project2/Server/Server.cpp:1269-1317 | a run of three posts from empty servers in which IDs 1 and 2 become 2 and 3 |
| Quorum.TargetExistsIff | Project2/Server/Server.cpp:1189-1193 | the level a reply needs can be read exactly if its target is one of the IDs 1..n |
| QuorumServer.WriteRoundTrip | Project2/Server/Server.cpp:944-975 | a selected server takes a write for one, and gets content and level as they were sent |
| QuorumServer.ForwardRoundTrip | Project2/Server/Server.cpp:1117-1147 | the coordinator gets content and level as the first server forwarded them |
| QuorumServer.SynchRoundTrip | Project2/Server/Server.cpp:1037-1078 | a server takes a synchronisation for one and gets the encoded list as it was sent |
| QuorumServer.Server.WriteArticle | Project2/Server/Server.cpp:1097-1114 | appends under the next ID, one level below the target, and counts the version up |
| QuorumServer.Server.LoadArticle | Project2/Server/Server.cpp:990-1031 | loads the articles up to the first whose sixth field is missing or no number, where stoi throws; a list of five-field texts that was sent is loaded whole, numbered from 1 |
| QuorumServer.Server.HandleWrite | Project2/Server/Server.cpp:1513-1526 | a write as sent is appended under the next ID one level below its target; without a readable level nothing changes |
| QuorumServer.Server.HandleSynch | Project2/Server/Server.cpp:1537-1547 | a list of five-field texts as sent replaces the list, numbered from 1; this is what the model does to every server |
| QuorumServer.Server.HandleRead | Project2/Server/Server.cpp:1507-1511 | the list is left sorted by ID, and its encoding is sent |
| QuorumServer.Server.HandleVersion | Project2/Server/Server.cpp:1504-1506 | the coordinator reads the version of the server |
| QuorumServer.Server.HandleReply | Project2/Server/Server.cpp:1528-1535 | the server that asked reads the level of the target, if some article has its ID |
| QuorumServer.ShuffledSelection | Project2/Server/Server.cpp:818-861 | what the shuffle selects is a selection the protocol model allows |
| Routing.PackedCourse | Project3/Client/client.cpp:320-375 | a packed request visits the packed addresses in order over real messages, and the last peer serves the unchanged file name, whatever its characters |
| Routing.CourseUnique | Project3/Client/client.cpp:320-375 | a request has one course, so it is served at no other hop |
| Routing.RouteDelivers | Project3/Client/client.cpp:425-438 | the request packed for a walk takes as many hops as the walk has edges and ends at the address of its end |
| Routing.HopsOfKnown | Project3/Client/client.cpp:578-587 | with unknown hops replaced by the local address a route can always be packed |
| Routing.ServedIff | Project3/Client/client.cpp:320-328 | a request is served after some number of hops exactly when one of its tokens is the dollar sign |
| Routing.ReceivedIsSent | Project3/Client/client.cpp:684-712 | the listener reads command, address and port, and gets the request as it was sent |
| Routing.AnswerFromLast | Project3/Client/client.cpp:332-375 | the reply handed back hop by hop is what the last peer packed, as a C string |
| Ports.RunConserves | Project3/Client/client.cpp:288-316 | in every interleaving free and held ports together are 5000..5900 once each, and the load is the number held |
| Ports.EmptyIff | Project3/Client/client.cpp:294-296 | the pool is empty exactly when 901 transfers hold a port |
| Ports.PortsExclusive | Project3/Client/client.cpp:288-316 | no two transfers share a port, and none in use is handed out |
| Ports.PoolIsQueue | Project3/Client/client.cpp:288-316 | in every interleaving ports are handed out in the order 5000..5900 and then in the order they came back |
| Ports.DrainedPoolIsWhole | Project3/Client/client.cpp:360-368 | when no transfer waits every port is back and the load is 0, whichever way the transfers ended |
| MinLoad.LoadIsRead | Project3/Client/client.cpp:522-537 | a printed load is read back; a node without an address, or without a number for an answer, counts as having 4000 |
| MinLoad.LowerBound | Project3/Client/client.cpp:484 | the first position not below the load |
| MinLoad.UpperBound | Project3/Client/client.cpp:483 | the first position above the load |
| MinLoad.Choose | Project3/Client/client.cpp:481-500 | the chosen node is least by load first and distance second |
| MinLoad.LeastByReplies | Project3/Client/client.cpp:469-505 | no other node printed a smaller load than the chosen one, and none of the same load is nearer, silence counting as 4000 |
| Downloads.IntactIff | Project3/Client/client.cpp:267-283 | a reply is written, without its first 32 characters, if and only if these are the MD5 of the C string behind them; otherwise it is a mismatch |
| Downloads.PackFileIff | Project3/Client/client.cpp:1088-1097 | a peer has nothing to send exactly for a file it lacks or of 65536 characters or more |
| Downloads.PackedFileArrives | Project3/Client/client.cpp:1088-1108 | a packed file passes the checksum after the network and is the file up to its first NUL, so whole exactly if it has none |
| Attempts.RemovedDropsOne | Project3/Client/client.cpp:444-455 | exactly the first entry for the id goes, and the others stay in order |
| Attempts.EachFailureRemovesOne | Project3/Client/client.cpp:170-258 | candidates left plus local and failed attempts are the candidates at the start |
| Attempts.AttemptsBound | Project3/Client/client.cpp:170-258 | there are at most as many attempts as candidates plus mismatches |
| Attempts.FinishedIff | Project3/Client/client.cpp:170-258 | the loop is over exactly when a write succeeded or as many attempts failed as there were candidates |
| Attempts.EmptyIffNoneSucceeded | Project3/Client/client.cpp:260-263 | from a nonempty list, a finished loop has an empty list exactly when no attempt wrote |
| Attempts.WritesLast | Project3/Client/client.cpp:251-254 | nothing is tried after a write |
| Downloads.LegalIsWellRun | Project3/Client/client.cpp:170-258 | the attempts the download loop makes are at listed candidates and stop with the loop, so the counting results apply to it |
| Downloads.OwnCopyWritten | Project3/Client/client.cpp:388-391 | a node beyond MAX_LATENCY makes a peer with a copy of its own write that copy again with one NUL more, whatever the network does |
| Downloads.RouteFirst | Project3/Client/client.cpp:191-250 | a node in reach is asked by way of its route, whose first hop decides if it answers; otherwise the answer of the node itself decides |
| Downloads.WrittenFrom | Project3/Client/client.cpp:267-284 | what a run writes is what follows the first 32 characters of some network reply, and these are its MD5; but for a node beyond MAX_LATENCY of a peer with its own copy it is that copy and one NUL |
| Downloads.BrokenRepliesNeverEnd | Project3/Client/client.cpp:212-219 | if all replies are broken the loop goes on for any number of attempts with all candidates left |
| Downloads.HonestAttemptIff | Project3/Client/client.cpp:191-219 | if the peers on the way answer, an attempt at a node that has the file writes it up to its first NUL if and only if the node is within MAX_LATENCY or the peer has no copy of its own |
| Downloads.HonestOutcome | Project3/Client/client.cpp:170-258 | among honest peers an attempt is local, or stores what the asked entry yields, or fails where it yields nothing, and never mismatches |
| Downloads.HonestRun | Project3/Client/client.cpp:170-263 | among honest peers, whichever candidates still have the file, no reply is broken, there is at most one attempt for each candidate, and once the loop is over it has stored a file exactly if some candidate can be had, and then that of such a candidate |
| Downloads.HonestRunStores | Project3/Client/client.cpp:170-263 | if every other candidate can be had, the loop takes one attempt besides those spent on the peer's own entries, and is over exactly when it has stored a file |
| PeerClient.PlannedRouteDelivers | Project3/Client/client.cpp:379-438 | from the shortest-path run to the disk: hops are the edges of a simple walk of exactly the reported distance, ending at the chosen node's own address with the file name unchanged |
| PeerClient.Client.FillPool | Project3/Client/client.cpp:73-75 | fills the pool with 5000..5900 in order |
| PeerClient.Client.GetPort | Project3/Client/client.cpp:288-303 | the front port leaves the pool and the load goes up |
| PeerClient.Client.ReturnPort | Project3/Client/client.cpp:305-316 | the port joins the end of the pool and the load goes down |
| PeerClient.Client.GetNodeAddr | Project3/Client/client.cpp:550-561 | the address of the first entry for the id, or "" |
| PeerClient.Client.FillForwardList | Project3/Client/client.cpp:379-421 | the vertices of the recorded route with their addresses, the local one for unknown, and nothing beyond MAX_LATENCY |
| PeerClient.Client.PackForwardRequest | Project3/Client/client.cpp:425-438 | the addresses in order, the dollar sign and the file name |
| PeerClient.Client.GetNextForwardAddr | Project3/Client/client.cpp:320-328 | the first token, and the request behind its first separator |
| PeerClient.Client.ForwardDownload | Project3/Client/client.cpp:332-375 | replies with the next peer's answer or the local file, and whichever branch is taken a port that was taken is back |
| PeerClient.Client.GetMinLoadNode | Project3/Client/client.cpp:469-505 | polls every node and returns one that is least by load, then distance |
| PeerClient.Client.HandleGetLoad | Project3/Client/client.cpp:714-719 | the asking peer reads the load back |
| PeerClient.Client.RemoveNodeInfo | Project3/Client/client.cpp:444-455 | removes the first entry for the id |
| PeerClient.Client.ValidatePackedData | Project3/Client/client.cpp:267-284 | writes what follows the first 32 characters and sends a report exactly if these are its MD5 |
| PeerClient.Client.UpdateList | Project3/Client/client.cpp:591-608 | sends the report of the files listed at start-up, and the reply decides whether the tracker counts as online |
| PeerClient.CandidatesOfReply | Project3/Client/client.cpp:151-168 | the candidates of a download are the nodes the tracker put into its reply, none for EMPTY |
| PeerClient.CandidatesAreSenders | Project3/Client/client.cpp:151-168 | over any run of reports that fit and look-ups, the candidates are exactly the clients that ever sent a report naming the file |
| PeerClient.SentAsRead | Project3/Client/client.cpp:83-89 | what the peer sends as a report, a look-up or a request is the message its receiver reads |
| PeerClient.ReportIsRead | Project3/Client/client.cpp:591-623 | the tracker reads of a report that fits the id, address and port of the peer and the files listed |
| PeerClient.Client.LoadServerInfo | Project3/Client/client.cpp:124-146 | reads the tokens in pairs, up to the first id that is no number |
| PeerClient.Client.TryOnce | Project3/Client/client.cpp:170-258 | one turn of the loop is a legal attempt, removes a candidate exactly if it was local or failed, and leaves ports and load as they were |
| PeerClient.Client.Download | Project3/Client/client.cpp:151-264 | an overflow is reported exactly if there are candidates and some sum on the graph is no int; otherwise distances and rows are true, all attempts are legal, the loop stops only when it is over, the directory changes by the written file alone, and a report goes out exactly after a write |
| PeerClient.Client.PackFilelistInfo | Project3/Client/client.cpp:611-623 | the id and the entries as the buffer leaves them |
| FileList.ReportDecodesIff | Project3/Client/client.cpp:611-623 | the tracker reads exactly the reported files if and only if every entry fits the buffer |
| FileList.NamesFitIff | Project3/Client/client.cpp:611-623 | with MD5 checksums: if and only if the last name has at most 254 characters and the others at most 253 |
| Tracker.UpdateIsRead | Project3/Server/server.cpp:221-243 | the tracker reads command, host, port and id of any report as sent, and its entries as the buffer left them |
| Tracker.UpdateRoundTripIff | Project3/Server/server.cpp:221-243 | it reads the report itself if and only if every entry fits the buffer |
| Tracker.FindRoundTrip | Project3/Server/server.cpp:142-149 | the tracker reads host, port and file name of a look-up as they were sent |
| Tracker.ListKeysDistinct | Project3/Server/server.cpp:231-238 | over any run of reports no two entries of the tracker's list have the same (id, host, port) |
| Tracker.ListRecordsPast | Project3/Server/server.cpp:225-247 | the list is every key in the order of first reports, each with all files it ever reported |
| Tracker.ReplyRoundTrip | Project3/Client/client.cpp:124-146 | the client decodes a reply to exactly the nodes it was made for, and EMPTY means none |
| Tracker.EmptyIsNoList | Project3/Client/client.cpp:508-517 | the EMPTY reply does not decode |
| Tracker.ReplyAlternates | Project3/Server/server.cpp:147-167 | ids and addresses alternate in the tokens of the reply |
| Tracker.FindReadsThePast | Project3/Server/server.cpp:147-167 | over any run of reports a look-up decodes to exactly the clients one of whose reports names the file, each key once, in the order of first reports; EMPTY for none |
| Tracker.TextsAmountToReports | Project3/Server/server.cpp:221-247 | over any run of message texts, reports and look-ups mixed and whatever the buffer cut, the list is the one the reports as read amount to |
| Tracker.LookUpReadsThePast | Project3/Server/server.cpp:142-167 | over any such run the reply to the text of a look-up is read as exactly the clients whose reports, as read, ever held the name, in the order of their first report, and is EMPTY for none |
| Tracker.LookUpFindsSenders | Project3/Server/server.cpp:142-167 | if all reports fit, these are the clients that ever sent a report naming the file |
| Tracker.Server.HandleUpdateList | Project3/Server/server.cpp:221-247 | a report is parsed and appended to its client, new or known, and answered with SUCCESS at the address it names; other commands change nothing |
| Tracker.Server.MatchesFile | Project3/Server/server.cpp:91-95 | whether a client has a file of that name |
| Tracker.Server.HandleFind | Project3/Server/server.cpp:142-167 | the reply for the name, and where it goes |

## Left out

- Sockets, time-outs, random delays, lost or reordered datagrams and the truncation of long messages: messages are whole values on first-in-first-out channels; a time-out at a peer is an empty reply.
- Threads and data races: handlers are atomic steps. A heartbeat in the middle of a post is not modelled.
- Servers joining or leaving while the system runs.
- The listeners' choice of a handler by command word (in any case of letters), role, address and port: messages are shown to carry the word and the rest, and the handlers are modelled.
- Reads at a `seq_server` or `LocalWrite_server` before updates have been delivered return the local copy; the local-write results are about drained operations.
- `primaryIP`, which nothing reads.
- A reply to a missing target at a quorum server is no step of Quorum: the source dereferences the end of its list there.
- The wrap-around of unsigned IDs and of `stoi`/`atoi` beyond int: numbers are unbounded, except for the distances, whose sums are proved to fit.
- MD5 is any function from strings to strings; theorems that need it ask for 32 characters without NUL.
- C strings are cut at a NUL where file contents travel; addresses, requests and names are taken to hold none.
- Where a request is followed hop by hop, addresses are nonempty, hold no `;` and are not `$`, as those of the tracker's clients.
- The deliberate corruption of replies at node 1 (Project3/Client/client.cpp:352-359), the delay before a reply, and `getPathLength`.
- `LoadFileList` and file input and output beyond a map from names to contents.
- Menus, printing, the debug command, Project1, and Project2/Server/Server2.cpp.
- LatencyGraph.Graph.ShortestPath: requires latencies that are not negative, as an edge in both directions with a negative one is a cycle on which the loop never ends; where a sum overflows it stops and says so, since what the source then does is undefined.
- PeerClient.Client.Download: sees the world through finitely many rounds, since with broken replies the loop has no end; it requires ids within the graph, as the source indexes its distances by them unchecked, and latencies that are not negative, as `ShortestPath` does.
- LocalWrite.RunsAgree: speaks of texts without a dollar sign; what a move does to others is in `LocalWrite.MigrateAgreedIff`, one move at a time.
- LocalWrite.ReadsEverywhere: speaks of texts without a dollar sign, for the same reason.
- Quorum.PostAgrees: speaks of texts of five plain fields; `Quorum.PostLoadsIff` says for any other text that the lists do not survive. A server that meets an article without a level throws and no longer answers.
- Quorum.RunsHold: speaks of texts of five plain fields, for the same reason.
- Ports.RunConserves: a run takes a port only while fewer than 901 are held; the source would read the front of an empty list.
- LocalWrite.Server.HandleAckUp: requires a slot of the table, which the source indexes unchecked, as does SeqServer.Server.HandleAckUp.
