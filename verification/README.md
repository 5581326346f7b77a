# A verified model of the radio mesh chat stack

This project models the parts of the stack that decide what a node transmits, stores and asks for, and proves
what they guarantee over whole runs. Frames, payloads and link streams are modelled byte by byte, and gap reports
character by character. Handlers are atomic steps, and a step that reads the clock takes the time as a `real`
parameter.

| file | models |
|---|---|
| `Basics.dfy`, `Bytes.dfy` | options, byte strings, big-endian fields |
| `MeshFrame.dfy`, `MeshNode.dfy` | mesh frames; one node: OGM and DATA handling, packet cache, cleanup (`mesh_node.py`) |
| `MeshNetwork.dfy`, `RouteExpiry.dfy` | any number of nodes over a lossy, duplicating, reordering medium; routing loops |
| `MeshTables.dfy` | what a node's tables remember over any run, and exactly when they forget |
| `MeshDelivery.dfy` | end-to-end integrity of DATA; what the packet cache guarantees |
| `MeshRelay.dfy` | what each node transmits; exactly when a packet travels along a path |
| `MeshFlood.dfy` | how much traffic one transmission can cause |
| `ChatProtocol.dfy`, `ChatStore.dfy`, `ChatSync.dfy` | chat messages, the chat log, sync between two logs |
| `SyncAnswers.dfy` | which rows answer a sync request, and what is stored of a response |
| `ChatNetwork.dfy`, `ChatConflict.dfy`, `ChatVersions.dfy` | chat clients on top of the mesh; agreement of all stores, and exactly when it fails |
| `ChatRound.dfy` | sync rounds as events of the network |
| `GapRanges.dfy`, `GapTracker.dfy`, `GapReports.dfy` | the interval list and the gap tracker of `chat_client.py`; when it reports |
| `GapText.dfy`, `GapRequests.dfy` | gap reports as text, and the range requests made from them |
| `MeshGaps.dfy`, `GapRepair.dfy` | how the tracker's numbering meets the mesh's; how far gap reports can repair anything |
| `ChannelPolicy.dfy`, `SyncScheduler.dfy`, `SyncOutcomes.dfy`, `SyncBackend.dfy` | sync policy, cooldown, deferral and retries (`mesh_backend.py`) |
| `LinkFraming.dfy` | length-prefixed framing and the TCP handshake (`ardop_link.py`, `tcp_link.py`) |

Objects that the source updates in place are classes here: `MeshNode.MeshNode`, `GapTracker.Tracker`,
`ChatStore.Store`, `ChatSync.ChatClient`, `SyncBackend.Backend`, `LinkFraming.ArdopReceiver`, `TcpReceiver` and
`Socket`. Their methods are proved to have exactly the effect of a function on the object's abstract state. The
run-level theorems are about those functions.

## How the network is modelled

The medium is the set of every frame ever transmitted. Any node may receive any of them, including its own, at any
later step, any number of times or never. An event may also be a send, an OGM, a cleanup or a process restart.
Each node has its own clock. A theorem that needs a restriction names it: "no route entry is lost", "no restart",
"the counter does not wrap", "the clock does not go back". All other runs are covered.

zlib is a pair of functions with `decompress(compress(x)) == x`, and the JSON text of sync messages is a pair of
functions that invert each other. Channel, nick and text are their UTF-8 bytes.

## Where the code and its documentation differ

- The design review (docs/mesh_protocol_arrl_review.md, section 8) says duplicates are dropped immediately. That
  holds for DATA only: an OGM is forwarded every time it is heard. `MeshFlood.OgmFloodExact` gives the exact number
  of receptions this causes.
- The retry scheduler promises bounded attempts (mesh_backend.py:1487). The requests transmitted per ask for a key are
  bounded exactly when its channel is disabled, does not defer or has no window, or no handler asks for the key or the
  drain loop ignores it (`SyncScheduler.BoundedExactlyWhen`). In an enabled channel with a window that defers, the
  drain path restarts the count, and one request is repeated for ever.
- The minimum interval between sync requests holds per peer label (`SyncScheduler.CooldownHolds`). Automatic sync
  labels a peer by its callsign and a user's request the default peer by its nick, so one node with two labels can be
  asked twice at once (`SyncScheduler.TwoLabelsNoCooldown`).
- The program's README (line 124) says sync requests repair missing messages. While the windows cover the channel,
  last-N sync does so exactly when two things hold: the requester has no hole below its own highest number of an
  origin, and no two lacking rows of an origin that are out of number order are split between two responses
  (`ChatSync.SyncRepairsExactlyWhen`). Two messages of one second heard in the wrong order are enough to break the
  second (`ChatSync.SwappedNeverRepaired`).
- Range sync repairs holes too (`ChatSync.RangeRepair`), but a gap report asks only for low numbers. Number 0 never
  arrives, so every new arrival lists all lower numbers again, received or not. Once an arrival is numbered at least
  max_requests * max_range_len (150 with the defaults), a report asks for exactly the numbers below that bound, and of
  messages that arrive in order a lost one at or above it is never asked for (`GapRepair.RunAsksLowest`).
- Nodes number their packets from 1, and OGMs and sync messages share the counter, while the tracker expects chat
  messages from 0. Number 0 of every origin is listed as missing as soon as anything arrives
  (`MeshGaps.ZeroIsAlwaysMissing`). So is every number spent on an OGM or a sync message once a later message has
  arrived, and no range request can repair it (`MeshGaps.SpentNumbersAreGaps`).
- A restart resets a node's counter while its chat log survives, and a reused number can make stores disagree
  (`ChatConflict.RestartBreaksAgreement`). Where chat sends go to full nodes, stores can come to disagree exactly when
  some send got a number under which its node had said something else (`ChatConflict.DisagreementExactlyWhen`). In
  general they can exactly when some key has two versions, held by stores or on the way to full nodes
  (`ChatVersions.CanDisagreeExactlyWhen`).
- A single expired route entry is enough for a node's next hop to be the node itself. Exactly when the origin's OGM
  TTL is at least 2 and there is another node, some run loops (`RouteExpiry.LoopsExactlyWhen`). `best_next_hop` only
  gates forwarding, so such a loop misleads the table but does not make a packet circulate.

## Model

| member | source | states |
|---|---|---|
| MeshFrame.HeaderRoundTrip | mesh_node.py:215-242 | parsing a built header, whatever body follows, gives back every field and the body |
| MeshFrame.HeaderRebuild | mesh_node.py:215-242 | every byte string with the current version is the rendering of its own parse |
| MeshFrame.DataLayout | mesh_node.py:510-540 | byte by byte, a received frame is a given DATA message iff its header and body bytes are these |
| MeshFrame.OgmLayout | mesh_node.py:510-540 | byte by byte, a received frame is a given OGM iff its header, hop and metric bytes are these |
| MeshFrame.OgmFrameRoundTrip | mesh_node.py:248-264 | a received OGM frame is read as the origin, number, TTL, hop and metric that were sent |
| MeshFrame.DataFrameRoundTrip | mesh_node.py:510-540 | a received DATA frame with a body is read as what was sent |
| MeshNode.MeshNode.BroadcastOgm | mesh_node.py:248-264 | takes one number and transmits one OGM naming the node itself as hop, with metric 255 |
| MeshNode.MeshNode.SendApplicationData | mesh_node.py:184-195 | takes a number and transmits one frame, or changes nothing for a destination that is not 8 bytes |
| MeshNode.MeshNode.ReceiveOgm | mesh_node.py:266-315 | refreshes the neighbour, replaces the route only for a newer number, always forwards while the TTL allows |
| MeshNode.MeshNode.ReceiveData | mesh_node.py:359-443 | the whole effect of a DATA frame: cache, early returns, delivery or gated forwarding |
| MeshNode.MeshNode.Receive | mesh_node.py:510-540 | dispatch of a raw frame, with every frame that is ignored |
| MeshNode.MeshNode.RunCleanup | mesh_node.py:476-502 | removes exactly the entries older than their expiry from the three tables, and nothing else |
| MeshNetwork.RouteInvStep | mesh_node.py:266-315 | every step keeps: each hop named on the air knows the announcement, and each next hop is strictly closer to the origin |
| MeshNetwork.RouteDescends | mesh_node.py:445-449 | along a route every later node has a newer number, or took the same one at an earlier step |
| MeshNetwork.LoopFreedom | mesh_node.py:266-315 | in every run that loses no route entry, following next hops never repeats a node, takes fewer hops than there are nodes, and arrives |
| MeshTables.RouteStep | mesh_node.py:287-301 | any event leaves a route as it was, replaces the whole entry by a newer announcement's, or forgets it |
| MeshTables.RouteIsLastNewer | mesh_node.py:287-301 | in every run, hop, number, metric and time of a route are those of the one announcement that gave it its number; none since was newer |
| MeshTables.RouteExpiresExactlyWhen | mesh_node.py:476-483 | a cleanup keeps a route iff no more than the expiry has passed since that announcement was received |
| MeshTables.NeighborIsLatest | mesh_node.py:276-285 | a neighbour's time and metric are those of the latest OGM naming it as transmitter |
| MeshTables.NeighborExpiresExactlyWhen | mesh_node.py:486-492 | a cleanup keeps a neighbour iff no more than its expiry has passed since that OGM |
| MeshTables.KeyIsAcceptance | mesh_node.py:371-377 | a cached packet id has the time of the receipt that accepted the packet, and has been there since |
| MeshTables.KeyExpiresExactlyWhen | mesh_node.py:494-502 | a cleanup keeps a packet id iff no more than the cache expiry has passed since its acceptance |
| RouteExpiry.ExpiryAllowsLoop | mesh_node.py:476-483 | in every network with another node and OGM TTL at least 2, a run with one expiry ends with that node's next hop being itself |
| RouteExpiry.ShortTtlNeverLoops | mesh_node.py:303-315 | with OGM TTL 1 or less every route toward the origin is one hop to it, whatever expires, restarts or wraps |
| RouteExpiry.LoopsExactlyWhen | mesh_node.py:303-315 | some run without restarts holds a route toward the origin that repeats a node iff its OGM TTL is at least 2 and there is another node |
| MeshDelivery.UnpackInvertsPack | mesh_node.py:321-357 | unpacking inverts packing whether or not compression paid off, and returns destination and number |
| MeshDelivery.EndToEndIntegrity | mesh_node.py:359-443 | in every run, each application callback matches an earlier send by that origin of that payload under that number, at the addressee |
| MeshDelivery.AcceptancesAreApart | mesh_node.py:494-502 | with cleanup and a monotone clock, two acceptances of a packet at one node are more than the cache expiry apart |
| MeshDelivery.ActsOnce | mesh_node.py:371-377 | while the key is not forgotten, a node forwards or delivers a packet in at most one event |
| MeshDelivery.AtMostOncePerNode | mesh_node.py:371-443 | and the whole network transmits it at most once per node plus the original |
| MeshRelay.DataIsSent | mesh_node.py:321-357 | a send transmits the next number, the configured TTL, destination and number again, and the payload, compressed iff that is shorter |
| MeshRelay.OgmIsSent | mesh_node.py:248-264 | an announcement carries the next number, the configured TTL, the node itself as hop and metric 255 |
| MeshRelay.OgmIsForwarded | mesh_node.py:303-315 | an OGM is forwarded iff its TTL exceeds 1, with only TTL and hop changed |
| MeshRelay.BodyIsRead | mesh_node.py:382-410 | the application bytes of a DATA body for every setting of the compression and encryption flags |
| MeshRelay.ShortBodyIsNotRead | mesh_node.py:382-393 | a body without destination and number, or an encrypted one without nonce and a byte more, is dropped |
| MeshRelay.DataIsHandled | mesh_node.py:371-443 | a cached packet does nothing; otherwise it is cached, and delivered iff readable and for this node, and forwarded iff readable, for another node, TTL above 1 and a route known, with only the TTL changed |
| MeshRelay.OthersAreIgnored | mesh_node.py:510-540 | exactly which frames are ignored, and that they change nothing |
| MeshRelay.OgmTravels | mesh_node.py:266-315 | an OGM with enough TTL can be handed along any chain of nodes, each of which then has a route to its origin |
| MeshRelay.TravelsExactlyWhen | mesh_node.py:371-443 | a packet can be handed along a path and delivered at its end iff no node is on it twice or has cached it, all but the last have a route to the destination, which is the last, and the TTL covers the hops |
| MeshRelay.DiscoverAndDeliver | mesh_node.py:266-443 | any run can go on so that an announcement travels back along any path and then a packet travels along it and is delivered, if the two TTLs cover it and no node on it has the key |
| MeshFlood.ForwardLowersTtl | mesh_node.py:303-315 | an answer to a frame is the same kind with a TTL one lower; an OGM with TTL above 1 is always forwarded |
| MeshFlood.ReceiptLowersWeight | mesh_node.py:303-315 | each reception lowers the total weight in flight, by exactly one for an OGM heard by every possible receiver |
| MeshFlood.FloodBound | mesh_node.py:303-315 | receptions so far plus the weight still in flight never exceed the initial weight |
| MeshFlood.OneTransmissionBound | mesh_node.py:248-264 | one transmission with TTL t heard by at most D nodes causes at most D * W(t) receptions |
| MeshFlood.OgmFloodExact | mesh_node.py:303-315 | an OGM heard by D nodes each time is received exactly D * W(t) times |
| ChatProtocol.DecodeEncode | chat_protocol.py:29-113 | decoding an encoded message returns it, for every encodable message and any receiver clock |
| ChatProtocol.EncodeDecode | chat_protocol.py:62-113 | every accepted version-2 byte string is the encoding of what it decodes to |
| ChatProtocol.EncodingLayout | chat_protocol.py:29-59 | exactly which messages can be encoded, and the encoding byte by byte |
| ChatProtocol.VersionOne | chat_protocol.py:62-113 | a version-1 message is read with the local clock as its time |
| ChatProtocol.DecodesExactlyWhen | chat_protocol.py:62-113 | a payload is read iff its version is 1 or 2 and it holds the lengths it announces |
| ChatProtocol.EncodeMessage | chat_protocol.py:29-59 | the header filled in place gives the encoding, or the error exactly when a length or the timestamp is out of range |
| ChatStore.Store.HasMessage | chat_store.py:117-125 | true iff a row has that key |
| ChatStore.Store.AddMessage | chat_store.py:61-115 | inserts unless the key is held; the hook fires exactly when a row was inserted |
| ChatStore.SortedUnique | chat_store.py:193-207 | a list strictly sorted by timestamp and id is determined by its rows |
| ChatStore.LastNIsWindow | chat_store.py:184-207 | the last-N query returns the right number of the channel's rows in time order, every other row of the channel being earlier |
| ChatStore.ListingExists | chat_store.py:240-254 | the channel list as grouped, ordered by last activity and cut at the limit |
| ChatStore.ListedByActivity | chat_store.py:240-254 | no channel listed later, or left out, has a message after the latest of one listed earlier |
| ChatStore.LastActivityIsMax | chat_store.py:240-254 | a channel's last activity is the largest timestamp of its rows |
| ChatStore.PruneTransparent | chat_store.py:256-285 | pruning to n changes no last-m answer with m <= n; a pruned channel keeps its newest n rows, others all of theirs |
| ChatStore.PruneCounts | chat_store.py:256-285 | with no more channels than the listing limit, each channel ends with min(n, old count) rows |
| ChatStore.Store.PruneKeepLastN | chat_store.py:256-285 | the loop prunes every listed channel and returns the number of rows removed; n below 1 is an error and changes nothing |
| ChatSync.ApplyRowsKeys | chat_client.py:1048-1095 | storing a response adds exactly the keys sent, after the old rows, and loses nothing |
| ChatSync.RangeRepair | chat_client.py:977-1006 | after a range request, bounds in either order, the requester holds the lowest min(limit, count) matching rows, has lost nothing, and applying again changes nothing |
| ChatSync.MaxSeqnosMeaning | chat_client.py:723-730 | the inventory covers every row of the window and each entry is a real row's number |
| ChatSync.CoveredMeansHeld | chat_client.py:1021-1029 | in a ready state the inventory covers a responder row exactly when the requester holds it |
| ChatSync.RoundSendsLacking | chat_client.py:1008-1046 | and a round sends exactly the oldest rows the requester lacks, up to the limit |
| ChatSync.RoundProgress | chat_client.py:1048-1114 | from a state in which sync can complete, one round adds exactly min(limit, lacking) rows, leaves the rest lacking and ends in such a state |
| ChatSync.WindowsStayCovering | chat_client.py:1048-1114 | holes or not, and in any order of rows, a round sends only lacking rows, so windows that cover the channel go on covering it |
| ChatSync.RoundNeverMends | chat_client.py:1008-1046 | a state in which sync can complete stays one in every round, and one in which it cannot never becomes one |
| ChatSync.SyncConverges | chat_client.py:703-738 | nothing is lacking after k rounds iff k * limit >= lacking; then every responder row is held with the same content |
| ChatSync.HoleStaysAfterRound | chat_client.py:1021-1029 | a row numbered no higher than the requester's own highest from its origin is not repaired by a last-N round, whatever the windows |
| ChatSync.InOrderIsRepairable | chat_store.py:193-207 | a requester without holes and a responder window with each origin's rows in number order are such a state |
| ChatSync.SyncRepairsExactlyWhen | chat_client.py:703-738 | windows covering, some number of rounds leaves nothing lacking iff the requester has no hole and no two lacking rows of an origin are out of number order across a round boundary |
| ChatSync.SwappedNeverRepaired | chat_store.py:193-207 | two messages of one second heard in the wrong order, sent one at a time, are never both received, although the requester started without a hole |
| ChatSync.ChatClient.RequestLastN | chat_client.py:703-738 | the loop builds the inventory of the window; nothing is sent for a window size of 0 or less |
| ChatSync.ChatClient.RequestRange | chat_client.py:740-767 | nothing is sent iff a bound is negative; otherwise exactly the two bounds are sent, the lower one first |
| ChatSync.ChatClient.HandleRequest | chat_client.py:941-1046 | the rows answered for each request mode, with clamped window and limit |
| ChatSync.ChatClient.CollectUncovered | chat_client.py:1021-1040 | the loop with its early exit collects the first uncovered rows up to the limit |
| ChatSync.ChatClient.HandleResponse | chat_client.py:1048-1114 | stores exactly the well-formed records not held, up to the first that cannot be converted; `applied` is the growth of the table |
| SyncAnswers.SinceAnswer | chat_client.py:956-975 | a "since" request is answered with the channel's oldest later rows, as many as one response may carry |
| SyncAnswers.InventoryAnswer | chat_client.py:1008-1040 | a last-N request is answered with the oldest rows its inventory does not cover, in a window no larger than asked for and than the responder's own setting |
| SyncAnswers.AppliedExactly | chat_client.py:1048-1095 | a key is stored from the first record that has it, up to the first element that raises, stamped with the time of storing; nothing else is added and nothing lost |
| ChatNetwork.SoundStays | chat_store.py:37-51 | every event keeps each table's ids ascending and its keys unique, and the set of nodes |
| ChatNetwork.AnswerFromTable | chat_client.py:941-1046 | a responder sends only rows of its own table and of the requested channel |
| ChatNetwork.OthersOnlyRelay | chat_client.py:633-681 | a node that is not full says and asks nothing, and only its mesh layer acts on what it hears |
| ChatNetwork.OldRowsGo | chat_store.py:287-315 | age pruning deletes exactly the node's rows from before the cutoff |
| ChatNetwork.OnAppDataKeeps | chat_client.py:877-930 | whatever a client does with a payload that was really sent keeps every store true to what was said |
| ChatNetwork.StoresAgree | chat_client.py:633-681 | in every run in which no chat send gets a number its node used to say something else, any two stores agree on every key they share |
| ChatNetwork.SteadyRunsAgree | mesh_node.py:206-209 | without restart and counter wrap that is so, and stores agree |
| ChatRound.RequestOverMesh | chat_client.py:703-767 | a sync request, its hearing and the hearing of its answer store exactly what the responder's rows answer, and change no other store |
| ChatRound.RepairedOverMesh | chat_client.py:932-1114 | from every run that leaves a converging pair of full nodes, another goes on without chat sends until the requester holds every row of the responder's channel |
| ChatConflict.ConflictSpreads | chat_client.py:899-930 | two frames with one number and different messages, to full nodes, can be brought into two different stores |
| ChatConflict.DisagreementExactlyWhen | chat_client.py:633-681 | after a run with chat sends to full nodes, some continuation without chat sends makes two stores disagree iff some send of the run got a number under which its node had said something else |
| ChatVersions.NoNewVersion | chat_client.py:877-930 | no step but a chat send makes a store or a payload carry a content under a key that none carried before |
| ChatVersions.CanDisagreeExactlyWhen | chat_client.py:877-930 | after any run, some continuation without chat sends makes two stores disagree iff two contents of one key are each held by a store or carried by a payload sent to a full node |
| ChatConflict.RestartBreaksAgreement | mesh_node.py:126-128 | from the start: a node says one message, restarts, says another, which is heard; two stores then disagree |
| GapRanges.InsertIsUnion | chat_client.py:261-296 | inserting a range is set union, keeps the list sorted, disjoint and non-adjacent, and never makes a member's stamp later |
| GapRanges.InsertMerges | chat_client.py:261-296 | every range is an old one or the one that swallowed the insertion, stamped with the earliest of the insertion and the ranges inside it |
| GapRanges.RemoveIsDeletion | chat_client.py:298-314 | removing a number is set deletion and makes no other stamp later |
| GapRanges.TrimIsCut | chat_client.py:367-376 | trimming keeps exactly the members above the prefix, with their stamps |
| GapRanges.NoEarlierStamps | chat_client.py:298-376 | and neither removing nor trimming makes a stamp earlier |
| GapRanges.AddRange | chat_client.py:261-296 | the merge loop computes the insertion; the final sort has nothing to do |
| GapRanges.RemoveSeq | chat_client.py:298-314 | the splitting loop computes the deletion |
| GapTracker.ExactTracking | chat_client.py:323-382 | after any arrivals, prefix and buffer are exactly what was ingested, the prefix is longest, and n is missing iff the latest first-time arrival at or above n is above it |
| GapTracker.NothingLost | chat_client.py:323-382 | no unreceived number below the highest arrival is ever lost |
| GapTracker.FirstGapFollowsPrefix | chat_client.py:348-376 | gaps are listed iff something is buffered, and the first one starts right after the prefix |
| GapTracker.ReceivedYetMissing | chat_client.py:353-362 | a received number can be listed again: arrivals 5 then 10 list 5 |
| GapTracker.ConfirmedInTime | chat_client.py:398-402 | with a monotone clock, a number missing for the delay is inside a range flagged confirmed, and every stamp is a real arrival time |
| GapTracker.Tracker.OnSeqno | chat_client.py:323-382 | one call: the lines and the new state are those the origin's whole arrival history determines; other origins are untouched |
| GapTracker.Tracker.Track | chat_client.py:348-376 | the in-place update with its advance loop computes the specified state |
| GapTracker.Tracker.MaybeReport | chat_client.py:384-430 | rate limiting, the signature test and the lines of both status buckets |
| GapTracker.ReportRoundTrip | chat_client.py:415-429 | of the lines one report emits the backend acts on at most one and reads back exactly the confirmed ranges |
| GapReports.ReportsExactlyWhen | chat_client.py:398-413 | an arrival that leaves gaps produces lines iff its number is new, the interval has passed since the last report, and the ranges or their confirmation differ from those reported then |
| GapReports.ResolvedExactlyWhen | chat_client.py:386-396 | an arrival that leaves no gap produces the one closing line iff its number is new and the interval has passed since a report that listed gaps |
| GapReports.LinesSay | chat_client.py:417-430 | the lines list all suspected ranges and then all confirmed ones, in ascending order |
| GapReports.ReportedInTime | chat_client.py:384-430 | a number missing since some arrival is in a report the backend acts on by the first new arrival that comes the delay plus the interval later |
| GapText.ConfirmedLineRoundTrip | mesh_backend.py:775-834 | reading a rendered confirmed line yields exactly the printed ranges |
| GapText.SuspectedLineIsInert | mesh_backend.py:775-776 | a suspected line triggers nothing |
| GapText.OnlyConfirmedLinesAct | mesh_backend.py:775-780 | a line asks for something only if it holds the confirmed status and a marker after some text |
| GapText.LinesLookLike | chat_client.py:422-429 | two lines letter by letter |
| GapText.ItemIsTolerant | mesh_backend.py:818-834 | an item is read with a hyphen or a dash and with its bounds in either order |
| GapText.NegativeItem | mesh_backend.py:818-834 | an item that starts with a sign is no range |
| GapText.SignIsRead | mesh_backend.py:825-829 | a number may have a sign |
| GapText.StripTrims | mesh_backend.py:783 | stripping removes white space at both ends and nothing else |
| GapText.LabelIsGood | chat_client.py:253-258 | the label of any 8-byte origin id is one the reader cannot confuse with the rest of a line |
| GapText.LabelIsCallsign | chat_client.py:253-258 | the label of a padded ASCII callsign is the callsign |
| GapText.LabelIsHex | chat_client.py:253-258 | the label of an id without any ASCII byte before its padding is its hex form |
| GapRequests.FullPlanIsBridge | mesh_backend.py:851-876 | the chunks cover n iff n lies between two reported numbers with at most merge_distance others between them |
| GapRequests.PlanIsLowestPrefix | mesh_backend.py:851-878 | chunks ascend and respect the length bound; what is sent is their prefix, cut only at the request bound, all below what is left out |
| GapRequests.NoMergingIsExact | mesh_backend.py:839-841 | with merge distance 0 the chunks cover exactly the reported numbers |
| GapRequests.Coalesce | mesh_backend.py:851-862 | the merging loop |
| GapRequests.ChunkRanges | mesh_backend.py:864-876 | the chunking loop |
| GapRequests.PlanRequests | mesh_backend.py:839-878 | clamped settings, sort, merge, chunk and truncation together give the plan |
| MeshGaps.DeliveredNumbersPositive | mesh_node.py:206-209 | without counter wrap no packet is delivered under number 0 |
| MeshGaps.ZeroIsAlwaysMissing | chat_client.py:327-333 | so in a run without restart and wrap the tracker's prefix never starts and number 0 is always listed as missing |
| MeshGaps.SpentNumbersAreGaps | mesh_node.py:206-209 | a number spent on an OGM or a sync message is listed as missing once a later message arrives, and no store ever answers a request for it |
| GapRepair.ConfirmedFromZero | chat_client.py:353-402 | without number 0, if any range is confirmed then every number below the newest arrival is in a confirmed one |
| GapRepair.PlanFromZero | mesh_backend.py:851-878 | where all numbers up to the request bound are reported, the requests cover exactly the numbers below it, whatever else is reported |
| GapRepair.ReportAsksLowest | mesh_backend.py:749-891 | from arrivals to requests: with the newest arrival at or above the bound, a gap report asks for exactly the numbers below the bound |
| GapRepair.NeverAskedFor | mesh_backend.py:749-891 | of messages arriving in order, a lost one at or above the bound is in no request of any report |
| GapRepair.RunAsksLowest | mesh_backend.py:749-891 | both over every run without restart and counter wrap |
| GapRepair.RunAsksInTime | mesh_backend.py:749-891 | and a report is acted on: by the first new arrival that comes the delay plus the interval after the first one |
| ChannelPolicy.LastOverrideWins | chat_client.py:111-211 | each policy field is the value of the last entry that matches the channel and sets it, negative numbers read as 0, else the global default |
| ChannelPolicy.GetChannelSyncPolicy | chat_client.py:111-211 | the override loop computes that resolution |
| SyncScheduler.StepSends | mesh_backend.py:1445-1471 | a step sends at most once, only after the key's cooldown, and then notes the time |
| SyncScheduler.CooldownHolds | mesh_backend.py:1052-1120 | any two sends under one peer label and channel, by any path, are at least the minimum interval apart |
| SyncScheduler.CooldownPerNode | mesh_backend.py:1052-1120 | the same for one node and channel, where each node goes by one label |
| SyncScheduler.TwoLabelsNoCooldown | mesh_backend.py:1087-1095 | a node known by its callsign and as the default peer can be asked twice at one instant |
| SyncScheduler.RetryStep | mesh_backend.py:1565-1630 | between resets the due time never moves back and attempts rise by one exactly when a request is made |
| SyncScheduler.DelayTable | mesh_backend.py:1526-1530 | the backoff is 5, 10, 20, 40, 80 and then 120 seconds, each the smaller of 120 and twice the one before |
| SyncScheduler.JitterAdds | mesh_backend.py:1532-1537 | every byte of node id and channel adds its value to the jitter, modulo 1000 ms |
| SyncScheduler.AtMostSixTries | mesh_backend.py:1565-1630 | between resets the retry loop makes at most six requests for a key |
| SyncScheduler.TriesAreSpaced | mesh_backend.py:1525-1538 | a request and the next one are at least 10, 20, 40, 80 and then 120 seconds apart |
| SyncScheduler.DueAgainSoon | mesh_backend.py:1525-1538 | and the key is due again less than one second after that |
| SyncScheduler.SilentAfterwards | mesh_backend.py:1565-1576 | after the sixth request, or after giving up, the key stays silent until reset |
| SyncScheduler.NotDeferringIsBounded | mesh_backend.py:1480-1516 | a key whose channel is disabled, does not defer or has no window, or that no handler asks for, causes at most six more sends while it is not asked for again |
| SyncScheduler.DeferringIsUnbounded | mesh_backend.py:1461-1471 | in an enabled deferring channel with a window, for every key a handler asks for and every n, one request can be sent n + 1 times |
| SyncScheduler.BoundedExactlyWhen | mesh_backend.py:1480-1516 | some number bounds the sends per request for a key over all runs iff its channel is disabled, does not defer or has no window, or no handler asks for the key or the drain loop ignores it |
| SyncOutcomes.TurnsExactlyWhen | mesh_backend.py:1557-1563 | a retry state has its turn iff it has not given up and its due time has come |
| SyncOutcomes.RequestsExactlyWhen | mesh_backend.py:941-1120 | exactly when a user, automatic, drained or retried request is made and noted, from policy, cooldown, link, peer and outcome of the call |
| SyncOutcomes.PendingExactlyWhen | mesh_backend.py:1392-1471 | exactly what is pending after any step |
| SyncOutcomes.RetriesExactlyWhen | mesh_backend.py:1480-1630 | exactly what the retry table holds after any step: when a state is due again after each gate, and when it starts afresh or goes |
| SyncBackend.Backend.ScheduleSyncRetry | mesh_backend.py:1480-1516 | creates or resets the retry state |
| SyncBackend.Backend.ClearSyncRetriesForChannel | mesh_backend.py:1518-1523 | removes exactly the channel's retry states |
| SyncBackend.Backend.RequestSyncForChannel | mesh_backend.py:1019-1120 | how the peer is found, every gate of a manual request, and what it sends or defers |
| SyncBackend.Backend.AutoSyncNewPeer | mesh_backend.py:957-1005 | every gate of automatic sync for a new peer, its setting and the table of known nodes included |
| SyncBackend.Backend.DrainPendingSync | mesh_backend.py:1405-1474 | the loop over the pending snapshot, one drain step per entry |
| SyncBackend.DrainLast | mesh_backend.py:1405-1474 | the last entry of the snapshot is drained after all others and is still pending then |
| SyncBackend.Backend.RetryItem | mesh_backend.py:1565-1630 | the whole effect of one due retry state |
| SyncBackend.Backend.RetryDue | mesh_backend.py:1555-1630 | the loop over the due states, one retry step per entry |
| SyncBackend.RetryLast | mesh_backend.py:1555-1630 | the last due state has its turn after all others and is still due then |
| SyncBackend.Backend.OnGapReport | mesh_backend.py:749-891 | when a line leads to range requests, to whom, which ones, and when the cooldown is noted |
| LinkFraming.FramesResume | ardop_link.py:402-420 | decoding may stop anywhere and resume: more bytes only add frames |
| LinkFraming.DecodersAgree | tcp_link.py:484-507 | both decoders agree exactly on streams without zero-length frames, which only the ARDOP link delivers |
| LinkFraming.ChunkInvariance | ardop_link.py:402-457 | for any chunks and reconnects, the frames delivered are exactly each connection's complete frames in order |
| LinkFraming.TransmitRoundTrip | ardop_link.py:353-368 | a receiver of everything transmitted gets exactly the non-empty payloads of at most 65535 bytes |
| LinkFraming.StreamLayout | tcp_link.py:509-540 | the stream is the payloads in turn behind their two length bytes, high byte first, without empty and oversized ones |
| LinkFraming.BrokenConnectionDeliversPrefix | ardop_link.py:362-372 | a connection cut anywhere has delivered a prefix of what was sent |
| LinkFraming.ArdopReceiver.Connect | ardop_link.py:224-261 | a new connection drops the partial frame and keeps what was delivered |
| LinkFraming.ArdopReceiver.ProcessRxBytes | ardop_link.py:402-457 | after each chunk, exactly the complete frames of the connection's bytes so far have been delivered |
| LinkFraming.TcpReceiver.OnChunk | tcp_link.py:471-476 | the same for the TCP link |
| LinkFraming.TcpReceiver.DrainRxBuffer | tcp_link.py:484-507 | the in-place loop delivers every complete non-empty frame and leaves the rest |
| LinkFraming.FramePayload | tcp_link.py:509-540 | the bytes written for one queued payload, and those not written |
| LinkFraming.HandshakeAligned | tcp_link.py:391-446 | with the right password the server is left at the first frame; with a wrong one the client is refused with the password reply |
| LinkFraming.AcceptedMeansGreeted | tcp_link.py:408-446 | only the greeting for the expected password is ever accepted |
| LinkFraming.GreetingOutcomes | tcp_link.py:408-446 | exactly which first bytes lead to which outcome and reply |
| LinkFraming.Socket.RecvExact | tcp_link.py:557-565 | reads exactly n bytes however they arrive, or fails when the peer closes first |
| LinkFraming.Socket.ServerHandshake | tcp_link.py:408-446 | outcome, reply byte and unread bytes, over any arrival pattern |

## Left out

- AES-GCM encryption: sends are modelled with encryption off; a received frame with the encryption flag takes the pass-through branch.
- UTF-8 and JSON text: decoding with replacement characters and the inside of JSON are not modelled; a record with a field of the wrong type is skipped, and an element that makes the handler raise ends the response.
- MeshFlood.OneTransmissionBound: counts receptions of forwarded copies only; sends that an application makes in answer to a delivery are new transmissions.
- ChatSync.SyncConverges: assumes that the stores agree (`ChatNetwork.StoresAgree` provides it) and that the windows cover the channel; what else it assumes is the condition of `SyncRepairsExactlyWhen`.
- ChatConflict.DisagreementExactlyWhen: takes chat sends addressed to full nodes; `ChatVersions.CanDisagreeExactlyWhen` has no such condition. Both take a network with two full nodes; with one there is only one store.
- SyncScheduler.CooldownHolds: is per peer label, as the program's table is, not per node.
- ChatNetwork.StoresAgree: the local receive time `ts` of a row is not part of the agreement; stores set it themselves.
- MeshGaps.ZeroIsAlwaysMissing: says nothing about runs in which a node restarts or a counter has wrapped past 32 bits.
- LinkFraming.Socket.ServerHandshake: does not model a reply that cannot be written, where the source also refuses the client.
- LinkFraming.ArdopReceiver.ProcessRxBytes: does not model callbacks that raise; the source drops the frame or stops the link.
- SyncBackend.Backend.DrainPendingSync: takes the table order of the snapshot as a parameter; dictionary order is not modelled.
- GapRanges.AddRange: takes the sorted, disjoint list the tracker keeps; what the helper would do with any other list is not modelled.
- ChatSync.ChatClient.HandleRequest: rows with equal timestamps are answered in id order for a "since" request, an order SQL leaves open.
- GapReports.ReportedInTime: takes a clock that does not go back and reads 0 or later, as the tracker's own start value for the last report does; a report goes out only with an arrival.
- GapTracker.Tracker.MaybeReport: the signature is the list of ranges and flags the source prints, not its text.
- GapText.ConfirmedLineRoundTrip: holds for labels that are not all white space; number texts with underscores or non-ASCII digits are not read.
- Joint behaviour of chat client and gap tracker: the tracker is fed arrivals directly; in `MeshGaps` their numbers are those of messages held in a run, in any order.
- The client side of the TCP handshake, after the greeting, is a one-byte read and has no property of its own.
- Threads, locks, real sockets, SQLite transactions and schema migration: handlers are atomic, a socket is its list of arriving segments, a table is a list of rows.
- Plain address books, user interface, export tools, plugins, diagnostics, link metrics text and configuration reading.
- `get_recent_messages` and retention settings: display order and scheduling of age pruning; the deletion itself is an event of `ChatNetwork`.
