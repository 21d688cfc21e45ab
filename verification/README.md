# Proofs about the network labs

This project models the parts of the network labs that carry real logic and proves what they are for.

* **Link-state routing** (`Graphs`, `Dijkstra`, `Forwarding`, `LinkState`, `MospfDaemon`, `Flooding`, `Advertising`,
  `GraphDrawing`, `RoutingTable`, `Convergence`, `LinkSubnets`). The daemon's handlers are methods of a class; the
  flooding protocol is a state machine over all routers and the packets in flight, with Hellos, neighbour timeouts,
  periodic originations and deliveries in any order. The layers are joined in two theorems.
  `Convergence.QuietNetworkForwards`: in every run, once flooding is quiet and every router originated after the last
  neighbour change, all routers draw the same graph and the tables each computes from its own drawing forward every
  packet along a shortest path that repeats no vertex. `Convergence.ComputedHopsForward`: along that route every
  router's computed hop is the next vertex, and exactly when a hop is missing at the last router. `TwoRouters` gives a
  run that meets all the premises, and `FloodingRest` (over the general `Spreading`) decides exactly when deliveries
  can go on for ever, and shows that then no order of them ends; `RingNetwork` gives a run after which that is so, and
  `LineNetwork` proves the opposite of every line. The runs are made of the steps in `SmallNetworks`.
* **User-space TCP** (`RingBuffers`, `TcpState`, `SendLoop`, `SendCalls`, `TcpSock`, `TcpConnection`, `TcpWindows`,
  `TcpNumbers`). One inductive invariant over two sockets and two channels covers handshake, data and close; the byte
  streams, the numbering, both windows, the states passed through and the order of the close follow from it. The send
  loop is run against every interleaving of the window's accesses with the thread that receives window updates,
  through the wait structure of `SynchWait` it sleeps on.
* **Address translation** (`NatIndex`, `Nat`, `NatTeardown`, `NatSweep`, `NatRuns`, `NatSharing`, `NatHistory`): the
  doubly stored table, with the time stamp and FIN flags that every copy keeps for itself, against the plain list of
  mappings, for any hash; the teardown on a reset; the timeout sweep over all ports; whole runs of all three; what
  packets meet in a memory that is no index any more; and what a copy records of the packets of its run.
* **ARP cache** (`ArpCache`, `ArpRelease`): conservation and order of waiting packets over all interleavings of
  critical sections, and where and when they leave.
* **Smaller pieces with exact specifications** (`SynchWait`, `UnibitTrie`, `Checksum`, `LongestPrefix`).

Where the code does not do what one would expect of it, the model keeps the code's behaviour and the exact
boundary is a theorem:

* `minDistance` leaves its result unset when no unvisited vertex is in reach. `Dijkstra.Dijkstra` skips such a round
  and reports it: every round finds a vertex exactly when paths shorter than the infinite distance lead to at least
  n - 1 vertices. `IsolatedSourceMissesRound` is an input where it does not.
* `find_desired_index` may only be started where the predecessor is not -1. The routing thread starts it where the
  subnet of the last link is known, which `QuietHopIsInstalledIff` says (no advertised subnet being zero) is where
  another router advertises that link: no hop is installed for a router's own host network, which it reaches directly,
  and by `ComputedHopsForward` no other hop is missing.
* `FloodingNeverRestsIff`: deliveries can go on for ever exactly when a packet in flight leads into a cycle of relays,
  and then no order of deliveries ever empties the flight; otherwise they stop. `RingNeverRests` is a run of four
  Hellos after which a copy is always in flight.
* `NextUpdateIsAcceptedIff`: the next link-state update is accepted unless the 16-bit number wraps. The flooding runs
  therefore assume that no origination wraps the counter.
* `DatabaseIsOrderIndependentIff`: arrival order matters exactly when an originator issued two different newest
  updates.
* `HandleLsu` writes an update of more than five advertisements past the end of the database entry; `inBounds` says
  when it does not, and the flooding runs deliver only there.
* `EstablishedIsNotified`, `FirstWriteEmptyIff`: the handshake leaves the sender a notification it never slept for, so
  the first write that exceeds the peer's window, if no update arrives meanwhile, sends an empty segment, which the
  peer's buffer asserts against.
* `Lawful` (by `SendRunMeaning` for every segment in every interleaving): a piece is as long as frame, rest and window
  allow, except exactly where a window within that limit changed before it was read again as the size; the lemma says
  when the piece is then empty or too long for the frame. By `Overruns` a call reads past the end of its data only
  where that window exceeds what is left. `RaisedBetweenReadings` gives calls of both kinds.
* `Lawful` also says exactly when the window the sender leaves behind is not the room that was granted: when it was
  lowered below the piece after the cut, so that 16 bits wrap, or changed inside the subtraction.
* `ForgottenIff`: a sender that finds the window at zero can be left asleep for good, with the window open again,
  exactly when an update has just looked at the window and saw it open. `SendCalls.LostWakeUp` is a whole call that
  ends so; `NotForgottenIfStoredAtOnce`: none does where every update stores before the sender runs again.
* `InitialWindowIsTooLarge`: the first advertised window exceeds the receive buffer by one byte. `BackToBackFitsIff`
  says when a burst passes the buffer's assertion.
* `ExpectedAfterDataIff`: the number expected after data does not count its length, so it agrees with the peer's next
  byte exactly after a segment of one byte.
* `DeliveryKeepsStreamWholeIff`: bytes that reach the client after it closed are dropped.
* `ResetTearsDownIff`: a reset after both FINs removes a mapping exactly when its two ports hash to one bucket. Where
  they hash apart it removes the one copy it meets, and leaves the other, exactly when that copy's unset flags happened
  to say that the other direction had finished. An outbound packet is also sent twice exactly when the ports share a
  bucket.
* `StepKeepsIndexIff` says for every packet and every sweep exactly when the memory stays the index of a table. If
  copies start without flags only sweeps can break it (`UnflaggedRunKeepsIndex`); `UnsetFlagBreaksIndex` is a run in
  which a FIN and a reset do.
* `StepRemovesIff`, `MappingLastsIff`: for any hash a mapping lasts exactly until a reset that tears it down or a sweep
  that does not spare it, and by `OnlyResetsTake` a packet that is no reset never takes one. Until then
  `RepliesReachTheSender` and `FlowsNeverShareAPort` hold of it.
* `SweepDropsIff`, `SweepKeepsIndexIff`: the timeout sweep deletes an idle copy exactly when its bucket is that of some
  port still assigned at its turn, and leaves a consistent table exactly when the two copies of every mapping agree.
  `TimeoutForgetsFlowIff`: one idle mapping loses its port in any case, but its flow is forgotten exactly when some
  assigned port hashes to the internal port's bucket; `IdleFlowIsReached` is a run that ends where it is not.
* `NewFlowSharesPortIff`: in any memory a new flow shares its port with another exactly when some flow left from the
  port drawn before, although it was unassigned. `TwoFlowsShareAPort` is a run to that end: after a sweep two flows
  leave from one port, and replies reach the later one only.
* `ArpCache.Insert`: with the table full and the address unknown the original writes before the start of the array;
  `inBounds` says exactly when it does not.
* `AnswerServesAllIff`: an answer releases the first request for its address only; where two interfaces asked, the
  other goes on waiting.
* `PacketsAreConserved`: a first ARP probe is sent after the lock is released, so packets may be given up on when only
  four probes are on the wire; the lemma says exactly when, and `FourProbesHappen` is a run.
* `WakeUpIsNeverLostIff`: the wait structure is safe for one waiter and for no larger number.
* `WholeWordsAreRightIff`, `TcpChecksumIsRightIff`, `OddByteIsRightIff`: when the checksum equals the RFC 1071 sum.
* `OrderIrrelevantIff`: when the order of the forwarding table matters.

Modelling conventions. Packets are values with host-order fields. Random draws (NAT ports, ARP slots, initial
sequence numbers), times and the interleaving of threads are parameters; one reading of the clock serves a whole
sweep. So are the FIN flags that a new copy of a mapping happens to start with, which the original leaves unset. The
number of vertices is arbitrary and `rid_to_index` is an arbitrary injective numbering; matrices and
`purpose` start at zero. The neighbour and interface subnets (address under mask) are stored fields. Lists that the
code mutates are sequence fields that methods reassign. What is proved about the flooding, TCP, NAT and ARP state
machines uses the same functions that the class methods are proved to compute.

Steps assumed atomic. The routing daemon initialises `mospf_lock` but its threads never take it; each handler is
taken as one step all the same. The TCP handlers and socket calls take no lock either and are single steps in the
joint model. The send loop is cut before the window is tested, before and while it sleeps, before `dead` is read once
more, before the window is compared with the limit of a piece and before it is read again as its size, before the
subtraction reads the window and before it writes it back; a window update is cut between looking at the window,
storing the new one and waking the sender.

## Model

| member | source | states |
|---|---|---|
| `Dijkstra.MinDistance` | 11-mospf-ping/mospf_daemon.c:374-385 | picks the first nearest unvisited vertex below the infinite distance, or none exactly when there is none |
| `Dijkstra.Relax` | 11-mospf-ping/mospf_daemon.c:402-409 | exactly the strictly improving links out of the selected vertex are recorded in the three arrays |
| `Dijkstra.RoundKeepsPartial` | 11-mospf-ping/mospf_daemon.c:399-410 | a round keeps visited distances final, ordered and closed under links, and predecessors tight |
| `Dijkstra.Dijkstra` | 11-mospf-ping/mospf_daemon.c:387-411 | leaves a settled table (tight predecessors, no link can improve), purposes of the predecessor links, and every round finds a vertex exactly when n - 1 vertices are within reach by paths |
| `Dijkstra.IsolatedSourceMissesRound` | 11-mospf-ping/mospf_daemon.c:374-385 | an input family where a round finds no vertex |
| `Dijkstra.NoShorterPath` | 11-mospf-ping/mospf_daemon.c:387-411 | no path of any length undercuts a settled distance |
| `Dijkstra.TreePath` | 11-mospf-ping/mospf_daemon.c:387-411 | the predecessor chain is a path whose weight is the recorded distance |
| `Dijkstra.SettledIsShortest` | 11-mospf-ping/mospf_daemon.c:387-411 | recorded distances are the minimum over all paths, and finite exactly for vertices with a path below the infinite distance |
| `Dijkstra.TableIsUnique` | 11-mospf-ping/mospf_daemon.c:374-411 | of several shortest paths the one whose last router was selected first is recorded, so graph and source determine distances and predecessors |
| `Forwarding.FindDesiredIndex` | 11-mospf-ping/mospf_daemon.c:437-443 | the backward walk ends at the second vertex of the recorded shortest path |
| `Forwarding.FirstHopIsOnShortestPath` | 11-mospf-ping/mospf_daemon.c:437-443 | the first hop is a neighbour from which the true remaining distance is the total less that link |
| `Forwarding.StepGetsCloser` | 11-mospf-ping/mospf_daemon.c:437-443 | the next router's own table agrees that exactly the link's weight was travelled, and a stub is never a transit hop |
| `Forwarding.RouteIsShortestAndLoopFree` | 11-mospf-ping/mospf_daemon.c:387-443 | hop-by-hop forwarding over independent tables follows a shortest path, transits routers only and repeats no vertex |
| `LinkState.AbsorbMeaning` | 11-mospf-ping/mospf_daemon.c:661-700 | an update replaces or adds exactly its originator's entry, only if new or newer, and keeps entries unique |
| `LinkState.AbsorbAllKeepsNewest` | 11-mospf-ping/mospf_daemon.c:661-700 | after any sequence of updates there is one entry per originator seen, carrying a largest sequence number |
| `LinkState.DatabaseIsOrderIndependentIff` | 11-mospf-ping/mospf_daemon.c:661-700 | order and duplication are irrelevant exactly when newest updates of an originator agree |
| `LinkState.NextUpdateIsAcceptedIff` | 11-mospf-ping/mospf_daemon.c:153-154 | the next update replaces the stored one exactly when the 16-bit counter does not wrap |
| `LinkState.FitsIff` | 11-mospf-ping/mospf_daemon.c:661-700 | stored lists go on fitting their five places exactly when there is room for what an update stores |
| `MospfDaemon.Daemon.constructor` | 11-mospf-ping/mospf_daemon.c:22-40 | identity from the first interface, counter zero, no neighbours, empty database |
| `MospfDaemon.Daemon.CountAdvertisements` | 11-mospf-ping/mospf_daemon.c:62-79 | the count that sizes the packet equals the number of entries filled in later |
| `MospfDaemon.Daemon.FillAdvertisements` | 11-mospf-ping/mospf_daemon.c:114-144 | the entries are the host networks and neighbours of every interface in order, in the fields `Advertising.AdvertisementIff` states |
| `Advertising.AdvertisementIff` | 11-mospf-ping/mospf_daemon.c:114-144 | an entry is advertised exactly when it carries subnet and mask of an interface at a host network address under 101 or 102, or subnet, mask and identity of a neighbour |
| `MospfDaemon.Daemon.SendOn` | 11-mospf-ping/mospf_daemon.c:148-160 | one copy per neighbour of an interface under consecutive 16-bit numbers |
| `MospfDaemon.Daemon.SendLsu` | 11-mospf-ping/mospf_daemon.c:62-163 | state and packets are those of an origination |
| `Advertising.AnnounceAt` | 11-mospf-ping/mospf_daemon.c:146-161 | which copy goes where in the order of interfaces and neighbours, and under which 16-bit number |
| `Advertising.OriginateTellsAll` | 11-mospf-ping/mospf_daemon.c:62-163 | an origination changes the counter alone and tells every neighbour, in order, the list of now |
| `MospfDaemon.Daemon.HandleLsu` | 11-mospf-ping/mospf_daemon.c:652-726 | the database absorbs the update and copies go to all eligible neighbours, whether or not it was new; in bounds exactly when what is stored has at most five advertisements |
| `MospfDaemon.Daemon.Relay` | 11-mospf-ping/mospf_daemon.c:702-725 | a copy for every neighbour but the one it came from and the originator |
| `MospfDaemon.Daemon.HandleHello` | 11-mospf-ping/mospf_daemon.c:553-591 | an unknown address becomes a neighbour and triggers an origination; a known one changes nothing |
| `Advertising.GreetMeaning` | 11-mospf-ping/mospf_daemon.c:553-591 | in the fields: what a Hello adds, where, and whom the router then tells what |
| `MospfDaemon.Daemon.DropNeighbour` | 11-mospf-ping/mospf_daemon.c:227-236 | a silent neighbour is removed and an origination follows |
| `Advertising.ExpireMeaning` | 11-mospf-ping/mospf_daemon.c:227-236 | in the fields: the neighbour is gone, the others keep their order, and those left are told |
| `Flooding.AnnounceSends` | 11-mospf-ping/mospf_daemon.c:146-161 | an origination sends to every neighbour, with numbers above the old counter and the current advertisement |
| `Flooding.ForwardSends` | 11-mospf-ping/mospf_daemon.c:704-725 | a packet is relayed exactly when it carries the update on from an interface to a neighbour there whose address is not the sender's and whose identity is not the originator's |
| `Flooding.ForwardCounts` | 11-mospf-ping/mospf_daemon.c:704-725 | one copy for each such neighbour and no more |
| `Flooding.RelayReaches` | 11-mospf-ping/mospf_daemon.c:710-722 | after a delivery every neighbour but the originator holds the update or has it on the way |
| `Flooding.OriginateKeepsInv` | 11-mospf-ping/mospf_daemon.c:62-163 | an origination, with or without a neighbour change, keeps the flooding invariant |
| `Flooding.DeliverKeepsInv` | 11-mospf-ping/mospf_daemon.c:652-726 | a delivery keeps the flooding invariant |
| `Flooding.StepKeepsInv` | 11-mospf-ping/mospf_daemon.c:553-726 | every protocol step keeps the flooding invariant |
| `Flooding.RunKeepsInv` | 11-mospf-ping/mospf_daemon.c:553-726 | the flooding invariant holds in every run |
| `Flooding.ChainIsServed` | 11-mospf-ping/mospf_daemon.c:704-725 | with nothing in flight, every router down a chain of neighbours holds one of the originator's last updates |
| `Flooding.FloodingConverges` | 11-mospf-ping/mospf_daemon.c:652-726 | with nothing in flight, every connected router stores the current advertisement of each router that originated since the last neighbour change, and none stores its own |
| `FloodingRest.FloodingNeverRestsIff` | 11-mospf-ping/mospf_daemon.c:704-725 | deliveries can go on for ever exactly when a packet in flight leads into a cycle of relays, and exactly then no order of deliveries empties the flight |
| `FloodingRest.DeliverKeepsCirculating` | 11-mospf-ping/mospf_daemon.c:704-725 | whichever packet is delivered, one that leads into a cycle of relays stays in flight |
| `FloodingRest.DeliverTakesOne` | 11-mospf-ping/mospf_daemon.c:704-725 | where relays cannot circulate, each delivery takes exactly one off a bound on the deliveries to come |
| `FloodingRest.TriangleNeverRests` | 11-mospf-ping/mospf_daemon.c:710-722 | from any reachable state, three routers that hear each other in a ring keep an update of a fourth in flight for ever, in every order of deliveries, once it is on its way to one of them |
| `FloodingRest.RelaysNeverReturn` | 11-mospf-ping/mospf_daemon.c:710-722 | on every chain of relays no copy goes straight back to where the one before came from |
| `LineNetwork.LineComesToRest` | 11-mospf-ping/mospf_daemon.c:704-725 | on a line of any length no order of deliveries goes on for ever, and the flight empties |
| `LineNetwork.ThreeOnALineComeToRest` | 11-mospf-ping/mospf_daemon.c:704-725 | a run of three routers on a line with copies in flight, from where that is so |
| `RingNetwork.RingNeverRests` | 11-mospf-ping/mospf_daemon.c:553-726 | a run of four Hellos from the empty start after which deliveries can go on for ever and no order of them empties the flight |
| `TwoRouters.TwoRoutersComeToRest` | 11-mospf-ping/mospf_daemon.c:553-726 | a run of two routers that hear each other, originate and fall quiet |
| `TwoRouters.PremisesHold` | 11-mospf-ping/mospf_daemon.c:464-482 | that quiet state meets the premises of the forwarding result |
| `TwoRouters.HopsHold` | 11-mospf-ping/mospf_daemon.c:339-500 | there each router has also drawn its subnets and picked its hop to the other |
| `GraphDrawing.DrawRow` | 11-mospf-ping/mospf_daemon.c:316-318 | one stored advertisement adds exactly its links, and stops exactly at an unknown identity |
| `GraphDrawing.DrawOwn` | 11-mospf-ping/mospf_daemon.c:323-336 | the router's own host networks and neighbours add exactly their links |
| `GraphDrawing.OwnHopsAreAdvertised` | 11-mospf-ping/mospf_daemon.c:323-336 | what a router draws for itself is what it advertises to others |
| `GraphDrawing.DrawGraph` | 11-mospf-ping/mospf_daemon.c:312-337 | the matrix has a one exactly at the stored and own links, and the drawing succeeds exactly when all identities are known |
| `GraphDrawing.MirrorGraph` | 11-mospf-ping/mospf_daemon.c:349-358 | the in-place scan computes the symmetrisation in which the upper entry wins |
| `GraphDrawing.MirrorIsSymmetric` | 11-mospf-ping/mospf_daemon.c:349-358 | the result is symmetric, has the stated entries, and mirroring again changes nothing |
| `RoutingTable.DrawSubnets` | 11-mospf-ping/mospf_daemon.c:339-347 | each stored link gets the subnet of the last advertisement that names it |
| `RoutingTable.DbSubnetIs` | 11-mospf-ping/mospf_daemon.c:339-347 | the subnet drawn for a link is that of the last stored advertisement that names it, and zero where none does |
| `RoutingTable.SubnetKnownIff` | 11-mospf-ping/mospf_daemon.c:339-358 | a link's subnet is known exactly when a stored advertisement of either end names it |
| `RoutingTable.DealRtable` | 11-mospf-ping/mospf_daemon.c:464-500 | one round leaves the settled table of the graph, the subnets of the stored links, and a first hop exactly where the last link has a known subnet |
| `RoutingTable.RoundIsDetermined` | 11-mospf-ping/mospf_daemon.c:464-500 | graph, subnets, table and first hops of a round are determined by the links and subnets drawn |
| `RoutingTable.PickHops` | 11-mospf-ping/mospf_daemon.c:491-500 | a first hop on a shortest path exactly where the subnet of the predecessor link is nonzero, none for the others |
| `Convergence.UnitPathsAreInReach` | 11-mospf-ping/mospf_daemon.c:387-411 | with unit links and fewer vertices than the infinite distance, every vertex with a path is in reach |
| `Convergence.QuietRoutersDrawAlike` | 11-mospf-ping/mospf_daemon.c:312-337 | at quiescence every router draws the links the whole network advertises |
| `GraphDrawing.GraphMeaning` | 11-mospf-ping/mospf_daemon.c:464-479 | the drawn and mirrored matrix is symmetric with ones exactly at links advertised from either end |
| `Convergence.HostNetworksAreSingleHomed` | 11-mospf-ping/mospf_daemon.c:114-144 | in every run a host network is advertised by one router only |
| `Convergence.TablesFormNetwork` | 11-mospf-ping/mospf_daemon.c:464-481 | tables computed independently from own drawings are tables of one graph with only stubs besides routers |
| `Convergence.QuietNetworkForwards` | 11-mospf-ping/mospf_daemon.c:464-500 | at quiescence packets for any router or advertised network reach it along a shortest path without a loop |
| `Convergence.QuietHopIsInstalledIff` | 11-mospf-ping/mospf_daemon.c:496-500 | at quiescence a hop is installed exactly where another router advertises the last link |
| `Convergence.QuietHopIs` | 11-mospf-ping/mospf_daemon.c:496-500 | at quiescence the hop is the first hop of a shortest path, and is missing exactly towards what is directly attached and advertised by nobody else |
| `Convergence.ComputedHopsForward` | 11-mospf-ping/mospf_daemon.c:464-500 | at quiescence each router on the route has computed the next vertex as its hop; only the last one may have none, exactly when it alone advertises the link to the destination |
| `LinkSubnets.QuietSubnetIsSaid` | 11-mospf-ping/mospf_daemon.c:339-358 | at quiescence every nonzero subnet in a router's matrix is one that an interface or a neighbour list of another router says of this link |
| `LinkSubnets.HostSubnetIsDrawn` | 11-mospf-ping/mospf_daemon.c:114-144 | at quiescence every other router's matrix holds, between the router on a host network and that network, the subnet of its interface |
| `RingBuffers.RingBuffer.constructor` | 16-tcp_data_transfer/include/ring_buffer.h:15-24 | a fresh buffer of any positive size is empty and within its allocation |
| `RingBuffers.RingBuffer.Contents` | 16-tcp_data_transfer/include/ring_buffer.h:31-50 | the queue between head and tail has the length the modular formula gives, at most size - 1 |
| `RingBuffers.RingBuffer.Read` | 16-tcp_data_transfer/include/ring_buffer.h:56-74 | removes and returns exactly the front bytes, across the wrap-around |
| `RingBuffers.RingBuffer.Write` | 16-tcp_data_transfer/include/ring_buffer.h:77-94 | appends exactly the data, across the wrap-around |
| `TcpSock.TcpSock.constructor` | 16-tcp_data_transfer/tcp_sock.c:47-71 | a fresh closed socket with the default receive window, a zero send window, an empty buffer and nothing notified |
| `TcpSock.TcpSock.SendControl` | 16-tcp_data_transfer/tcp_out.c:66-91 | a bare segment; SYN and FIN consume one sequence number |
| `TcpSock.TcpSock.SendPacket` | 16-tcp_data_transfer/tcp_out.c:32-59 | a data segment; the counters move by its length, and the window written back is the one read before less that length, modulo 2^16 |
| `TcpNumbers.DataIsNumbered` | 16-tcp_data_transfer/tcp_out.c:32-59 | data takes the next numbers, acknowledges what is expected next and advertises the window |
| `TcpSock.TcpSock.AdoptWindow` | 16-tcp_data_transfer/tcp_in.c:52-59 | the window is replaced, and a window that was zero leaves a notification whether or not anyone sleeps |
| `TcpSock.TcpSock.ConnectTo` | 16-tcp_data_transfer/tcp_sock.c:291-318 | SYN_SENT with a SYN on its way |
| `TcpSock.TcpSock.OnListen` | 16-tcp_data_transfer/tcp_in.c:16-41 | a child inheriting all fields answers with SYN and ACK; the listener moves to SYN_RECV too |
| `TcpSock.TcpSock.OnPush` | 16-tcp_data_transfer/tcp_in.c:183-188 | the payload is appended to the buffer and the advertised window adopted, which wakes a sender that found it zero (`TcpWindows.ServerWindowStep`) |
| `TcpSock.TcpSock.Receive` | 16-tcp_data_transfer/tcp_in.c:148-212 | state, counters, buffer and replies in every state |
| `TcpNumbers.AnswersAcknowledge` | 16-tcp_data_transfer/tcp_in.c:148-212 | exactly the segments that are answered, each by one bare segment that acknowledges its number plus one under the next number and advertises the window; where the expected number goes |
| `TcpNumbers.ClosedSocketResets` | 16-tcp_data_transfer/tcp_out.c:97-115 | a closed socket answers with a reset that acknowledges the number after the segment |
| `TcpNumbers.FinIsAnsweredIff` | 16-tcp_data_transfer/tcp_in.c:190-210 | a side that sent its FIN goes on exactly at a segment with ACK, and changes nothing else |
| `TcpNumbers.ExpectedAfterDataIff` | 16-tcp_data_transfer/tcp_in.c:183-188 | after data the number expected is that of the peer's next byte exactly when it was one byte |
| `TcpSock.TcpSock.CloseSock` | 16-tcp_data_transfer/tcp_sock.c:412-437 | FIN and next state where the state allows a close |
| `TcpNumbers.CloseSendsFinIff` | 16-tcp_data_transfer/tcp_sock.c:412-437 | a FIN is sent exactly from the two states that can send data, with its fields; what a close changes |
| `TcpSock.TcpSock.Read` | 16-tcp_data_transfer/tcp_sock.c:439-448 | front bytes leave the buffer and the window becomes the room left |
| `TcpWindows.ReadTakesFront` | 16-tcp_data_transfer/tcp_sock.c:439-448 | as much of the front as is there and asked for; nothing changes on an empty buffer |
| `TcpWindows.ReadAdvertisesRoom` | 16-tcp_data_transfer/tcp_sock.c:439-448 | after a read of a nonempty buffer the next segments advertise its size less one less what is still queued |
| `TcpSock.TcpSock.Happening` | 16-tcp_data_transfer/tcp_in.c:52-59 | each access of a window update, and the end of the wait structure, with whether it signals |
| `SendLoop.WholeUpdate` | 16-tcp_data_transfer/tcp_in.c:52-59 | the three accesses with nothing between them are the update of the joint model |
| `TcpSock.TcpSock.AwaitWindow` | 16-tcp_data_transfer/tcp_out.c:129-134 | at a zero window the sender sleeps unless a notification is pending, until a slice of events signals it |
| `TcpSock.TcpSock.Wait` | 16-tcp_data_transfer/include/synch_wait.h:46-53 | blocked until a slice of events signals, then the flags are cleared and `dead` is read |
| `TcpSock.TcpSock.CutPiece` | 16-tcp_data_transfer/tcp_out.c:136-138 | the limit of frame and rest where the window exceeds it, else the window as it is read a second time |
| `TcpSock.TcpSock.SendPiece` | 16-tcp_data_transfer/tcp_out.c:129-152 | one turn of the loop between the receiving thread's accesses, as the specification of a turn says |
| `TcpSock.TcpSock.SendData` | 16-tcp_data_transfer/tcp_out.c:121-156 | the whole call under any schedule is the run of turns that the lemmas are about, with the segments in order |
| `TcpSock.TcpSock.Write` | 16-tcp_data_transfer/tcp_sock.c:450-454 | under any schedule payloads concatenate to the prefix sent, numbers are contiguous modulo 2^32 and every turn is lawful, but what is returned is the length asked for |
| `SendLoop.AwaitMeaning` | 16-tcp_data_transfer/tcp_out.c:129-134 | a zero window is passed only on a notification, pending or given meanwhile; the call fails there exactly when the structure is dead; one left asleep is neither notified nor dead |
| `SendLoop.TurnMeaning` | 16-tcp_data_transfer/tcp_out.c:129-152 | every turn: the size of a piece, when it is empty, too long for the frame or for the data, in terms of both readings of the window; the window left behind is not the room granted exactly when it was lowered below the piece after the cut or changed inside the subtraction |
| `SendLoop.LimitFillsFrame` | 16-tcp_data_transfer/tcp_out.c:125-138 | a piece within the limit fits a frame of 1500 bytes with its headers, and only what does not fit is cut |
| `SendLoop.ForgottenIff` | 16-tcp_data_transfer/tcp_in.c:52-59 | a sender that finds a zero window can be left asleep with the window open exactly when an update has just looked and saw it open |
| `SendCalls.SendRunMeaning` | 16-tcp_data_transfer/tcp_out.c:121-156 | in every interleaving payloads make up what was sent, numbers are contiguous, every turn is lawful, and the call runs past the data only where the window exceeds what is left |
| `SendCalls.NotForgottenIfStoredAtOnce` | 16-tcp_data_transfer/tcp_out.c:121-156 | where every update stores before the sender runs again, no call is left asleep with the window open |
| `SendCalls.LostWakeUp` | 16-tcp_data_transfer/tcp_out.c:121-156 | a whole call that sends one segment and sleeps for good, whatever window was granted |
| `SendCalls.RaisedBetweenReadings` | 16-tcp_data_transfer/tcp_out.c:136-138 | calls whose first piece is as long as a window raised between its two readings, or that run past the data |
| `SendCalls.QuietSend` | 16-tcp_data_transfer/tcp_out.c:121-156 | left alone, the sender uses up the window and then sleeps, after an empty last segment exactly when a notification was pending |
| `SendCalls.FirstWriteEmptyIff` | 16-tcp_data_transfer/tcp_in.c:73-110 | after either side's handshake and with no update meanwhile, the first write sends an empty segment, which no established peer can take, exactly when it exceeds the peer's window |
| `SendCalls.OneByteTooMany` | 16-tcp_data_transfer/tcp_out.c:128-138 | 65536 bytes against the default window: 65535 pass, then an empty segment, then sleep |
| `TcpConnection.StepKeepsInv` | 16-tcp_data_transfer/tcp_in.c:148-212 | every step keeps phase, channel contents and streams consistent |
| `TcpConnection.RunKeepsInv` | 16-tcp_data_transfer/tcp_in.c:148-212 | the joint invariant holds in every run |
| `TcpConnection.ServerTakesPayload` | 16-tcp_data_transfer/tcp_in.c:171-189 | whatever phase it is in, the server buffers all of a payload it receives |
| `TcpConnection.ClientTakesPayload` | 16-tcp_data_transfer/tcp_in.c:167-204 | the client buffers payloads until it closes and none afterwards |
| `TcpConnection.BytesArriveInOrder` | 16-tcp_data_transfer/tcp_sock.c:439-448 | read, buffered and in-flight bytes make up what was sent; what is read is always a prefix of what was written |
| `TcpConnection.CloseIsOrderly` | 16-tcp_data_transfer/tcp_sock.c:412-437 | the server is closed only when the client is in TIME_WAIT or closed, and no reset is ever sent |
| `TcpConnection.NumbersAgree` | 16-tcp_data_transfer/tcp_in.c:73-110 | each expected number equals the peer's next one when the handshake completes and after each FIN |
| `TcpConnection.EstablishedIsNotified` | 16-tcp_data_transfer/tcp_in.c:52-59 | in every run the step that establishes a side leaves it a notification it never slept for |
| `TcpWindows.ClientWindowStep` | 16-tcp_data_transfer/tcp_in.c:52-88 | in every step: the answer to the SYN and data replace the window and leave a notification exactly where it was zero; else bytes sent come off it |
| `TcpWindows.ServerWindowStep` | 16-tcp_data_transfer/tcp_in.c:96-189 | the same for the server: the end of the handshake, and data |
| `TcpWindows.ClientWindow` | 16-tcp_data_transfer/tcp_in.c:52-88 | in every run the client's window is what the last segment it adopted one from advertised, less the bytes sent since, modulo 2^16 |
| `TcpWindows.ServerWindow` | 16-tcp_data_transfer/tcp_in.c:96-189 | the same for the server, from the end of the handshake on |
| `TcpWindows.AdvertisedWindow` | 16-tcp_data_transfer/tcp_sock.c:439-448 | in every run each side advertises the room that its last read of a nonempty buffer left, or what it started with |
| `TcpNumbers.NumbersCount` | 16-tcp_data_transfer/tcp_out.c:32-91 | in every run segments under way are numbered in a row up to the sender's next number, that number counts its SYN, bytes and FIN, and the answers under way acknowledge exactly all that the peer has sent |
| `TcpNumbers.SidesFollowTheirPaths` | 16-tcp_data_transfer/tcp_in.c:148-212 | in every run which states each side goes through, and exactly what takes it on |
| `TcpConnection.DeliveryKeepsStreamWholeIff` | 16-tcp_data_transfer/tcp_in.c:190-204 | a delivery loses bytes exactly when it carries some to a client that has closed |
| `TcpConnection.BackToBackFitsIff` | 16-tcp_data_transfer/include/ring_buffer.h:79-79 | a burst passes the buffer's assertion exactly when no segment is empty and its total fits the room left |
| `TcpConnection.InitialWindowIsTooLarge` | 16-tcp_data_transfer/tcp_sock.c:57-63 | the first advertised window overruns a fresh buffer exactly when all of it is used |
| `NatIndex.ScanMeetsItsMapping` | 12-nat-yisong/nat.c:82-90 | scanning the bucket of an internal or an external port meets exactly the copies of the one mapping it names, for any hash |
| `Nat.NatTable.AssignExternalPort` | 12-nat-yisong/nat.c:48-58 | the first unassigned port drawn, none exactly when every draw is assigned, by the pool and, where that is the index of a table, by the table |
| `Nat.NatTable.Add` | 12-nat-yisong/nat.c:94-119 | the mapping joins both buckets, each copy with its own starting flags, and the port pool; an index stays one |
| `Nat.NatTable.ScanOut` | 12-nat-yisong/nat.c:124-156 | one rewritten copy per entry of the flow; entries are stamped, flagged, or deleted with their port |
| `Nat.NatTable.ScanIn` | 12-nat-yisong/nat.c:170-199 | one rewritten copy per entry of the external port; entries are stamped, flagged, or deleted with their port |
| `Nat.NatTable.TranslateOut` | 12-nat-yisong/nat.c:74-158 | in any memory: a mapping is created with an unassigned port if the scan meets none, the packet is sent once per copy met with its source rewritten, and the new memory is as stated; in an index also the new table, and an index again exactly when no mapping was torn down in part |
| `Nat.NatTable.TranslateIn` | 12-nat-yisong/nat.c:160-201 | in any memory: sent once per copy met with its destination rewritten, and the new memory as stated; in an index also the new table, and an index again exactly when no mapping was torn down in part |
| `NatIndex.ScanKeepsIndex` | 12-nat-yisong/nat.c:124-156 | a scan that tears no mapping down in part keeps the two-fold index consistent with the list of mappings, less the one it tears down |
| `NatIndex.ScanKeepsIndexIff` | 12-nat-yisong/nat.c:124-156 | after a scan the memory is the index of some table exactly when no mapping lost one copy and kept the other |
| `NatTeardown.CleanIsNotTornInPart` | 12-nat-yisong/nat.c:140-152 | while flags were only set by packets, no mapping is torn down in part |
| `NatTeardown.ResetTearsDownIff` | 12-nat-yisong/nat.c:140-152 | after a FIN in either direction a reset removes the mapping exactly when its ports share a bucket; where they do not it removes one copy exactly when that copy started with the other direction's flag |
| `Nat.NatTable.VisitBucket` | 12-nat-yisong/nat.c:243-250 | the idle entries of one bucket go and their ports go back |
| `Nat.NatTable.Sweep` | 12-nat-yisong/nat.c:232-252 | for every port still assigned at its turn the bucket is visited; full new memory |
| `NatSweep.SweptMeaning` | 12-nat-yisong/nat.c:232-252 | buckets and port pool after any number of ports, in terms of the memory before the sweep |
| `NatSweep.SweepDropsIff` | 12-nat-yisong/nat.c:232-252 | an entry is deleted exactly when it is idle and some port still assigned at its turn hashes to its bucket |
| `NatSweep.SweepKeepsIndexIff` | 12-nat-yisong/nat.c:232-252 | the memory after the sweep is the index of some table exactly when of every mapping both copies go or both stay |
| `NatSweep.TimeoutForgetsFlowIff` | 12-nat-yisong/nat.c:232-252 | one idle mapping gives its port back, but is forgotten exactly when some assigned port hashes to the internal port's bucket |
| `NatSweep.IdleFlowSurvives` | 12-nat-yisong/nat.c:232-252 | in any memory that holds just this idle flow, it goes on using a port that was handed back |
| `NatRuns.StepKeepsIndexIff` | 12-nat-yisong/nat.c:74-252 | a packet or a sweep leaves the index of some table exactly when every mapping keeps both copies or loses both, and then of the table stated |
| `NatRuns.UnflaggedRunKeepsIndex` | 12-nat-yisong/nat.c:94-156 | where no copy starts flagged, a run can lose the index only in a sweep |
| `NatRuns.UnsetFlagBreaksIndex` | 12-nat-yisong/nat.c:94-156 | a run in which a copy that starts flagged is torn down alone |
| `NatRuns.StepRemovesIff` | 12-nat-yisong/nat.c:74-252 | a step removes a mapping exactly when it is a reset that tears it down or a sweep that does not spare it |
| `NatRuns.OnlyResetsTake` | 12-nat-yisong/nat.c:140-152 | a packet removes only the mapping it meets, only as a reset, and only where the two ports share a bucket |
| `NatRuns.MappingLastsIff` | 12-nat-yisong/nat.c:74-252 | in every run that keeps the index and for every hash, a mapping stays throughout exactly when no step removes it |
| `NatRuns.RepliesReachTheSender` | 12-nat-yisong/nat.c:170-179 | in every run that keeps the index and for every hash, until a step removes its mapping a flow keeps its port and replies to it are rewritten back to the original endpoint |
| `NatRuns.FlowsNeverShareAPort` | 12-nat-yisong/nat.c:92-122 | in every run that keeps the index and for every hash, packets leaving from one external port come from one flow until a step removes its mapping |
| `NatHistory.CopyHasStory` | 12-nat-yisong/nat.c:124-199 | in every run each copy's stamp is the time of the last packet that met this copy, or of its creation, and its flags are set by the FINs that met it, or as they started |
| `NatHistory.PacketTakesIff` | 12-nat-yisong/nat.c:140-152 | a packet takes a copy away exactly when it is a reset that meets it and its flags add up to two; else the copy stays, stamped and flagged as stated |
| `NatHistory.SweepSparesTheMet` | 12-nat-yisong/nat.c:232-252 | a sweep leaves every copy that a packet met at most five seconds before |
| `NatHistory.SweepDropsTheSilent` | 12-nat-yisong/nat.c:232-252 | of the buckets it visits a sweep deletes every copy neither met nor made in that time |
| `NatHistory.SweepTakesTheSilent` | 12-nat-yisong/nat.c:232-252 | a sweep removes a mapping only if no packet to its external port came in that time nor, where the index is kept, any from its internal endpoint |
| `NatHistory.InboundReachesItsMaker` | 12-nat-yisong/nat.c:170-179 | in every run a packet from outside reaches only endpoints for which its port was drawn before, and only where it is addressed to changes |
| `NatHistory.OutboundLeavesByADrawnPort` | 12-nat-yisong/nat.c:124-138 | in every run a packet from inside leaves from the external address and a port drawn for its endpoint, and only where it comes from changes |
| `NatHistory.OutboundCopies` | 12-nat-yisong/nat.c:124-156 | in every run that keeps the index: the very packets that leave, once or, where the two ports share a bucket, twice |
| `NatHistory.InboundCopies` | 12-nat-yisong/nat.c:170-199 | the same inwards, and none where no mapping names the port |
| `NatSharing.NewFlowSharesPortIff` | 12-nat-yisong/nat.c:92-122 | in any memory a new flow shares the port drawn with another flow exactly when some flow already left from it |
| `NatSharing.NewFlowGetsReplies` | 12-nat-yisong/nat.c:170-179 | where packets to the port drawn met no entry before, replies to it reach the new flow alone |
| `NatSharing.TwoFlowsShareAPort` | 12-nat-yisong/nat.c:74-252 | a run after which two flows leave from one port and replies reach the later one only |
| `NatRuns.IdleFlowIsReached` | 12-nat-yisong/nat.c:232-252 | a run after which a sweep hands back a port that its flow goes on using |
| `ArpCache.ArpCache.Lookup` | 11-mospf-ping/arpcache.c:19-36 | the address recorded for the ip, none exactly when no valid entry has it |
| `ArpCache.ArpCache.AppendPacket` | 11-mospf-ping/arpcache.c:45-83 | the packet joins the first request for its interface and ip, or a new one that needs a probe |
| `ArpRelease.AppendMeaning` | 11-mospf-ping/arpcache.c:45-83 | position by position: the packet ends up last in the first request for its interface and ip, or alone in a new one at the head; the others stay |
| `ArpCache.ArpCache.Record` | 11-mospf-ping/arpcache.c:90-112 | exactly the entries of the ip, or with none and some entry free the drawn slot, are written with mac and time; in bounds exactly when the ip is known or an entry is free |
| `ArpCache.ArpCache.ReleasePackets` | 11-mospf-ping/arpcache.c:115-135 | the first request for the ip leaves with its packets in order (`ArpRelease.ReleaseMeaning`) |
| `ArpRelease.ReleaseMeaning` | 11-mospf-ping/arpcache.c:115-135 | position by position: the first request for the ip is off the list and exactly its packets leave, in order; with no such request nothing changes |
| `ArpRelease.AnswerServesAllIff` | 11-mospf-ping/arpcache.c:115-135 | after an answer nothing waits for the address any more exactly when at most one request did |
| `ArpCache.ArpCache.Insert` | 11-mospf-ping/arpcache.c:88-138 | recording and releasing together, with every entry stated |
| `ArpCache.ArpCache.SweepOnce` | 11-mospf-ping/arpcache.c:157-188 | entries expire by age and every request is left alone, probed again or given up |
| `ArpCache.SweepMeaning` | 11-mospf-ping/arpcache.c:168-188 | survivors keep their identity and count the probe just sent; only requests at the limit are given up |
| `ArpCache.SweepMovesPackets` | 11-mospf-ping/arpcache.c:180-184 | giving up moves packets without loss or reordering |
| `ArpRelease.SweepIsExact` | 11-mospf-ping/arpcache.c:168-188 | every request is left alone within a second of its start, else probed once more below five, else given up with all its packets; nothing else is on the list |
| `ArpRelease.SweepKeepsOrder` | 11-mospf-ping/arpcache.c:168-188 | the requests left keep their order |
| `ArpCache.StepKeepsInv` | 11-mospf-ping/arpcache.c:45-199 | every critical section and every action after one keeps the conservation invariant |
| `ArpCache.PacketsAreConserved` | 11-mospf-ping/arpcache.c:45-199 | over all interleavings packets leave each request in order and are in exactly one place; a counter equals the probes sent exactly when the first is no longer owed; unreachable means five probes, or four while the first is owed |
| `ArpRelease.AnswerSendsAll` | 11-mospf-ping/arpcache.c:88-138 | an answer sends all packets of the first request for its address, in order, to the address it resolves to |
| `ArpRelease.SentWhereAnswered` | 11-mospf-ping/arpcache.c:45-138 | in every interleaving a packet is sent only in an answer that resolves the address it had been handed over for, to where that answer says |
| `ArpCache.FourProbesHappen` | 11-mospf-ping/arpcache.c:45-199 | a run in which packets are reported unreachable after four probes |
| `SynchWait.SynchWait.BeginSleep` | 16-tcp_data_transfer/include/synch_wait.h:40-47 | blocks exactly when alive and not notified; consumes an earlier notification |
| `SynchWait.SynchWait.WakeUp` | 16-tcp_data_transfer/include/synch_wait.h:57-72 | notifies once and signals exactly when someone sleeps |
| `SynchWait.SynchWait.WaitExit` | 16-tcp_data_transfer/include/synch_wait.h:26-37 | marks dead once and broadcasts exactly when someone sleeps |
| `SynchWait.StepKeepsInv` | 16-tcp_data_transfer/include/synch_wait.h:26-72 | every critical section keeps the one-waiter invariant and the balance of notifications |
| `SynchWait.OneWaiterIsNeverForgotten` | 16-tcp_data_transfer/include/synch_wait.h:26-72 | a blocked waiter means nothing notified and nothing dead; successful returns never outnumber wake-ups |
| `SynchWait.WakingReleases` | 16-tcp_data_transfer/include/synch_wait.h:26-72 | with one waiter a wake-up or an exit leaves nobody blocked, and leaves the notification or the end behind |
| `SynchWait.DeadIsFinal` | 16-tcp_data_transfer/include/synch_wait.h:26-72 | after an exit, for any number of waiters, nobody blocks any more, no call succeeds and no notification is added |
| `SynchWait.WakeUpIsNeverLostIff` | 16-tcp_data_transfer/include/synch_wait.h:40-69 | no run leaves a notified waiter behind exactly when there is at most one waiter |
| `UnibitTrie.Trie.Grow` | 09-trie-yisong/unitrie.c:40-42 | a new node extends one prefix and the heap stays a tree without sharing |
| `UnibitTrie.Trie.InsertNode` | 09-trie-yisong/unitrie.c:32-48 | adds exactly the key to the set of stored strings |
| `UnibitTrie.Trie.Search` | 09-trie-yisong/unitrie.c:51-68 | true exactly for stored strings |
| `UnibitTrie.InsertAll` | 09-trie-yisong/unitrie.c:80-82 | after any sequence of insertions exactly the inserted strings are stored |
| `Checksum.Checksum` | 16-tcp_data_transfer/include/checksum.h:8-21 | the complement of the reduced 32-bit sum plus the odd byte |
| `Checksum.TwoFoldsSuffice` | 16-tcp_data_transfer/include/checksum.h:14-15 | two folds of any 32-bit sum give its one's complement value |
| `Checksum.ReferenceIsReduce` | 16-tcp_data_transfer/include/checksum.h:11-15 | end-around-carry addition word by word equals reducing the plain sum |
| `Checksum.WholeWordsAreRightIff` | 16-tcp_data_transfer/include/checksum.h:8-21 | on whole words, for any initial sum, the code is right exactly when the 32-bit sum does not wrap |
| `Checksum.TcpChecksumIsRightIff` | 16-tcp_data_transfer/include/tcp.h:69-83 | with the pseudo-header the code is right exactly when addresses, protocol, length and segment add up to less than 2^32 |
| `Checksum.OddByteIsRightIff` | 16-tcp_data_transfer/include/checksum.h:17-18 | an odd byte is right exactly when adding it needs no end-around carry |
| `Checksum.FilledBlockVerifies` | 16-tcp_data_transfer/include/checksum.h:8-21 | a block with its checksum filled in sums to zero |
| `Checksum.ChangedWordIsNoticed` | 16-tcp_data_transfer/include/checksum.h:8-21 | changing a word, other than between the two zeros, changes the result |
| `Checksum.SingleBitIsNoticed` | 16-tcp_data_transfer/include/checksum.h:8-21 | flipping any bit changes the result |
| `Checksum.WordOrderIsIrrelevant` | 16-tcp_data_transfer/include/checksum.h:8-21 | permuting the words does not change the result |
| `LongestPrefix.LongestPrefixMatch` | 11-mospf-ping/ip.c:33-45 | the first matching entry with the largest mask, none exactly when nothing matches |
| `LongestPrefix.MatchesIff` | 11-mospf-ping/ip.c:38-38 | under a mask of leading ones an entry matches exactly when so many leading bits agree |
| `LongestPrefix.SelectedIsLongest` | 11-mospf-ping/ip.c:37-42 | with contiguous masks the selected entry has the longest matching prefix |
| `LongestPrefix.OrderIrrelevantIff` | 11-mospf-ping/ip.c:33-45 | the choice ignores table order exactly when no two different entries tie |
| `LongestPrefix.DistinctNetworksNeverTie` | 11-mospf-ping/ip.c:33-45 | a table listing each network once under each mask has an order-independent choice |

## Left out

- Sockets, netlink, interface discovery, poll loops, printing, byte layout and checksum fields of packets: input and output.
- Ownership of allocated memory, including the packet buffer that one origination reuses for all its copies; updates are immutable values.
- Ageing of database entries and of neighbours by clock: a neighbour timeout is a step that may happen at any time, database ageing is not modelled.
- The time to live of updates, which is never decremented.
- The interface, mask and route-name resolution of `deal_rtable`, which reads unset locals; next hops are stated for vertices.
- MospfDaemon.Daemon.HandleLsu: says nothing of the state after an update overran its database entry.
- Dijkstra.Dijkstra: sums are unbounded integers; the daemon only draws ones, so its sums stay below the number of vertices.
- Direction of packets in the address translator, which needs the forwarding table and the interfaces.
- TcpSock.TcpSock.SendData: the urgent flag does not exist in the model, and a call that reads past the end of its data ends there.
- TcpSock.TcpSock.Receive: on data the original sets the expected number to the segment's own number plus one; the model does the same, claims agreement at the handshake and after FINs, and says when data keeps it (`TcpNumbers.ExpectedAfterDataIff`).
- Simultaneous close, resets from the application, retransmission, several accepts, socket hash tables, reference counts and the accept queues.
- `tcp_state_listen` sets the listener itself to SYN_RECV, so it serves one connection; the joint model has one server socket.
- ArpCache.ArpCache.Insert: the slot drawn at random is a parameter; that no pending request exists for a resolved address is not claimed, because lookup and append are separate critical sections.
- Spurious wake-ups of the condition variable, and the wait structures of connect and accept.
- `get_next_hop`, `ip_forward_packet` and the ICMP replies, which add only conditionals.
- The multi-bit trie, the switching, socket and measurement labs.
