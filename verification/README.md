# mynetwork: a verified model

mynetwork is a VPN over libp2p. Packets read from a TUN device are framed and sent over streams to the
peer that owns the destination address; addresses are folded from peer IDs; services of a node are
reached through addresses folded from service names; peers and routes are edited at run time; and small
line and name codecs let nodes exchange addresses and answer DNS queries. This project models those parts
in Dafny and proves what they keep. `dafny verify dfyconfig.toml` checks all of it.

## How it is built

- **Packet tunnel.** `TunnelSender` is a transition system: any number of `sendPacket` goroutines, one
  step at a time in any order, over the stream cache, its locks and the streams. A write is many steps, and
  every write, deadline call and dial can fail at every point. `TunnelSenderInv` holds the locks, the cache
  and the ownership of streams together, `TunnelSenderWire` ties the bytes of every stream to the packets,
  and `TunnelSenderRuns` states the claims about every schedule; `TunnelSenderLeaks` is about streams that
  leave the cache while they are open, `TunnelSenderPaths` about which stream each packet goes to. `TunnelReceiver` is the receiving loop over
  its reused buffers, against an environment that chooses every chunk; `EndToEnd` joins the two.
- **Addresses and services.** `Addresses` has the XOR loops and the networks; `ServiceNetwork` the service
  network object; `ServiceDial` the handshake as a transition system of caller and callee; `Pipe` the two
  readers and the select loop; `Dispatch` the choice made for a packet read from the TUN.
- **Tables.** `PeerTables` reads and extends the configuration, `RouteRpc` edits it together with the
  system's routes, with rollback; `PeerRaces` is about requests to add peers that overlap.
- **DNS client.** `DomainName` (the one-pass automaton), `Resolver` (retries, answer cursor, merging),
  `Dialer` (deadlines).
- **Codecs.** `PeX` and `MagicDns`, over `Strings`.

Objects that the program updates in place are classes; each method is proved equal to a function of the
old state, and the claims are lemmas about runs of that function. Fields named as history in the comments
(`log`, `mid`, `first`, `second`, `taken`, `regs`) record what happened and are never read by a
step to decide what to do.

## What the claims rest on

- A write to a stream closed locally adds no bytes. `activeStreams` is an unguarded map in the program; its
  operations are taken as atomic.
- The length of a packet is read with one `Read` whose count is ignored, and so is the service ID at the
  callee. Where a claim needs these reads whole it says so (`HeadersWhole`, `WholeId`);
  `SplitHeaderGarbles` and `SplitIdMisroutes` show what a split read does.
- A packet whose last bytes arrive together with a read error is dropped by the receiver; `Delivery` says
  that all packets arrive when the read that stops the handler finds nothing left.
- `pipe` ignores the results of its writes. `Delivered` promises a prefix for streams that take nothing more
  once a write was short, and a subsequence for all; `RecoveringStreamMissesBytes` shows a loss.
- libp2p connects to the peer it was asked for, so callee and caller of a handshake are the right nodes.
- ID, address, name-case and CIDR codecs are parameters; a claim that needs them to invert names it.
- The RPC server is started before the first routes are applied, so `RunAccounted` starts from any state and
  tells the routes that were missing from the start from those that went missing later.
- In `RouteRpc` one request runs after another, while the program serves every RPC call in a goroutine of its
  own. `PeerRaces` splits a request to add a peer into its check, its append and its routing; each of these is
  taken as atomic, although the tables are unguarded.

## Findings

- Service names that differ in one place share an ID exactly when the byte product with the index makes the
  two bytes equal there (`ServiceIDsAgree`): always at the first byte (`FirstByteIgnored`) and at every
  multiple of 256, in the three high bits at index 8 (`CaseIgnoredAtEight`), never where the index is odd.
- Names are compared exactly when a peer is added but indexed in lower case: a name keeps its peer if and only
  if the name added differs from it in more than case (`NamesShadow`, `ShadowedName`).
- The search for a route panics exactly when two routes contain the address (`OverlapPanics`), which an
  accepted route request brings about whenever its network overlaps another at an address
  (`RouteAddPanics`, `CoveringRoutePanics`).
- Every address request is answered by the first peer of the list alone (`RequestPeX`), which ends the
  process of the node that asked if the first line that does not parse has no bar (`ReadPanics`).
- Two requests to add peers that overlap can both pass the check of one name (`DoubledName`,
  `DistinctUnlessRaced`), and can both route the peer that was appended last, so that the other has no route
  although no call failed (`UnroutedPeer`, `RoutesOwn`).
- When the two lanes of a lookup fail in different ways, the one that answers first decides whether the host
  is reported missing (`ReportedMissing`, `OrderDecides`).
- With a fair share below two seconds the last addresses of a host may get no time at all (`SmallShares`,
  `ThirdGetsNothing`).
- The alias of a peer added at run time has a target without records (`LatePeer`, `LateAlias`).
- A service address whose net ID is unknown is bound to the empty proxy, whose handler is nil (`NilHandler`),
  and stays so when the peer is added (`HandlerStays`, `ContactedTooEarly`).
- With no DNS server configured `tryOneName` reports no error at all; the lookup of the host fails all the
  same, because the parser it is handed was never started (`TryOneName`, `LookupContextHost`).
- A delete whose ranger removal fails, and whose rollback fails too, leaves the two route tables apart
  without a word; a refused request changes something in that case only (`RefusedChangesNothing`). A route
  missing from the system can then not be deleted, only added again (`MissingStep`).
- A stream that was published is displaced from the cache by any later publication or deletion for the same
  destination (`CachedUntil`); it is then never used and never closed (`OrphanForever`, `DisplacedStream`).

## Model

| member | source | states |
|---|---|---|
| TunnelSenderRuns.RunInv | cli/up.go:281-343 | every schedule of any number of senders keeps the locks, the cache, the ownership of streams, their bytes and the frame tally consistent |
| TunnelSenderRuns.FramesStayWhole | cli/up.go:286-302 | a stream holds whole frames and then at most a proper prefix of one; if it is open, the goroutine of that frame is writing it or about to close it |
| TunnelSenderRuns.ClosedStaysPut | cli/up.go:304 | nothing is added to a stream after it was closed |
| TunnelSenderRuns.CacheHoldsOpenStreams | cli/up.go:304-306 | a closed stream is in the cache only while a goroutine is between its Close and its delete; no stream is published twice |
| TunnelSenderRuns.OneFrameOrTwo | cli/up.go:290-310 | a successful call puts its frame on the wire once, or twice exactly when the cached stream had taken it whole before the attempt failed; also the count after failure |
| TunnelSenderRuns.GivesUpOnlyAfterDialling | cli/up.go:312-335 | a call gives up only when no stream could be opened or after closing the one it opened |
| TunnelSenderLeaks.CachedUntil | cli/up.go:305-342 | a published stream is in the cache if and only if no goroutine with the same destination has published or deleted since |
| TunnelSenderLeaks.OrphanForever | cli/up.go:283-342 | a stream out of the cache that no goroutine holds or waits for is never written to nor closed again |
| TunnelSenderLeaks.DisplacedStream | cli/up.go:312-342 | a schedule of two goroutines that leaves an open stream behind like that |
| TunnelSenderPaths.FollowsLook | cli/up.go:283-312 | every goroutine past its lookup goes by what it found: if there was a cached stream, that is the one it waits for, holds or has tried; only if there was none does it dial first |
| TunnelSenderPaths.SharedStream | cli/up.go:281-343 | a schedule in which two packets for one destination end as two frames of one stream |
| TunnelSenderPaths.CallsKept | cli/up.go:281 | every goroutine has the destination and the packet it was called with |
| TunnelSenderPaths.RightDestination | cli/up.go:283-342 | no packet is sent on a stream that was published for another peer |
| TunnelSenderPaths.RunClosedFirst | cli/up.go:304-306 | a stream is evicted, or its lock let go after a failure, only when it has been closed |
| TunnelSenderPaths.FailurePath | cli/up.go:302-335 | a failed attempt closes its stream; on the cached one it evicts, unlocks and dials, on one's own it is final |
| TunnelSenderWire.Apart | cli/up.go:286-287 | no two goroutines are ever about to write to or close the same stream |
| TunnelSenderWire.AcquireSettles | cli/up.go:286-290 | a goroutine that gets the lock of an open stream finds no unfinished frame on it |
| Frames.FlatPrefix | cli/up.go:389-394 | frames are self-delimiting: whole frames read off the front of a stream of frames are its packets in order |
| Frames.FlatInjective | cli/up.go:389-394 | a stream is cut into packets and a partial frame in one way only |
| Frames.LittleEndian | cli/up.go:290 | the length is sent low byte first |
| TunnelReceiver.ReadSize | cli/up.go:381-389 | one read of the length buffer and the value decoded from it, stale byte included when the read was short |
| TunnelReceiver.ReadPacket | cli/up.go:391-400 | the inner loop ends with exactly the next bytes of the stream in the buffer, or at a failed read |
| TunnelReceiver.BodyIsFull | cli/up.go:391-400 | a body is read in full exactly when its bytes are there and the reads before the first failing one may hand out that many, in whatever portions; and by just the reads it needs |
| TunnelReceiver.Round | cli/up.go:380-408 | one round delivers one packet, or stops without writing to the TUN |
| TunnelReceiver.StreamHandler | cli/up.go:372-409 | the handler writes the packets of its specification to the TUN |
| TunnelReceiver.StrangerIgnored | cli/up.go:373-377 | nothing is read from a stranger |
| EndToEnd.Conserved | cli/up.go:380-408 | delivered packets, framed again, and what is left make up the stream: nothing lost, doubled, reordered or stale |
| EndToEnd.EndOfRun | cli/up.go:381-399 | a handler stopped by a read that found nothing leaves at most part of a frame |
| EndToEnd.Delivery | cli/up.go:372-409 | for every schedule and chunking, delivered packets are a prefix of the whole frames sent, the `i`-th exactly when it has arrived and the calls suffice for it and those before it; and no slice leaves the buffer |
| EndToEnd.Delivered | cli/up.go:380-408 | packets that have arrived and whose calls do not fail are delivered, however their bodies are chunked |
| EndToEnd.SplitHeaderGarbles | cli/up.go:382 | a split length read turns one packet into another |
| Addresses.MkNetID | config/idhash.go:40-46 | the loop computes the four lanes of the net ID |
| Addresses.MkServiceID | config/idhash.go:49-55 | the loop computes the two lanes of the bytes weighted by their index |
| Addresses.MkBuiltinAddr4 | config/idhash.go:10-16 | the loop computes 100.64 and two lanes |
| Addresses.MkBuiltinAddr6 | config/idhash.go:19-27 | the fold is overwritten: the address is the prefix and the net ID |
| Addresses.MkServiceAddr6 | config/idhash.go:30-38 | prefix, net ID and service ID |
| Addresses.EmptyIDs | config/idhash.go:10-55 | the IDs and addresses of the empty peer ID and name |
| Addresses.NetIDSnoc | config/idhash.go:10-46 | what one more byte does to net ID and IPv4 address |
| Addresses.ServiceIDSnoc | config/idhash.go:51-53 | what one more byte does to a service ID |
| Addresses.IndexByteIs | config/idhash.go:52 | how the index is truncated and products wrap |
| Addresses.Addr4FromNetID | config/idhash.go:10-46 | for IDs of every length the IPv4 address is 100.64 and two XORs of the net ID |
| Addresses.DistinctAddr4 | config/idhash.go:10-27 | different IPv4 addresses mean different net IDs, and net IDs differ exactly when IPv6 addresses do |
| Addresses.ServiceIDsAgree | config/idhash.go:49-55 | two names that differ in one place have the same ID if and only if the byte product with the index agrees there |
| Addresses.ProductTells | config/idhash.go:52 | the product tells two bytes apart by what is left of them after as many shifts as the index byte can be halved; never at the index byte zero, always at an odd one |
| Addresses.FirstByteIgnored | config/idhash.go:51-53 | the first byte of a service name never matters |
| Addresses.CaseIgnoredAtEight | config/idhash.go:51-53 | names whose ninth letters are "a" and "A" collide |
| Addresses.ContainsPrefix | svc/network.go:126-129 | under a whole-byte mask a network contains exactly the addresses with its first bytes |
| Addresses.ServiceRoutes | cli/up.go:191-205 | one /112 for every peer and for the node itself |
| Addresses.ServiceAddress | config/idhash.go:30-38 | a service address decodes to its net and service IDs, lies in the /80, lies in a peer's /112 exactly when net IDs agree; no peer address lies in the /80 |
| Dispatch.OverlapPanics | config/config.go:224-237 | the route lookup panics exactly when two networks contain the address |
| Dispatch.LookupIs | config/config.go:224-237 | it finds nothing exactly without a match, and the target of the match exactly when there is one |
| Dispatch.LoadNets | config/config.go:110-151 | every configuration that loads has in its route table exactly the networks of its peers, routes of their own and host routes, each for the last peer that has it |
| Dispatch.EnlistNets | config/config.go:254-269 | and so it stays when a peer is added |
| Dispatch.RoutedByAddress | cli/up.go:270-276 | for every such table and both addresses of a peer: the lookup panics exactly when some peer has another network that contains the address; otherwise the packet goes to the last peer entered under it, which, if no ID is listed twice, is the peer meant exactly when no later one was |
| Dispatch.RoutedWithoutRoutes | cli/up.go:270-276 | without routes of their own the lookup never panics and finds a peer with the address; if no ID is listed twice, the peer meant exactly when no later one folds to the same address |
| Dispatch.SharedAddress | config/idhash.go:10-16 | two IDs with one IPv4 address and different net IDs: packets go to the peer listed last |
| Dispatch.RouteAddPanics | rpc/server.go:129-137 | after an accepted route the lookup of an address panics exactly when the new network and another contain it |
| Dispatch.CoveringRoutePanics | rpc/server.go:129-137 | a route that contains the address of a routed peer makes every packet for it panic |
| Dispatch.PanicExample | rpc/server.go:129-137 | the accepted route 100.64.0.0/16 beside one configured peer, whatever its ID |
| Dispatch.TunnelOrServices | cli/up.go:240-267 | packets for peers never go to the service network and packets for services never into the tunnel |
| Dispatch.Decides | cli/up.go:240-276 | exactly which packets of either version are routed, which go to the service network and with which port; all others are dropped |
| PeerTables.Find | config/config.go:168-195 | the searches return the first match |
| PeerTables.FirstIs | config/config.go:168-195 | a result of a search matches and nothing before it does; no result means no match |
| PeerTables.CLIRefIs | config/config.go:198-205 | a reference beginning with "@" is a name, any other the beginning of a printed ID |
| PeerTables.Config.Read | config/config.go:110-151 | reading builds the tables of the specification, or fails as a whole at the first bad entry |
| PeerTables.Config.ReadPeer | config/config.go:111-150 | one entry: its routes, host routes, indices and place in the list, or the error |
| PeerTables.Config.AddPeer | config/config.go:241-283 | the new tables, entry by entry |
| PeerTables.EnlistIndexed | config/config.go:251-277 | one more peer keeps both indices equal to the last peer by key |
| PeerTables.LoadIndexed | config/config.go:110-151 | after reading, `ByName` and `ByNetID` hold exactly the last peer of every key |
| PeerTables.AllLoaded | config/config.go:110-151 | a file whose entries can all be read gives one peer for each, in order |
| PeerTables.UnreadableDecides | config/config.go:110-151 | otherwise the first that cannot decides how it fails |
| RouteRpc.Server.AddRoute | rpc/server.go:117-137 | the transaction of the specification over both route tables |
| RouteRpc.Server.DelRoute | rpc/server.go:138-156 | removal from the system, then from the ranger, with rollback |
| RouteRpc.Server.AddPeer | rpc/server.go:198-263 | checks, then the tables, then two routes whose failures are only warned about |
| RouteRpc.RunAccounted | rpc/server.go:117-156 | over every run with every failure, a network in `ByRoute` without a system route has been missing since the start or since the request that lost it |
| RouteRpc.MissingStep | rpc/server.go:138-156 | a request makes a route go missing exactly when it is an accepted new peer whose route could not be added or a delete whose rollback failed, and brings it back exactly when it is an accepted addition of it |
| RouteRpc.RefusedChangesNothing | rpc/server.go:118-156 | a refused request changes nothing, except exactly a delete whose rollback failed, which loses the system's route only |
| RouteRpc.AddAccepted | rpc/server.go:117-137 | exactly when an addition is accepted |
| RouteRpc.DelAccepted | rpc/server.go:138-156 | exactly when a deletion is accepted |
| RouteRpc.PeerAccepted | rpc/server.go:198-228 | exactly when a new peer is accepted |
| RouteRpc.AcceptedRoute | rpc/server.go:129-155 | an accepted request leaves the network in both tables or in neither, with the first matching peer as target, and all else alone |
| RouteRpc.AcceptedPeer | rpc/server.go:228-256 | an accepted peer is new by ID and name, is appended, indexed by its host routes, and routed unless an Apply failed |
| RouteRpc.RunKeepsPeers | rpc/server.go:216-236 | every run of requests one after another only appends peers and keeps IDs and names distinct and the indices exact |
| RouteRpc.LoadedRunIndexed | config/config.go:110-151 | the indices are exact from the file to every later point |
| RouteRpc.NamesShadow | config/config.go:272-274 | a name in the index keeps its peer if and only if the accepted name differs from it in more than case |
| RouteRpc.ShadowedName | rpc/server.go:222-236 | with "A" configured, "a" is accepted and takes over the entry |
| PeerRaces.DistinctUnlessRaced | rpc/server.go:215-236 | under every schedule of overlapping requests the indices stay exact, and IDs and names stay distinct if and only if no two requests for one ID or name both passed their checks before either appended |
| PeerRaces.RoutesOwn | rpc/server.go:235-256 | a request routes its own peer exactly when no other has appended since it did |
| PeerRaces.RouteAdds | rpc/server.go:235-256 | and adds the routes of the peer it routes, unless a call fails |
| PeerRaces.DoubledName | rpc/server.go:222-228 | the schedule by which one name gets two peers |
| PeerRaces.UnroutedPeer | rpc/server.go:228-256 | a schedule without any failure that leaves a peer without its route |
| ServiceNetwork.ServiceNet.constructor | svc/network.go:122-135 | an empty network whose own ID is the net ID of the node |
| ServiceNetwork.ServiceNet.Register | svc/network.go:34-38 | the listener of the service ID is replaced |
| ServiceNetwork.ServiceNet.EnsureListener | svc/network.go:41-86 | the answer and the new state of the specification, panic included |
| ServiceNetwork.RunInv | svc/network.go:34-86 | over every run the two maps have the same addresses, which are those added to the network stack, each once; each address and port is bound once, after its address was added; and listeners are the last registered |
| ServiceNetwork.RegsAre | svc/network.go:34-38 | the registrations of a live run are all that were made, in order |
| ServiceNetwork.AnswerIs | svc/network.go:41-86 | exactly when a call answers true, answers false, or panics |
| ServiceNetwork.TrueStaysTrue | svc/network.go:43-46 | a pair answered with true stays so after any further calls, changing nothing |
| ServiceNetwork.UnknownServiceRefused | svc/network.go:52-59 | false exactly for a service of this node that was never registered, and then nothing changes |
| ServiceNetwork.EnsureBinds | svc/network.go:49-85 | whom a new service address is bound to, for a known net ID, an unknown one and one's own, and the answer |
| ServiceNetwork.NilHandler | svc/network.go:51-62 | a new binding has no handler exactly when the net ID is another node's and unknown, or the local service was registered with an empty proxy |
| ServiceNetwork.HandlerStays | svc/network.go:43-46 | a pair keeps its first handler whatever happens later |
| ServiceNetwork.ContactedTooEarly | svc/network.go:60-62 | an address contacted before its peer is known keeps the empty handler whatever is added later |
| ServiceNetwork.NilHandlerExample | svc/network.go:60-83 | the same for one address at the first packet of a node |
| ServiceNetwork.HandlerFrom | svc/network.go:41-86 | over every run, every handler is the one its address stood for at the first packet to it |
| ServiceDial.RunInv | svc/receiver.go:11-41 | what every interleaving of the handshake with registrations and failures keeps |
| ServiceDial.DialReaches | svc/proxy.go:83-107 | a handled connection is handled by the proxy last registered under the ID of the name, which is given exactly what the caller piped; nothing is piped before the OK byte is read |
| ServiceDial.HistoryIs | svc/proxy.go:81-107 | registrations and payload are all that was registered and sent |
| ServiceDial.EndsExactly | svc/proxy.go:83-107 | each side ends exactly when one of its calls fails, its pipe or handler ends, or the answer is no |
| ServiceDial.HandledUntilReturns | svc/receiver.go:25-33 | a callee that has answered OK has handed the stream to the handler, which has it until it returns; a caller that has read OK pipes until an end is closed |
| ServiceDial.ServiceGetsPayload | svc/receiver.go:11-41 | a schedule in which a registered service gets the connection and what the client sends |
| ServiceDial.StrangerRefused | svc/receiver.go:13-16 | a stranger gets no answer and is not read |
| ServiceDial.ServiceAddressReaches | svc/network.go:41-85 | for every connection of every run: the peer and the service it reaches, and exactly when that is not the peer meant |
| ServiceDial.SplitIdMisroutes | svc/receiver.go:18-24 | a split read of the ID looks up another one |
| Pipe.RunFlow | svc/pipe.go:10-53 | under every schedule, bytes read are bytes accepted, in the loop's hand and in the reader's, in order |
| Pipe.RunInOrder | svc/pipe.go:10-53 | for streams of every kind, what a side has accepted is a subsequence of what was read from the other |
| Pipe.Delivered | svc/pipe.go:33-53 | each side has always accepted a subsequence of the other's bytes; over fail-stop streams a prefix, and all of them when the pipe returns on its end |
| Pipe.ReturnsAtEnd | svc/pipe.go:12-53 | the pipe returns exactly when it receives an end marker, which follows a failed read of that side; and the bytes of a side are all that its reads handed out |
| Pipe.CutByShortWrite | svc/pipe.go:43-49 | a side is cut exactly when a write to it was short |
| Pipe.RecoveringStreamMissesBytes | svc/pipe.go:43-49 | after an ignored failed write, later bytes arrive without the earlier ones |
| DomainName.IsDomainName | netstack/tun.go:545-584 | true exactly for the strings of the grammar of labels |
| DomainName.ScanStep | netstack/tun.go:553-579 | the automaton accepts a character exactly when the prefix can still be completed label by label |
| DomainName.ScanPrefix | netstack/tun.go:553-579 | every prefix of a domain name scans well |
| Dialer.DialAddrs | netstack/tun.go:1064-1113 | which address ends the loop, with which outcome, the deadlines handed out, and the error of the first dial if all fail or the time is over |
| Dialer.Slot | netstack/tun.go:994-1012 | an attempt gets the larger of its share and two seconds, capped by what is left, within (now, deadline] |
| Dialer.FairShares | netstack/tun.go:1065-1093 | with punctual attempts and a fair share of at least two seconds, every address gets at least its share of the whole, rounded down |
| Dialer.PunctualNeverOver | netstack/tun.go:1080-1086 | and, the share being at least two seconds, the loop never stops for lack of time |
| Dialer.SmallShares | netstack/tun.go:994-1012 | with a smaller share, address `i` gets a slot, of two seconds or what is left, if the whole is more than `2i` seconds; and only then, when attempts use up their slots |
| Dialer.ThirdGetsNothing | netstack/tun.go:994-1012 | three addresses in three seconds |
| Resolver.SkipToAnswer | netstack/tun.go:784-800 | the cursor of the specification |
| Resolver.SkipIs | netstack/tun.go:784-800 | it stops at the first record of the type, and reports no such host exactly for a well-formed section without one |
| Resolver.VerdictIs | netstack/tun.go:763-781 | exactly which replies settle a lookup, and how |
| Resolver.RetryIs | netstack/tun.go:763-800 | why any other exchange settles nothing, with the flags of its error |
| Resolver.NthIs | netstack/tun.go:817-820 | the exchanges go round the servers in order, twice |
| Resolver.TryOneName | netstack/tun.go:803-868 | the first conclusive exchange of two rounds decides, else the last error; at most two exchanges a server |
| Resolver.MergeLanes | netstack/tun.go:915-990 | all addresses of all lanes, IPv6 first if enabled; without any, the error that the code keeps |
| Resolver.CollectedIs | netstack/tun.go:924-970 | a section brings the addresses of its A and AAAA records up to the first that cannot be parsed, each in its place |
| Resolver.ListedIs | netstack/tun.go:975-981 | which family comes first |
| Resolver.FirstErrLasts | netstack/tun.go:917-921 | when all lanes failed, that is the error of the first to answer |
| Resolver.UnreadableDecides | netstack/tun.go:926-961 | otherwise that of the last lane that could not be read |
| Resolver.ArrivalOrder | netstack/tun.go:915-983 | the order of the lanes changes the addresses only if both bring some of one family, never whether there are any, and the error exactly when both failed with different ones or both cannot be read and came from different servers |
| Resolver.OrderDecides | netstack/tun.go:915-983 | a missing name in one lane and a time-out in the other: the first to answer decides the error |
| Resolver.LookupContextHost | netstack/tun.go:871-990 | the addresses that the first conclusive exchanges of the enabled lanes bring, or the error they leave behind; never success without an address, whatever the servers, or with no server |
| Resolver.FoundExactly | netstack/tun.go:871-990 | exactly when a lookup succeeds, and with which addresses |
| Resolver.LaneMissing | netstack/tun.go:803-868 | a lane reports the host as missing exactly when its first conclusive exchange does |
| Resolver.ReportedMissing | netstack/tun.go:871-990 | no such host is reported exactly when the name is empty or malformed, when neither family is enabled, or when all lanes failed and the first to answer had learned it from a server |
| Resolver.UnknownName | netstack/tun.go:836-847 | one server that knows no such name: no such host |
| PeX.WriteAddrs | p2p/pex.go:66-71 | the lines of one peer, or a prefix of them when a write fails |
| PeX.Answer | p2p/pex.go:64-74 | the lines of all peers but the requester, complete exactly when no write failed |
| PeX.Serve | p2p/pex.go:42-76 | who is answered, who is reset, and what is written |
| PeX.RequestPeX | p2p/pex.go:80-119 | the result is what the first peer's stream parses to |
| PeX.FirstBadDecides | p2p/pex.go:89-116 | the first line that does not parse decides how reading ends |
| PeX.ReadPanics | p2p/pex.go:99-101 | reading ends the process exactly when that line has no bar |
| PeX.PanicExample | p2p/pex.go:99-101 | the answer "x" and a newline, under every encoding |
| PeX.BrokenAnswer | p2p/pex.go:89-96 | an answer that does not end properly gives nothing |
| PeX.OneLine | p2p/pex.go:66-71 | the form of a line |
| PeX.RoundTrip | p2p/pex.go:61-116 | reading what a responder wrote gives exactly its pairs, in order |
| PeX.CutShort | p2p/pex.go:89-93 | a text cut anywhere gives exactly the pairs of the lines that arrived whole |
| PeX.FindPeer | p2p/pex.go:171-197 | not found exactly for strangers, else the target's addresses in the answer of the first peer |
| PeX.FindsExactly | p2p/pex.go:187-196 | from an honest answer, the addresses the responder has for the target, once for each time it lists the target |
| MagicDns.Handle | dns/server.go:122-186 | the answers to all questions, or no reply at all after a name with too many labels |
| MagicDns.Resolve | dns/server.go:142-181 | the answer to one name, by ID, host name or alias |
| MagicDns.PrintedParses | dns/server.go:24-35 | a printed name parses back to its service and node |
| MagicDns.ByID | dns/server.go:143-159 | asked by ID the server knows exactly the peers it was started with |
| MagicDns.AnswersByID | dns/server.go:60-95 | by ID: the built-in addresses of a node, or one address in the service range that decodes to node and service; nothing for unknown IDs |
| MagicDns.AnswersByName | dns/server.go:161-181 | by name: the alias and the same addresses, of the node itself for its host name, of the peer for a name in the index; nothing for others |
| MagicDns.AnswersConcat | dns/server.go:122-186 | a message is answered question by question |
| MagicDns.AnswersOne | dns/server.go:122-186 | and a question that asks for no address is skipped |
| MagicDns.FollowAlias | dns/server.go:131-181 | asking for an alias's target gives the records that came with the alias, if and only if the peer was known at start |
| MagicDns.ZoneAddrsOk | dns/server.go:121 | every zone of a server started on consistent tables meets the hypothesis of the claim above |
| MagicDns.LatePeer | cli/up.go:167 | a peer accepted at any point of a run is known to the server by name and not by ID |
| MagicDns.LateAlias | dns/server.go:131-181 | so the target of its alias has no records |

## Left out

- EndToEnd.Delivery: assumes that no length read is split, because the handler ignores how much it read; `SplitHeaderGarbles` is the reason.
- ServiceDial.DialReaches: assumes that the callee's read of the service ID is whole, for the same reason.
- Pipe.Delivered: promises a prefix for fail-stop streams only, because the pipe ignores failed writes.
- TunnelSenderRuns.OneFrameOrTwo: counts a write that reports failure after taking all its bytes as a second way to send twice; under the contract of io.Writer only the failed SetWriteDeadline remains.
- Dialer.Slot: times are unbounded integers, so the saturation of time differences at 64 bits is not modelled; the zero deadline, returned as it is, is not either.
- Dialer.DialAddrs: network and address parsing, name lookup and the choice of address family come before it and are parameters.
- Resolver.TryOneName: one exchange, with its fall back from UDP to TCP, is an oracle; error texts are replaced by their kinds, and the host name that an error repeats is left out.
- RouteRpc.Server.AddPeer: reply messages and the trigger of rediscovery are not modelled; the show action of the route call is only known to change nothing.
- ServiceNetwork.ServiceNet.EnsureListener: the network stack is represented by the calls made on it, and a failed listen by a parameter.
- Opening streams, remote resets, the DHT, relays, discovery back-off and metrics: plumbing over libraries; their failures are choices of the environment.
- TUN drivers: adding and removing routes follows Linux, where adding an existing route and removing a missing one fail.
- The trie behind `ByRoute`: a finite map from network to entry; its match order is not modelled, since more than one match panics.
- `FindRoute`, `AddPeerWithTUN`, status and listing calls, and the parsing of service targets: they change nothing or have one branch.
- JSON-RPC, the command line, signals, the DNS listener's address and port, and the Windows variants: input and output, or near copies.
- Fairness and liveness: the transition systems say what every schedule keeps, not that every goroutine is scheduled.
